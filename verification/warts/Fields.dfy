/** Optional fields in flag order. A record structure is the map from the flags seen to the values read; the four
    tables below say which read every flag stands for. */
module WartsFields {
  import Seqs
  import opened Common
  import opened WartsWire
  import opened WartsFlags
  import opened WartsAddress

  datatype Kind =
    | U8 | U16 | U32
    | TimeVal               // seconds and microseconds, four bytes each
    | Micros                // microseconds in four bytes, split into seconds and the rest
    | Reference             // four-byte reference to an address
    | Addr                  // inline address or reference
    | AddrList              // a count byte and that many addresses
    | Stamps                // two count bytes, timestamps, addresses
    | Triple                // three timestamps
    | Data(lengthFlag: nat) // as many bytes as the field lengthFlag says
    | Extensions            // a list of ICMP extensions
    | Ignored               // a time that is read and dropped

  datatype Extension = Extension(length: uint16, classNumber: uint8, typeNumber: uint8, data: Bytes)

  datatype Value =
    | Num(n: nat)
    | Time(sec: nat, usec: int)
    | At(a: Address)
    | AtAll(addrs: seq<Address>)
    | Stamped(addrs: seq<Address>, times: seq<uint32>)
    | Times(o: uint32, r: uint32, t: uint32)
    | Raw(data: Bytes)
    | Exts(length: uint16, exts: seq<Extension>)
    | Dropped

  /** Which read a flag stands for; other flags are errors. */
  type Table = nat -> Option<Kind>
  type Fields = map<nat, Value>

  /** A structure as read: its flags in the order read and the fields they carry. */
  datatype Struct = Struct(flags: seq<nat>, fields: Fields)

  function PingFields(f: nat): Option<Kind> {
    if f in {6, 7, 12, 13, 16, 22, 23, 27} then Some(U8)
    else if f in {8, 10, 11, 14, 15, 17, 18, 25, 26} then Some(U16)
    else if f in {1, 2, 3, 4, 19, 28} then Some(U32)
    else if f in {20, 21} then Some(Addr)
    else if f == 5 then Some(TimeVal)
    else if f == 9 then Some(Data(8))
    else if f == 24 then Some(AddrList)
    else None
  }

  function PingReplyFields(f: nat): Option<Kind> {
    if f in {2, 3, 10, 11} then Some(U8)
    else if f in {4, 5, 7, 8, 9} then Some(U16)
    else if f in {1, 15} then Some(U32)
    else if f == 6 then Some(Micros)
    else if f == 12 then Some(Addr)
    else if f == 13 then Some(AddrList)
    else if f == 14 then Some(Stamps)
    else if f == 16 then Some(TimeVal)
    else if f == 17 then Some(Triple)
    else None
  }

  function TracerouteFields(f: nat): Option<Kind> {
    if f in {6, 7, 8, 9, 10, 11, 15, 16, 17, 18, 20, 21, 22, 24, 25} then Some(U8)
    else if f in {12, 13, 14, 19, 23} then Some(U16)
    else if f in {1, 2, 28} then Some(U32)
    else if f in {3, 4} then Some(Reference)
    else if f in {26, 27} then Some(Addr)
    else if f == 5 then Some(TimeVal)
    else None
  }

  function HopFields(f: nat): Option<Kind> {
    if f in {2, 3, 4, 5, 11, 14, 15, 16} then Some(U8)
    else if f in {7, 8, 9, 10, 12, 13} then Some(U16)
    else if f == 1 then Some(Reference)
    else if f == 6 then Some(Micros)
    else if f == 17 then Some(Extensions)
    else if f == 18 then Some(Addr)
    else if f == 19 then Some(Ignored)
    else None
  }

  // ---------- reading ----------

  function ReadUint32s(n: nat, acc: seq<uint32>, s: Bytes): Res<(seq<uint32>, Bytes)> {
    if n == 0 then Ok((acc, s))
    else
      var (v, s1) :- ReadUint32(s);
      ReadUint32s(n - 1, acc + [v], s1)
  }

  function ReadStamps(st: State): Res<(Value, State)> {
    var (tsc, s1) :- ReadUint8(st.rest);
    var (ipc, s2) :- ReadUint8(s1);
    var (times, s3) :- ReadUint32s(tsc as nat, [], s2);
    var (addrs, st4) :- ReadAddresses(ipc as nat, st.(rest := s3));
    Ok((Stamped(addrs, times), st4))
  }

  function ReadTriple(s: Bytes): Res<(Value, Bytes)> {
    var (o, s1) :- ReadUint32(s);
    var (r, s2) :- ReadUint32(s1);
    var (t, s3) :- ReadUint32(s2);
    Ok((Times(o, r, t), s3))
  }

  function ReadExtension(s: Bytes): (r: Res<(Extension, Bytes)>)
    ensures r.Ok? ==> |r.value.1| + 4 <= |s|
  {
    var (length, s1) :- ReadUint16(s);
    var (classNumber, s2) :- ReadUint8(s1);
    var (typeNumber, s3) :- ReadUint8(s2);
    var (data, s4) :- ReadBytes(s3, length);
    Ok((Extension(length, classNumber, typeNumber, data), s4))
  }

  function Wrap16(n: nat): (r: uint16)
    ensures n < 0x1_0000 ==> r == n
  {
    n % 0x1_0000
  }

  /** The loop of readICMPExtensionList; `i` is its sixteen-bit counter, and may wrap.
      The bytes left bound the number of rounds all the same. */
  function ReadExtensionsFrom(i: uint16, length: uint16, acc: seq<Extension>, s: Bytes): Res<(seq<Extension>, Bytes)>
    decreases |s|
  {
    if i >= length then Ok((acc, s))
    else
      var (e, s1) :- ReadExtension(s);
      ReadExtensionsFrom(Wrap16(i + e.length + 4), length, acc + [e], s1)
  }

  function ReadExtensions(s: Bytes): Res<(Value, Bytes)> {
    var (length, s1) :- ReadUint16(s);
    var (exts, s2) :- ReadExtensionsFrom(0, length, [], s1);
    Ok((Exts(length, exts), s2))
  }

  /** The announced number of data bytes; zero when the length field was not there. */
  function DataLength(flag: nat, fields: Fields): nat {
    if flag in fields && fields[flag].Num? then fields[flag].n else 0
  }

  function ReadPlain(k: Kind, fields: Fields, s: Bytes): Res<(Value, Bytes)>
    requires !k.Reference? && !k.Addr? && !k.AddrList? && !k.Stamps?
  {
    match k
    case U8 => var (n, s1) :- ReadUint8(s); Ok((Num(n as nat), s1))
    case U16 => var (n, s1) :- ReadUint16(s); Ok((Num(n), s1))
    case U32 => var (n, s1) :- ReadUint32(s); Ok((Num(n), s1))
    case TimeVal => var (t, s1) :- ReadTimeVal(s); Ok((Time(t.0, t.1), s1))
    case Micros => var (n, s1) :- ReadUint32(s); Ok((Time(n / 1000000, n % 1000000), s1))
    case Triple => ReadTriple(s)
    case Data(flag) => var (b, s1) :- ReadBytes(s, DataLength(flag, fields)); Ok((Raw(b), s1))
    case Extensions => ReadExtensions(s)
    case Ignored => var (t, s1) :- ReadTimeVal(s); Ok((Dropped, s1))
  }

  /** One field, given the fields read before it. */
  function ReadValue(k: Kind, fields: Fields, st: State): Res<(Value, State)> {
    match k
    case Reference => var (a, st1) :- ReadReferencedAddress(st); Ok((At(a), st1))
    case Addr => var (a, st1) :- ReadAddress(st); Ok((At(a), st1))
    case AddrList =>
      var (n, s1) :- ReadUint8(st.rest);
      var (addrs, st2) :- ReadAddresses(n as nat, st.(rest := s1));
      Ok((AtAll(addrs), st2))
    case Stamps => ReadStamps(st)
    case _ => var (v, s1) :- ReadPlain(k, fields, st.rest); Ok((v, st.(rest := s1)))
  }

  /** The loop over the flags; a flag outside the table is an error. */
  function ReadFields(t: Table, flags: seq<nat>, fields: Fields, st: State): Res<(Fields, State)>
    decreases |flags|
  {
    if flags == [] then Ok((fields, st))
    else if t(flags[0]).None? then Err(Malformed)
    else
      var (v, st1) :- ReadValue(t(flags[0]).value, fields, st);
      ReadFields(t, flags[1..], fields[flags[0] := v], st1)
  }

  function ReadBitmap(s: Bytes): Res<(seq<nat>, Bytes)> {
    var (first, s1) :- ReadOne(s);
    GetFlags(first, 1, [], s1)
  }

  /** Bitmap, and two bytes of parameter length if any flag is set. */
  function ReadFront(s: Bytes): Res<(seq<nat>, Bytes)> {
    var (flags, s1) :- ReadBitmap(s);
    var (_, s2) :- if flags == [] then Ok((0, s1)) else ReadUint16(s1);
    Ok((flags, s2))
  }

  function ReadStruct(t: Table, st: State): Res<(Struct, State)> {
    var (flags, s1) :- ReadFront(st.rest);
    var (fields, st2) :- ReadFields(t, flags, map[], st.(rest := s1));
    Ok((Struct(flags, fields), st2))
  }

  function ReadStructs(t: Table, n: nat, st: State): Res<(seq<Struct>, State)> {
    ReadMany((st': State) => ReadStruct(t, st'), n, [], st)
  }

  // ---------- writing ----------

  function PutUint32s(ns: seq<uint32>, rest: Bytes): Bytes {
    if ns == [] then rest else PutUint32(ns[0], PutUint32s(ns[1..], rest))
  }

  predicate WellFormedExtension(e: Extension) {
    |e.data| == e.length
  }

  function PutExtension(e: Extension, rest: Bytes): Bytes {
    PutUint16(e.length, [e.classNumber] + ([e.typeNumber] + (e.data + rest)))
  }

  /** The bytes a list of extensions takes. */
  function ExtensionsLength(exts: seq<Extension>): nat {
    if exts == [] then 0 else exts[0].length + 4 + ExtensionsLength(exts[1..])
  }

  function PutExtensions(exts: seq<Extension>, rest: Bytes): Bytes {
    if exts == [] then rest else PutExtension(exts[0], PutExtensions(exts[1..], rest))
  }

  /** The values that a plain field can carry. */
  predicate FitsPlain(k: Kind, v: Value, fields: Fields) {
    match k
    case U8 => v.Num? && v.n < 0x100
    case U16 => v.Num? && v.n < 0x1_0000
    case U32 => v.Num? && v.n < 0x1_0000_0000
    case TimeVal => v.Time? && v.sec < 0x1_0000_0000 && -0x8000_0000 <= v.usec < 0x8000_0000
    case Micros => v.Time? && 0 <= v.usec < 1000000 && v.sec * 1000000 + v.usec < 0x1_0000_0000
    case Triple => v.Times?
    case Data(flag) => v.Raw? && |v.data| == DataLength(flag, fields)
    case Extensions =>
      v.Exts? && v.length == ExtensionsLength(v.exts) && forall e :: e in v.exts ==> WellFormedExtension(e)
    case Ignored => v.Dropped?
    case _ => false
  }

  function PutPlain(k: Kind, v: Value, rest: Bytes): Bytes {
    match (k, v)
    case (U8, Num(n)) => [ToUint8(n)] + rest
    case (U16, Num(n)) => PutUint16(ToUint16(n), rest)
    case (U32, Num(n)) => PutUint32(ToUint32(n), rest)
    case (TimeVal, Time(sec, usec)) => PutTimeVal(sec, usec, rest)
    case (Micros, Time(sec, usec)) => PutUint32(ToUint32(sec * 1000000 + usec), rest)
    case (Triple, Times(o, r, t)) => PutUint32(o, PutUint32(r, PutUint32(t, rest)))
    case (Data(_), Raw(b)) => b + rest
    case (Extensions, Exts(length, exts)) => PutUint16(length, PutExtensions(exts, rest))
    case _ => rest
  }

  /** The values that a field can carry, given the table of addresses and the other fields. */
  ghost predicate Fits(k: Kind, v: Value, fields: Fields, pen: Pen) {
    match k
    case Reference => v.At? && Referable(v.a, pen.refs)
    case Addr => v.At?
    case AddrList => v.AtAll? && |v.addrs| < 0x100
    case Stamps => v.Stamped? && |v.addrs| < 0x100 && |v.times| < 0x100
    case _ => FitsPlain(k, v, fields)
  }

  ghost function PutValue(k: Kind, v: Value, pen: Pen, rest: Bytes): Bytes {
    match (k, v)
    case (Reference, At(a)) => PutUint32(RefTo(a, pen), rest)
    case (Addr, At(a)) => PutAddress(a, pen, rest)
    case (AddrList, AtAll(addrs)) => [ToUint8(|addrs|)] + PutAddresses(addrs, pen, rest)
    case (Stamps, Stamped(addrs, times)) => PutStamps(addrs, times, pen, rest)
    case (Ignored, _) => PutUint32(pen.Next().number, PutUint32(pen.Next().other, rest))
    case _ => PutPlain(k, v, rest)
  }

  ghost function PutStamps(addrs: seq<Address>, times: seq<uint32>, pen: Pen, rest: Bytes): Bytes {
    [ToUint8(|times|)]
    + ([ToUint8(|addrs|)] + PutUint32s(times, PutAddresses(addrs, pen, rest)))
  }

  ghost function PenAfterValue(k: Kind, v: Value, pen: Pen): Pen {
    match (k, v)
    case (Addr, At(a)) => PenAfter(a, pen)
    case (AddrList, AtAll(addrs)) => PenAfterAll(addrs, pen)
    case (Stamps, Stamped(addrs, _)) => PenAfterAll(addrs, pen)
    case _ => pen.Then(pen.refs)
  }

  /** The fields of `flags` one after the other; only flags that have a read and a value are written. */
  ghost function PutFields(t: Table, flags: seq<nat>, fields: Fields, pen: Pen, rest: Bytes): Bytes {
    if flags == [] || t(flags[0]).None? || flags[0] !in fields then rest
    else
      var (k, v) := (t(flags[0]).value, fields[flags[0]]);
      PutValue(k, v, pen, PutFields(t, flags[1..], fields, PenAfterValue(k, v, pen), rest))
  }

  ghost function PenAfterFields(t: Table, flags: seq<nat>, fields: Fields, pen: Pen): Pen {
    if flags == [] || t(flags[0]).None? || flags[0] !in fields then pen
    else PenAfterFields(t, flags[1..], fields, PenAfterValue(t(flags[0]).value, fields[flags[0]], pen))
  }

  /** Every field of `flags` fits when its turn comes. */
  ghost predicate FieldsFit(t: Table, flags: seq<nat>, fields: Fields, pen: Pen) {
    flags == []
    || (&& t(flags[0]).Some? && flags[0] in fields && Fits(t(flags[0]).value, fields[flags[0]], fields, pen)
        && FieldsFit(t, flags[1..], fields, PenAfterValue(t(flags[0]).value, fields[flags[0]], pen)))
  }

  /** A structure that can be written: flags up to 34, each listed once in ascending order, each field fitting. */
  ghost predicate StructFits(t: Table, x: Struct, pen: Pen) {
    && SmallFlags(x.fields.Keys)
    && x.flags == FlagsOf(x.fields.Keys)
    && FieldsFit(t, x.flags, x.fields, pen.Then(pen.refs))
  }

  /** Any bitmap that says the flags, by default the shortest. */
  function BitmapFor(flags: seq<nat>, keys: set<nat>, choice: Bytes): Bytes {
    if IsBitmap(choice) && Wrap(Positions(choice, 0)) == flags then choice else ShortBitmap(keys)
  }

  /** The bitmap, and two bytes of parameter length if there are any flags. */
  function PutFront(flags: seq<nat>, keys: set<nat>, choice: Bytes, n: uint16, body: Bytes): Bytes {
    BitmapFor(flags, keys, choice) + if flags == [] then body else PutUint16(n, body)
  }

  ghost function PutStruct(t: Table, x: Struct, pen: Pen, rest: Bytes): Bytes {
    var pen1 := pen.Then(pen.refs);
    var n := pen.Length(|PutFields(t, x.flags, x.fields, pen1, [])|) % 0x1_0000;
    PutFront(x.flags, x.fields.Keys, pen.Next().bytes, n, PutFields(t, x.flags, x.fields, pen1, rest))
  }

  ghost function PenAfterStruct(t: Table, x: Struct, pen: Pen): Pen {
    PenAfterFields(t, x.flags, x.fields, pen.Then(pen.refs))
  }

  ghost predicate StructsFit(t: Table, xs: seq<Struct>, pen: Pen) {
    FitMany((x: Struct, p: Pen) => StructFits(t, x, p), (x: Struct, p: Pen) => PenAfterStruct(t, x, p), xs, pen)
  }

  ghost function PutStructs(t: Table, xs: seq<Struct>, pen: Pen, rest: Bytes): Bytes {
    PutMany((x: Struct, p: Pen, s: Bytes) => PutStruct(t, x, p, s), (x: Struct, p: Pen) => PenAfterStruct(t, x, p), xs, pen, rest)
  }

  ghost function PenAfterStructs(t: Table, xs: seq<Struct>, pen: Pen): Pen {
    AfterMany((x: Struct, p: Pen) => PenAfterStruct(t, x, p), xs, pen)
  }

  /** A length field has a smaller flag than the data it is for. */
  ghost predicate LengthsFirst(t: Table) {
    forall f :: t(f).Some? && t(f).value.Data? ==> t(f).value.lengthFlag < f
  }

  // ---------- the writer is undone ----------

  lemma {:induction false} Uint32sRoundTrip(ns: seq<uint32>, acc: seq<uint32>, rest: Bytes)
    ensures ReadUint32s(|ns|, acc, PutUint32s(ns, rest)) == Ok((acc + ns, rest))
    decreases |ns|
  {
    if ns == [] {
      Seqs.NoneLeft(acc);
    } else {
      Uint32RoundTrip(ns[0], PutUint32s(ns[1..], rest));
      Uint32sRoundTrip(ns[1..], acc + [ns[0]], rest);
      Seqs.Shift(acc, ns);
    }
  }

  lemma ExtensionRoundTrip(e: Extension, rest: Bytes)
    requires WellFormedExtension(e)
    ensures ReadExtension(PutExtension(e, rest)) == Ok((e, rest))
  {
    var d := e.data + rest;
    Uint16RoundTrip(e.length, [e.classNumber] + ([e.typeNumber] + d));
    Seqs.Cons(e.classNumber, [e.typeNumber] + d);
    Seqs.Cons(e.typeNumber, d);
    DataRoundTrip(e.data, rest);
  }

  lemma DataRoundTrip(b: Bytes, rest: Bytes)
    ensures ReadBytes(b + rest, |b|) == Ok((b, rest))
  {
    Seqs.Front(b, rest);
    if b == [] {
      assert b + rest == rest;
    }
  }

  lemma ExtensionsStep(i: uint16, length: uint16, acc: seq<Extension>, s: Bytes, e: Extension, s1: Bytes)
    requires ReadExtension(s) == Ok((e, s1)) && i + e.length + 4 <= length
    ensures ReadExtensionsFrom(i, length, acc, s) == ReadExtensionsFrom(i + e.length + 4, length, acc + [e], s1)
  {
    assert Wrap16(i + e.length + 4) == i + e.length + 4;
  }

  /** On a list whose announced length is the length of its extensions, the reader returns the extensions in
      order and stops right behind them. */
  lemma {:induction false} ExtensionsRoundTrip(i: uint16, length: uint16, exts: seq<Extension>, acc: seq<Extension>, rest: Bytes)
    requires i + ExtensionsLength(exts) == length && forall e :: e in exts ==> WellFormedExtension(e)
    ensures ReadExtensionsFrom(i, length, acc, PutExtensions(exts, rest)) == Ok((acc + exts, rest))
    decreases |exts|
  {
    if exts == [] {
      Seqs.NoneLeft(acc);
    } else {
      var e := exts[0];
      var s1 := PutExtensions(exts[1..], rest);
      ExtensionRoundTrip(e, s1);
      ExtensionsStep(i, length, acc, PutExtension(e, s1), e, s1);
      ExtensionsRoundTrip(i + e.length + 4, length, exts[1..], acc + [e], rest);
      Seqs.Shift(acc, exts);
    }
  }

  lemma TripleRoundTrip(o: uint32, r: uint32, t: uint32, rest: Bytes)
    ensures ReadTriple(PutUint32(o, PutUint32(r, PutUint32(t, rest)))) == Ok((Times(o, r, t), rest))
  {
    Uint32RoundTrip(o, PutUint32(r, PutUint32(t, rest)));
    Uint32RoundTrip(r, PutUint32(t, rest));
    Uint32RoundTrip(t, rest);
  }

  lemma ExtensionListRoundTrip(length: uint16, exts: seq<Extension>, rest: Bytes)
    requires length == ExtensionsLength(exts) && forall e :: e in exts ==> WellFormedExtension(e)
    ensures ReadExtensions(PutUint16(length, PutExtensions(exts, rest))) == Ok((Exts(length, exts), rest))
  {
    Uint16RoundTrip(length, PutExtensions(exts, rest));
    ExtensionsRoundTrip(0, length, exts, [], rest);
    Seqs.NoneLeft(exts);
  }

  lemma MicrosSplit(sec: nat, usec: int)
    requires 0 <= usec < 1000000
    ensures (sec * 1000000 + usec) / 1000000 == sec && (sec * 1000000 + usec) % 1000000 == usec
  {
  }

  lemma PlainRoundTrip(k: Kind, v: Value, fields: Fields, seen: Fields, rest: Bytes)
    requires FitsPlain(k, v, fields) && !k.Ignored?
    requires k.Data? ==> DataLength(k.lengthFlag, seen) == DataLength(k.lengthFlag, fields)
    ensures ReadPlain(k, seen, PutPlain(k, v, rest)) == Ok((v, rest))
  {
    match k
    case U8 => Seqs.Cons(v.n as uint8, rest);
    case U16 => Uint16RoundTrip(v.n, rest);
    case U32 => Uint32RoundTrip(v.n, rest);
    case TimeVal => TimeValRoundTrip(v.sec, v.usec, rest);
    case Micros =>
      Uint32RoundTrip(v.sec * 1000000 + v.usec, rest);
      MicrosSplit(v.sec, v.usec);
    case Triple => TripleRoundTrip(v.o, v.r, v.t, rest);
    case Data(_) => DataRoundTrip(v.data, rest);
    case Extensions => ExtensionListRoundTrip(v.length, v.exts, rest);
  }

  lemma AddrListRoundTrip(addrs: seq<Address>, seen: Fields, pen: Pen, rest: Bytes)
    requires |addrs| < 0x100
    ensures ReadValue(AddrList, seen, State(PutValue(AddrList, AtAll(addrs), pen, rest), pen.refs))
         == Ok((AtAll(addrs), State(rest, PenAfterAll(addrs, pen).refs)))
  {
    Seqs.Cons(ToUint8(|addrs|), PutAddresses(addrs, pen, rest));
    AddressesRoundTrip(addrs, pen, rest);
  }

  lemma StampsRoundTrip(addrs: seq<Address>, times: seq<uint32>, pen: Pen, rest: Bytes)
    requires |addrs| < 0x100 && |times| < 0x100
    ensures ReadStamps(State(PutStamps(addrs, times, pen, rest), pen.refs))
         == Ok((Stamped(addrs, times), State(rest, PenAfterAll(addrs, pen).refs)))
  {
    var s2 := PutUint32s(times, PutAddresses(addrs, pen, rest));
    Seqs.Cons(ToUint8(|times|), [ToUint8(|addrs|)] + s2);
    Seqs.Cons(ToUint8(|addrs|), s2);
    Uint32sRoundTrip(times, [], PutAddresses(addrs, pen, rest));
    AddressesRoundTrip(addrs, pen, rest);
    Seqs.NoneLeft(times);
  }

  lemma ValueRoundTrip(k: Kind, v: Value, fields: Fields, seen: Fields, pen: Pen, rest: Bytes)
    requires Fits(k, v, fields, pen)
    requires k.Data? ==> DataLength(k.lengthFlag, seen) == DataLength(k.lengthFlag, fields)
    ensures ReadValue(k, seen, State(PutValue(k, v, pen, rest), pen.refs))
         == Ok((v, State(rest, PenAfterValue(k, v, pen).refs)))
  {
    match k
    case Reference => ReferenceRoundTrip(v.a, pen, rest);
    case Addr => AddressRoundTrip(v.a, pen, rest);
    case AddrList => AddrListRoundTrip(v.addrs, seen, pen, rest);
    case Stamps => StampsRoundTrip(v.addrs, v.times, pen, rest);
    case Ignored =>
      Uint32RoundTrip(pen.Next().number, PutUint32(pen.Next().other, rest));
      Uint32RoundTrip(pen.Next().other, rest);
    case _ => PlainRoundTrip(k, v, fields, seen, rest);
  }

  /** `seen` holds the fields of all smaller flags than the next one to read. */
  ghost predicate SeenBefore(flags: seq<nat>, fields: Fields, seen: Fields) {
    && Increasing(flags)
    && (forall f :: f in flags ==> f in fields)
    && seen == (map f | f in fields && f !in flags :: fields[f])
    && forall f, g :: f in seen && g in flags ==> f < g
  }

  lemma SeenNext(flags: seq<nat>, fields: Fields, seen: Fields)
    requires flags != [] && SeenBefore(flags, fields, seen)
    ensures SeenBefore(flags[1..], fields, seen[flags[0] := fields[flags[0]]])
  {
    assert flags == [flags[0]] + flags[1..];
    assert forall g :: g in flags[1..] ==> g in flags && flags[0] < g;
    assert forall f :: f in flags <==> f == flags[0] || f in flags[1..];
  }

  lemma LengthSeen(flags: seq<nat>, fields: Fields, seen: Fields, f: nat)
    requires flags != [] && SeenBefore(flags, fields, seen) && f < flags[0]
    ensures DataLength(f, seen) == DataLength(f, fields)
  {
    assert f !in flags;
  }

  lemma {:induction false} FieldsRoundTrip(t: Table, flags: seq<nat>, fields: Fields, seen: Fields, pen: Pen, rest: Bytes)
    requires FieldsFit(t, flags, fields, pen) && SeenBefore(flags, fields, seen) && LengthsFirst(t)
    ensures ReadFields(t, flags, seen, State(PutFields(t, flags, fields, pen, rest), pen.refs))
         == Ok((fields, State(rest, PenAfterFields(t, flags, fields, pen).refs)))
    decreases |flags|
  {
    if flags == [] {
      assert seen == fields;
    } else {
      var f := flags[0];
      var pen1 := PenAfterValue(t(f).value, fields[f], pen);
      if t(f).value.Data? {
        LengthSeen(flags, fields, seen, t(f).value.lengthFlag);
      }
      ValueRoundTrip(t(f).value, fields[f], fields, seen, pen, PutFields(t, flags[1..], fields, pen1, rest));
      SeenNext(flags, fields, seen);
      FieldsRoundTrip(t, flags[1..], fields, seen[f := fields[f]], pen1, rest);
    }
  }

  lemma FlagsAreKeys(keys: set<nat>)
    requires SmallFlags(keys)
    ensures Increasing(FlagsOf(keys)) && forall f :: f in FlagsOf(keys) <==> f in keys
  {
    AscendingIs(keys, 1, 36);
  }

  lemma BitmapRead(bitmap: Bytes, flags: seq<nat>, tail: Bytes)
    requires bitmap != [] && GetFlags(bitmap[0], 1, [], bitmap[1..] + tail) == Ok((flags, tail))
    ensures ReadBitmap(bitmap + tail) == Ok((flags, tail))
  {
    assert (bitmap + tail)[1..] == bitmap[1..] + tail;
  }

  lemma FrontBitmap(flags: seq<nat>, keys: set<nat>, choice: Bytes, tail: Bytes)
    requires SmallFlags(keys) && flags == FlagsOf(keys)
    ensures ReadBitmap(BitmapFor(flags, keys, choice) + tail) == Ok((flags, tail))
  {
    if IsBitmap(choice) && Wrap(Positions(choice, 0)) == flags {
      GetFlagsReadsBitmap(choice, tail);
      BitmapRead(choice, flags, tail);
    } else {
      BitmapRoundTrip(keys, tail);
      BitmapRead(ShortBitmap(keys), flags, tail);
    }
  }

  lemma FrontRoundTrip(flags: seq<nat>, keys: set<nat>, choice: Bytes, n: uint16, body: Bytes)
    requires SmallFlags(keys) && flags == FlagsOf(keys)
    ensures ReadFront(PutFront(flags, keys, choice, n, body)) == Ok((flags, body))
  {
    FrontBitmap(flags, keys, choice, if flags == [] then body else PutUint16(n, body));
    Uint16RoundTrip(n, body);
  }

  lemma StructRoundTrip(t: Table, x: Struct, pen: Pen, rest: Bytes)
    requires StructFits(t, x, pen) && LengthsFirst(t)
    ensures ReadStruct(t, State(PutStruct(t, x, pen, rest), pen.refs)) == Ok((x, State(rest, PenAfterStruct(t, x, pen).refs)))
  {
    var pen1 := pen.Then(pen.refs);
    var n := pen.Length(|PutFields(t, x.flags, x.fields, pen1, [])|) % 0x1_0000;
    FrontRoundTrip(x.flags, x.fields.Keys, pen.Next().bytes, n, PutFields(t, x.flags, x.fields, pen1, rest));
    FlagsAreKeys(x.fields.Keys);
    FieldsRoundTrip(t, x.flags, x.fields, map[], pen1, rest);
  }

  lemma StructsRoundTrip(t: Table, xs: seq<Struct>, pen: Pen, rest: Bytes)
    requires StructsFit(t, xs, pen) && LengthsFirst(t)
    ensures ReadStructs(t, |xs|, State(PutStructs(t, xs, pen, rest), pen.refs))
         == Ok((xs, State(rest, PenAfterStructs(t, xs, pen).refs)))
  {
    forall x, p, s | StructFits(t, x, p)
      ensures ReadStruct(t, State(PutStruct(t, x, p, s), p.refs)) == Ok((x, State(s, PenAfterStruct(t, x, p).refs)))
    {
      StructRoundTrip(t, x, p, s);
    }
    ManyRoundTrip((st': State) => ReadStruct(t, st'), (x: Struct, p: Pen, s: Bytes) => PutStruct(t, x, p, s),
      (x: Struct, p: Pen) => PenAfterStruct(t, x, p), (x: Struct, p: Pen) => StructFits(t, x, p), xs, [], pen, rest);
    Seqs.NoneLeft(xs);
  }
}
