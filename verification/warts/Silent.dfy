/** Where a record that is cut off ends the parse silently: which cuts make the read that misses bytes report io.EOF
    unchanged. Everywhere else it reports an error of its own. */
module WartsSilent {
  import Seqs
  import opened Common
  import opened WartsWire
  import opened WartsFlags
  import opened WartsAddress
  import opened WartsFields
  import opened WartsFrame
  import opened WartsRecords

  /** s without its last n bytes. */
  function Short(s: Bytes, n: nat): Bytes
    requires n <= |s|
  {
    s[..|s| - n]
  }

  function Fault(silent: bool): Error {
    if silent then Eof else Malformed
  }

  lemma ShortBehind(s: Bytes, rest: Bytes, n: nat)
    requires Behind(s, rest) && n <= |rest|
    ensures Used(s, rest) + Short(rest, n) == Short(s, n)
  {
  }

  lemma ShortPlus(a: Bytes, rest: Bytes, n: nat)
    requires n <= |rest|
    ensures Short(a + rest, n) == a + Short(rest, n)
  {
  }

  lemma ShortDrop(s: Bytes, k: nat, n: nat)
    requires k + n <= |s|
    ensures Short(s, n)[k..] == Short(s[k..], n) && Short(s, n)[k..] + s[|s| - n..] == s[k..]
  {
  }

  // ---------- reads that are never silent ----------

  lemma ShortUint16(k: uint16, rest: Bytes, n: nat)
    requires |rest| < n <= |PutUint16(k, rest)|
    ensures ReadUint16(Short(PutUint16(k, rest), n)) == Err(Malformed)
  {
  }

  lemma ShortUint32(k: uint32, rest: Bytes, n: nat)
    requires |rest| < n <= |PutUint32(k, rest)|
    ensures ReadUint32(Short(PutUint32(k, rest), n)) == Err(Malformed)
  {
  }

  lemma ShortOne(b: uint8, rest: Bytes, n: nat)
    requires |rest| < n <= |[b] + rest|
    ensures Short([b] + rest, n) == []
  {
  }

  /** Words read one after the other. */
  lemma WordsNeed(s: Bytes)
    ensures |s| < 8 ==> ReadTimeVal(s) == Err(Malformed)
    ensures |s| < 12 ==> ReadTriple(s) == Err(Malformed)
  {
  }

  lemma {:induction false} Uint32sNeed(k: nat, acc: seq<uint32>, s: Bytes)
    ensures |s| < 4 * k ==> ReadUint32s(k, acc, s) == Err(Malformed)
    decreases k
  {
    if k > 0 && ReadUint32(s).Ok? {
      var (v, s1) := ReadUint32(s).value;
      Uint32sNeed(k - 1, acc + [v], s1);
    }
  }

  lemma {:induction false} Uint32sSize(ns: seq<uint32>, rest: Bytes)
    ensures |PutUint32s(ns, rest)| == 4 * |ns| + |rest|
  {
    if ns != [] {
      Uint32sSize(ns[1..], rest);
    }
  }

  // ---------- addresses ----------

  /** The address is inline, its length and its type are there and nothing else. */
  ghost predicate SilentAddress(a: Address, pen: Pen, rest: Bytes, n: int) {
    var s := PutAddress(a, pen, rest);
    s != [] && s[0] != 0 && |s| - n == 2
  }

  lemma InlineShort(k: uint8, kind: uint8, b: Bytes, rest: Bytes, n: nat, refs: Refs)
    requires 1 <= k as nat == |b| && |rest| < n <= |rest| + |b| + 2
    ensures var s := [k, kind] + (b + rest);
      ReadAddress(State(Short(s, n), refs)) == Err(Fault(|s| - n == 2))
  {
    var s := [k, kind] + (b + rest);
    var c := Short(s, n);
    if |c| >= 2 {
      assert c[0] == k && c[1..][1..] == c[2..];
    } else if |c| == 1 {
      assert c[0] == k && c[1..] == [];
    }
  }

  lemma IdShort(id: uint32, rest: Bytes, n: nat, refs: Refs)
    requires |rest| < n <= |rest| + 5
    ensures ReadAddress(State(Short([0] + PutUint32(id, rest), n), refs)) == Err(Malformed)
  {
    var s := [0] + PutUint32(id, rest);
    var c := Short(s, n);
    if c != [] {
      assert c[0] == 0 && c[1..] == Short(PutUint32(id, rest), n);
    }
  }

  lemma DefaultShort(a: Address, rest: Bytes, n: nat, refs: Refs)
    requires |rest| < n <= |PutInline(a, rest)|
    ensures var s := PutInline(a, rest); s[0] != 0 && ReadAddress(State(Short(s, n), refs)) == Err(Fault(|s| - n == 2))
  {
    if a.address < 0x1_0000_0000 {
      var s := PutUint32(a.address, rest);
      PutUint32Splits(a.address, rest);
      assert s == s[..4] + rest;
      InlineShort(4, a.kind, s[..4], rest, n, refs);
    } else {
      var hi, lo := a.address / 0x1_0000_0000, a.address % 0x1_0000_0000;
      var s := PutUint32(hi, PutUint32(lo, rest));
      EightBytes(hi, lo, rest);
      InlineShort(8, a.kind, s[..8], rest, n, refs);
    }
  }

  lemma AddressShort(a: Address, pen: Pen, rest: Bytes, n: nat)
    requires |rest| < n <= |PutAddress(a, pen, rest)|
    ensures ReadAddress(State(Short(PutAddress(a, pen, rest), n), pen.refs)) == Err(Fault(SilentAddress(a, pen, rest, n)))
  {
    var c := pen.Next();
    if Spells(c.bytes, a) {
      InlineShort(|c.bytes| as uint8, a.kind, c.bytes, rest, n, pen.refs);
    } else if pen.refs.Get(c.number) == a {
      IdShort(c.number, rest, n, pen.refs);
    } else if a in pen.refs.addrs.Values {
      IdShort(IdOf(a, pen.refs), rest, n, pen.refs);
    } else {
      DefaultShort(a, rest, n, pen.refs);
    }
  }

  // ---------- items one after the other ----------

  /** The read of an item from s without its last n bytes: it fails, or leaves `rest` without them. */
  ghost predicate ShortRead<T>(r: Res<(T, State)>, x: T, after: Refs, s: Bytes, rest: Bytes, n: nat, silent: bool) {
    && |rest| <= |s|
    && if |rest| < n then r == Err(Fault(silent)) else r == Ok((x, State(Short(rest, n), after)))
  }

  ghost predicate SilentMany<T>(put: (T, Pen, Bytes) -> Bytes, after: (T, Pen) -> Pen, silent: (T, Pen, Bytes, int) -> bool,
                                xs: seq<T>, pen: Pen, rest: Bytes, n: int) {
    && xs != []
    && var behind := PutMany(put, after, xs[1..], after(xs[0], pen), rest);
       if |behind| < n then silent(xs[0], pen, behind, n) else SilentMany(put, after, silent, xs[1..], after(xs[0], pen), rest, n)
  }

  /** One item read from any of its cuts as it should makes any list of items so. */
  lemma {:induction false} ManyShort<T(!new)>(read: State -> Res<(T, State)>, put: (T, Pen, Bytes) -> Bytes,
      after: (T, Pen) -> Pen, silent: (T, Pen, Bytes, int) -> bool, fits: (T, Pen) -> bool,
      xs: seq<T>, acc: seq<T>, pen: Pen, rest: Bytes, n: nat)
    requires forall x, p, s, m: nat :: fits(x, p) && m <= |put(x, p, s)| ==>
      ShortRead(read(State(Short(put(x, p, s), m), p.refs)), x, after(x, p).refs, put(x, p, s), s, m, silent(x, p, s, m))
    requires FitMany(fits, after, xs, pen) && n <= |PutMany(put, after, xs, pen, rest)|
    ensures var s := PutMany(put, after, xs, pen, rest);
      ShortRead(ReadMany(read, |xs|, acc, State(Short(s, n), pen.refs)), acc + xs, AfterMany(after, xs, pen).refs, s, rest, n,
                SilentMany(put, after, silent, xs, pen, rest, n))
    decreases |xs|
  {
    if xs == [] {
      Seqs.NoneLeft(acc);
    } else {
      var x, pen1 := xs[0], after(xs[0], pen);
      var behind := PutMany(put, after, xs[1..], pen1, rest);
      assert ShortRead(read(State(Short(put(x, pen, behind), n), pen.refs)), x, pen1.refs, put(x, pen, behind), behind, n,
                       silent(x, pen, behind, n));
      ManyShort(read, put, after, silent, fits, xs[1..], acc + [x], pen1, rest, if n <= |behind| then n else 0);
      Seqs.Shift(acc, xs);
    }
  }

  /** An item with its round trip, its frame and its cuts. */
  lemma KeptRead<T>(read: State -> Res<(T, State)>, s: Bytes, refs: Refs, x: T, rest: Bytes, after: Refs, n: nat)
    requires read(State(s, refs)) == Ok((x, State(rest, after))) && n <= |rest|
    requires Framed(read, State(s, refs), Short(rest, n))
    ensures |rest| <= |s| && read(State(Short(s, n), refs)) == Ok((x, State(Short(rest, n), after)))
  {
    ShortBehind(s, rest, n);
  }

  lemma AddressCut(a: Address, pen: Pen, rest: Bytes, n: nat)
    requires n <= |PutAddress(a, pen, rest)|
    ensures var s := PutAddress(a, pen, rest);
      ShortRead(ReadAddress(State(Short(s, n), pen.refs)), a, PenAfter(a, pen).refs, s, rest, n, SilentAddress(a, pen, rest, n))
  {
    var s := PutAddress(a, pen, rest);
    AddressRoundTrip(a, pen, rest);
    AddressFrame(State(s, pen.refs), []);
    if |rest| < n {
      AddressShort(a, pen, rest, n);
    } else {
      AddressFrame(State(s, pen.refs), Short(rest, n));
      KeptRead(ReadAddress, s, pen.refs, a, rest, PenAfter(a, pen).refs, n);
    }
  }

  ghost predicate SilentAddresses(addrs: seq<Address>, pen: Pen, rest: Bytes, n: int) {
    SilentMany(PutAddress, PenAfter, SilentAddress, addrs, pen, rest, n)
  }

  lemma AddressesCut(addrs: seq<Address>, pen: Pen, rest: Bytes, n: nat)
    requires n <= |PutAddresses(addrs, pen, rest)|
    ensures var s := PutAddresses(addrs, pen, rest);
      ShortRead(ReadAddresses(|addrs|, State(Short(s, n), pen.refs)), addrs, PenAfterAll(addrs, pen).refs, s, rest, n,
                SilentAddresses(addrs, pen, rest, n))
  {
    var fits := (a: Address, p: Pen) => true;
    forall a, p, s, m: nat | m <= |PutAddress(a, p, s)|
      ensures ShortRead(ReadAddress(State(Short(PutAddress(a, p, s), m), p.refs)), a, PenAfter(a, p).refs,
                        PutAddress(a, p, s), s, m, SilentAddress(a, p, s, m))
    {
      AddressCut(a, p, s, m);
    }
    AllFit(fits, PenAfter, addrs, pen);
    ManyShort(ReadAddress, PutAddress, PenAfter, SilentAddress, fits, addrs, [], pen, rest, n);
    Seqs.NoneLeft(addrs);
  }

  // ---------- fields ----------

  /** The header of an extension is there and nothing of its data, which is not empty. */
  predicate SilentExtensions(exts: seq<Extension>, rest: Bytes, n: int) {
    && exts != []
    && var behind := PutExtensions(exts[1..], rest);
       if |behind| < n then |PutExtension(exts[0], behind)| - n == 4 else SilentExtensions(exts[1..], rest, n)
  }

  lemma ExtensionShort(e: Extension, rest: Bytes, n: nat)
    requires WellFormedExtension(e) && |rest| < n <= |PutExtension(e, rest)|
    ensures var s := PutExtension(e, rest); ReadExtension(Short(s, n)) == Err(Fault(|s| - n == 4))
  {
    var s := PutExtension(e, rest);
    var c := Short(s, n);
    ExtensionRoundTrip(e, rest);
    if |c| >= 2 {
      assert c[..2] == s[..2];
      assert ReadUint16(c) == Ok((e.length, c[2..]));
      if |c| >= 4 {
        assert c[2..][1..][1..] == c[4..];
      }
    }
  }

  lemma {:induction false} ExtensionsShort(i: uint16, length: uint16, exts: seq<Extension>, acc: seq<Extension>, rest: Bytes, n: nat)
    requires i + ExtensionsLength(exts) == length && forall e :: e in exts ==> WellFormedExtension(e)
    requires |rest| < n <= |PutExtensions(exts, rest)|
    ensures ReadExtensionsFrom(i, length, acc, Short(PutExtensions(exts, rest), n)) == Err(Fault(SilentExtensions(exts, rest, n)))
    decreases |exts|
  {
    var e, behind := exts[0], PutExtensions(exts[1..], rest);
    var s := PutExtension(e, behind);
    if |behind| < n {
      ExtensionShort(e, behind, n);
    } else {
      ExtensionRoundTrip(e, behind);
      ExtensionFrame(s, Short(behind, n));
      ShortBehind(s, behind, n);
      ExtensionsStep(i, length, acc, Short(s, n), e, Short(behind, n));
      ExtensionsShort(i + e.length + 4, length, exts[1..], acc + [e], rest, n);
    }
  }

  lemma ExtensionListShort(length: uint16, exts: seq<Extension>, rest: Bytes, n: nat)
    requires length == ExtensionsLength(exts) && forall e :: e in exts ==> WellFormedExtension(e)
    requires |rest| < n <= |PutUint16(length, PutExtensions(exts, rest))|
    ensures ReadExtensions(Short(PutUint16(length, PutExtensions(exts, rest)), n)) == Err(Fault(SilentExtensions(exts, rest, n)))
  {
    var behind := PutExtensions(exts, rest);
    var s := PutUint16(length, behind);
    if |behind| < n {
      ShortUint16(length, behind, n);
    } else {
      Uint16RoundTrip(length, behind);
      Uint16Frame(s, Short(behind, n));
      ShortBehind(s, behind, n);
      ExtensionsShort(0, length, exts, [], rest, n);
    }
  }

  /** Of a plain field: data of which nothing is there, or the extensions above. */
  predicate SilentPlain(k: Kind, v: Value, rest: Bytes, n: int) {
    match k
    case Data(_) => |PutPlain(k, v, rest)| == n
    case Extensions => v.Exts? && SilentExtensions(v.exts, rest, n)
    case _ => false
  }

  lemma DataShort(b: Bytes, rest: Bytes, n: nat)
    requires |rest| < n <= |b + rest|
    ensures ReadBytes(Short(b + rest, n), |b|) == Err(Fault(|b + rest| == n))
  {
  }

  lemma PlainShort(k: Kind, v: Value, fields: Fields, seen: Fields, rest: Bytes, n: nat)
    requires FitsPlain(k, v, fields) && !k.Ignored?
    requires k.Data? ==> DataLength(k.lengthFlag, seen) == DataLength(k.lengthFlag, fields)
    requires |rest| < n <= |PutPlain(k, v, rest)|
    ensures ReadPlain(k, seen, Short(PutPlain(k, v, rest), n)) == Err(Fault(SilentPlain(k, v, rest, n)))
  {
    match k
    case U8 => ShortOne(v.n as uint8, rest, n);
    case U16 => ShortUint16(v.n, rest, n);
    case U32 => ShortUint32(v.n, rest, n);
    case TimeVal => WordsNeed(Short(PutPlain(k, v, rest), n));
    case Micros => ShortUint32(v.sec * 1000000 + v.usec, rest, n);
    case Triple => WordsNeed(Short(PutPlain(k, v, rest), n));
    case Data(_) => DataShort(v.data, rest, n);
    case Extensions => ExtensionListShort(v.length, v.exts, rest, n);
  }

  ghost predicate SilentValue(k: Kind, v: Value, pen: Pen, rest: Bytes, n: int) {
    match (k, v)
    case (Reference, _) => false
    case (Ignored, _) => false
    case (Addr, At(a)) => SilentAddress(a, pen, rest, n)
    case (AddrList, AtAll(addrs)) => SilentAddresses(addrs, pen, rest, n)
    case (Stamps, Stamped(addrs, _)) => SilentAddresses(addrs, pen, rest, n)
    case _ => SilentPlain(k, v, rest, n)
  }

  lemma NotSilentBefore(addrs: seq<Address>, pen: Pen, rest: Bytes, n: int)
    requires |PutAddresses(addrs, pen, rest)| < n
    ensures !SilentAddresses(addrs, pen, rest, n)
  {
  }

  lemma ReadsCount(seen: Fields, k: uint8, st: State, refs: Refs)
    ensures ReadValue(AddrList, seen, State([k] + st.rest, refs))
         == var r := ReadAddresses(k as nat, State(st.rest, refs));
            if r.Err? then Err(r.error) else Ok((AtAll(r.value.0), r.value.1))
  {
    Seqs.Cons(k, st.rest);
  }

  lemma AddrListShort(addrs: seq<Address>, seen: Fields, pen: Pen, rest: Bytes, n: nat)
    requires |addrs| < 0x100 && |rest| < n <= |PutValue(AddrList, AtAll(addrs), pen, rest)|
    ensures ReadValue(AddrList, seen, State(Short(PutValue(AddrList, AtAll(addrs), pen, rest), n), pen.refs))
         == Err(Fault(SilentAddresses(addrs, pen, rest, n)))
  {
    var behind := PutAddresses(addrs, pen, rest);
    var count := ToUint8(|addrs|);
    if |behind| < n {
      ShortOne(count, behind, n);
      NotSilentBefore(addrs, pen, rest, n);
    } else {
      ShortPlus([count], behind, n);
      ReadsCount(seen, count, State(Short(behind, n), pen.refs), pen.refs);
      AddressesCut(addrs, pen, rest, n);
    }
  }

  lemma StampsShort(addrs: seq<Address>, times: seq<uint32>, pen: Pen, rest: Bytes, n: nat)
    requires |addrs| < 0x100 && |times| < 0x100 && |rest| < n <= |PutStamps(addrs, times, pen, rest)|
    ensures ReadStamps(State(Short(PutStamps(addrs, times, pen, rest), n), pen.refs))
         == Err(Fault(SilentAddresses(addrs, pen, rest, n)))
  {
    var behind := PutAddresses(addrs, pen, rest);
    var words := PutUint32s(times, behind);
    var t, a := ToUint8(|times|), ToUint8(|addrs|);
    Uint32sSize(times, behind);
    if |behind| < n {
      NotSilentBefore(addrs, pen, rest, n);
      if |words| < n {
        CountsShort(t, a, words, n);
      } else {
        ShortPlus([t] + [a], words, n);
        Counts(t, a, words, Short(words, n), n);
        Uint32sNeed(|times|, [], Short(words, n));
      }
    } else {
      Counts(t, a, words, Short(words, n), n);
      Uint32sRoundTrip(times, [], behind);
      Seqs.NoneLeft(times);
      Uint32sFrame(|times|, [], words, Short(behind, n));
      ShortBehind(words, behind, n);
      AddressesCut(addrs, pen, rest, n);
    }
  }

  lemma Counts(t: uint8, a: uint8, words: Bytes, short: Bytes, n: nat)
    requires n <= |words| && short == Short(words, n)
    ensures var c := Short([t] + ([a] + words), n);
      ReadUint8(c) == Ok((t, [a] + short)) && ReadUint8([a] + short) == Ok((a, short))
  {
    var c := Short([t] + ([a] + words), n);
    assert c == [t] + ([a] + short);
    Seqs.Cons(t, [a] + short);
    Seqs.Cons(a, short);
  }

  lemma CountsShort(t: uint8, a: uint8, words: Bytes, n: nat)
    requires |words| < n <= |words| + 2
    ensures var c := Short([t] + ([a] + words), n);
      c == [] || (ReadUint8(c) == Ok((t, [])) && ReadUint8([]) == Err(Malformed))
  {
    var c := Short([t] + ([a] + words), n);
    if c != [] {
      assert c == [t] && c[1..] == [];
    }
  }

  lemma IgnoredShort(a: uint32, b: uint32, rest: Bytes, n: nat)
    requires |rest| < n <= |PutUint32(a, PutUint32(b, rest))|
    ensures ReadTimeVal(Short(PutUint32(a, PutUint32(b, rest)), n)) == Err(Malformed)
  {
    WordsNeed(Short(PutUint32(a, PutUint32(b, rest)), n));
  }

  /** A cut within one field. */
  lemma ValueShort(k: Kind, v: Value, fields: Fields, seen: Fields, pen: Pen, rest: Bytes, n: nat)
    requires Fits(k, v, fields, pen)
    requires k.Data? ==> DataLength(k.lengthFlag, seen) == DataLength(k.lengthFlag, fields)
    requires |rest| < n <= |PutValue(k, v, pen, rest)|
    ensures ReadValue(k, seen, State(Short(PutValue(k, v, pen, rest), n), pen.refs)) == Err(Fault(SilentValue(k, v, pen, rest, n)))
  {
    match k
    case Reference => ShortUint32(RefTo(v.a, pen), rest, n);
    case Addr => AddressShort(v.a, pen, rest, n);
    case AddrList => AddrListShort(v.addrs, seen, pen, rest, n);
    case Stamps => StampsShort(v.addrs, v.times, pen, rest, n);
    case Ignored => IgnoredShort(pen.Next().number, pen.Next().other, rest, n);
    case _ => PlainShort(k, v, fields, seen, rest, n);
  }

  /** One field from any cut. */
  lemma ValueCut(k: Kind, v: Value, fields: Fields, seen: Fields, pen: Pen, rest: Bytes, n: nat)
    requires Fits(k, v, fields, pen)
    requires k.Data? ==> DataLength(k.lengthFlag, seen) == DataLength(k.lengthFlag, fields)
    requires n <= |PutValue(k, v, pen, rest)|
    ensures var s := PutValue(k, v, pen, rest);
      ShortRead(ReadValue(k, seen, State(Short(s, n), pen.refs)), v, PenAfterValue(k, v, pen).refs, s, rest, n,
                SilentValue(k, v, pen, rest, n))
  {
    var s := PutValue(k, v, pen, rest);
    ValueRoundTrip(k, v, fields, seen, pen, rest);
    if |rest| < n {
      ValueFrame(k, seen, State(s, pen.refs), []);
      ValueShort(k, v, fields, seen, pen, rest, n);
    } else {
      ValueFrame(k, seen, State(s, pen.refs), Short(rest, n));
      ShortBehind(s, rest, n);
    }
  }

  ghost predicate SilentFields(t: Table, flags: seq<nat>, fields: Fields, pen: Pen, rest: Bytes, n: int) {
    && flags != [] && t(flags[0]).Some? && flags[0] in fields
    && var (k, v) := (t(flags[0]).value, fields[flags[0]]);
       var behind := PutFields(t, flags[1..], fields, PenAfterValue(k, v, pen), rest);
       if |behind| < n then SilentValue(k, v, pen, behind, n)
       else SilentFields(t, flags[1..], fields, PenAfterValue(k, v, pen), rest, n)
  }

  lemma {:induction false} FieldsShort(t: Table, flags: seq<nat>, fields: Fields, seen: Fields, pen: Pen, rest: Bytes, n: nat)
    requires FieldsFit(t, flags, fields, pen) && SeenBefore(flags, fields, seen) && LengthsFirst(t)
    requires |rest| < n <= |PutFields(t, flags, fields, pen, rest)|
    ensures ReadFields(t, flags, seen, State(Short(PutFields(t, flags, fields, pen, rest), n), pen.refs))
         == Err(Fault(SilentFields(t, flags, fields, pen, rest, n)))
    decreases |flags|
  {
    var f := flags[0];
    var k, v := t(f).value, fields[f];
    var pen1 := PenAfterValue(k, v, pen);
    var behind := PutFields(t, flags[1..], fields, pen1, rest);
    if k.Data? {
      LengthSeen(flags, fields, seen, k.lengthFlag);
    }
    ValueCut(k, v, fields, seen, pen, behind, n);
    if |behind| >= n {
      SeenNext(flags, fields, seen);
      FieldsShort(t, flags[1..], fields, seen[f := v], pen1, rest, n);
    }
  }

  // ---------- structures ----------

  lemma {:induction false} FrontOfBitmap(b: Bytes, m: nat)
    requires IsBitmap(b) && m < |b|
    ensures !IsBitmap(b[..m])
    decreases m
  {
    if 0 < m && IsSet(b[0] as nat, 8) {
      FrontOfBitmap(b[1..], m - 1);
      assert b[..m][1..] == b[1..][..m - 1];
    }
  }

  /** A bitmap without its end is silent, whatever is missing. */
  lemma BitmapShort(b: Bytes, m: nat)
    requires IsBitmap(b) && m < |b|
    ensures ReadBitmap(b[..m]) == Err(Eof)
  {
    var c := b[..m];
    if c != [] {
      GetFlagsFails(c[0], 1, [], c[1..]);
      forall i | 0 <= i <= |c[1..]| ensures !IsBitmap([c[0]] + c[1..][..i]) {
        assert [c[0]] + c[1..][..i] == b[..i + 1];
        FrontOfBitmap(b, i + 1);
      }
    }
  }

  lemma BitmapForIs(flags: seq<nat>, keys: set<nat>, choice: Bytes)
    ensures IsBitmap(BitmapFor(flags, keys, choice))
  {
    BitmapPositions(keys, 0, Span(keys, 34));
  }

  /** The end of the bitmap is missing: more than the body and the parameter length. */
  predicate SilentFront(flags: seq<nat>, body: Bytes, n: int) {
    |body| + (if flags == [] then 0 else 2) < n
  }

  lemma FrontShort(flags: seq<nat>, keys: set<nat>, choice: Bytes, k: uint16, body: Bytes, n: nat)
    requires SmallFlags(keys) && flags == FlagsOf(keys)
    requires |body| < n <= |PutFront(flags, keys, choice, k, body)|
    ensures ReadFront(Short(PutFront(flags, keys, choice, k, body), n)) == Err(Fault(SilentFront(flags, body, n)))
  {
    var b := BitmapFor(flags, keys, choice);
    var tail := if flags == [] then body else PutUint16(k, body);
    BitmapForIs(flags, keys, choice);
    if |tail| < n {
      assert Short(b + tail, n) == b[..|b| + |tail| - n];
      BitmapShort(b, |b| + |tail| - n);
    } else {
      ShortPlus(b, tail, n);
      FrontBitmap(flags, keys, choice, Short(tail, n));
      ShortUint16(k, body, n);
    }
  }

  ghost predicate SilentStruct(t: Table, x: Struct, pen: Pen, rest: Bytes, n: int) {
    var pen1 := pen.Then(pen.refs);
    var body := PutFields(t, x.flags, x.fields, pen1, rest);
    if |body| < n then SilentFront(x.flags, body, n)
    else SilentFields(t, x.flags, x.fields, pen1, rest, n)
  }

  lemma StructShort(t: Table, x: Struct, pen: Pen, rest: Bytes, n: nat)
    requires StructFits(t, x, pen) && LengthsFirst(t) && |rest| < n <= |PutStruct(t, x, pen, rest)|
    ensures ReadStruct(t, State(Short(PutStruct(t, x, pen, rest), n), pen.refs)) == Err(Fault(SilentStruct(t, x, pen, rest, n)))
  {
    var pen1 := pen.Then(pen.refs);
    var k := pen.Length(|PutFields(t, x.flags, x.fields, pen1, [])|) % 0x1_0000;
    var body := PutFields(t, x.flags, x.fields, pen1, rest);
    var s := PutFront(x.flags, x.fields.Keys, pen.Next().bytes, k, body);
    if |body| < n {
      FrontShort(x.flags, x.fields.Keys, pen.Next().bytes, k, body, n);
    } else {
      FrontRoundTrip(x.flags, x.fields.Keys, pen.Next().bytes, k, body);
      FrontFrame(s, Short(body, n));
      ShortBehind(s, body, n);
      FlagsAreKeys(x.fields.Keys);
      FieldsShort(t, x.flags, x.fields, map[], pen1, rest, n);
    }
  }

  lemma StructCut(t: Table, x: Struct, pen: Pen, rest: Bytes, n: nat)
    requires StructFits(t, x, pen) && LengthsFirst(t) && n <= |PutStruct(t, x, pen, rest)|
    ensures var s := PutStruct(t, x, pen, rest);
      ShortRead(ReadStruct(t, State(Short(s, n), pen.refs)), x, PenAfterStruct(t, x, pen).refs, s, rest, n,
                SilentStruct(t, x, pen, rest, n))
  {
    var s := PutStruct(t, x, pen, rest);
    StructRoundTrip(t, x, pen, rest);
    if |rest| < n {
      StructFrame(t, State(s, pen.refs), []);
      StructShort(t, x, pen, rest, n);
    } else {
      StructFrame(t, State(s, pen.refs), Short(rest, n));
      ShortBehind(s, rest, n);
    }
  }

  ghost predicate SilentStructs(t: Table, xs: seq<Struct>, pen: Pen, rest: Bytes, n: int) {
    SilentMany((x: Struct, p: Pen, s: Bytes) => PutStruct(t, x, p, s), (x: Struct, p: Pen) => PenAfterStruct(t, x, p),
               (x: Struct, p: Pen, s: Bytes, m: int) => SilentStruct(t, x, p, s, m), xs, pen, rest, n)
  }

  lemma StructsCut(t: Table, xs: seq<Struct>, pen: Pen, rest: Bytes, n: nat)
    requires StructsFit(t, xs, pen) && LengthsFirst(t) && n <= |PutStructs(t, xs, pen, rest)|
    ensures var s := PutStructs(t, xs, pen, rest);
      ShortRead(ReadStructs(t, |xs|, State(Short(s, n), pen.refs)), xs, PenAfterStructs(t, xs, pen).refs, s, rest, n,
                SilentStructs(t, xs, pen, rest, n))
  {
    var read := (st': State) => ReadStruct(t, st');
    var put := (x: Struct, p: Pen, s: Bytes) => PutStruct(t, x, p, s);
    var after := (x: Struct, p: Pen) => PenAfterStruct(t, x, p);
    var silent := (x: Struct, p: Pen, s: Bytes, m: int) => SilentStruct(t, x, p, s, m);
    var fits := (x: Struct, p: Pen) => StructFits(t, x, p);
    forall x, p, s, m: nat | fits(x, p) && m <= |put(x, p, s)|
      ensures ShortRead(read(State(Short(put(x, p, s), m), p.refs)), x, after(x, p).refs, put(x, p, s), s, m, silent(x, p, s, m))
    {
      StructCut(t, x, p, s, m);
    }
    ManyShort(read, put, after, silent, fits, xs, [], pen, rest, n);
    Seqs.NoneLeft(xs);
  }

  /** The flags of a ping or traceroute, the count behind them, and the counted structures. */
  ghost predicate SilentItems(t: Table, x: Struct, u: Table, xs: seq<Struct>, pen: Pen, rest: Bytes, n: int) {
    var pen1 := PenAfterStruct(t, x, pen);
    var structs := PutStructs(u, xs, pen1, rest);
    var counted := PutUint16(ToUint16(|xs|), structs);
    if |counted| < n then SilentStruct(t, x, pen, counted, n)
    else |structs| >= n && SilentStructs(u, xs, pen1, rest, n)
  }

  lemma CountedShort(u: Table, xs: seq<Struct>, pen: Pen, rest: Bytes, n: nat)
    requires |xs| < 0x1_0000 && StructsFit(u, xs, pen) && LengthsFirst(u)
    requires |rest| < n <= |PutUint16(|xs|, PutStructs(u, xs, pen, rest))|
    ensures ReadCounted(u, State(Short(PutUint16(|xs|, PutStructs(u, xs, pen, rest)), n), pen.refs))
         == Err(Fault(|PutStructs(u, xs, pen, rest)| >= n && SilentStructs(u, xs, pen, rest, n)))
  {
    var structs := PutStructs(u, xs, pen, rest);
    var s := PutUint16(|xs|, structs);
    if |structs| < n {
      ShortUint16(|xs|, structs, n);
    } else {
      Uint16RoundTrip(|xs|, structs);
      Uint16Frame(s, Short(structs, n));
      ShortBehind(s, structs, n);
      StructsCut(u, xs, pen, rest, n);
    }
  }

  lemma ItemsShort(t: Table, x: Struct, u: Table, xs: seq<Struct>, pen: Pen, rest: Bytes, n: nat)
    requires ItemsFit(t, x, u, xs, pen) && LengthsFirst(t) && LengthsFirst(u)
    requires |rest| < n <= |PutItems(t, x, u, xs, pen, rest)|
    ensures ReadItems(ReadStruct(t, State(Short(PutItems(t, x, u, xs, pen, rest), n), pen.refs)), u)
         == Err(Fault(SilentItems(t, x, u, xs, pen, rest, n)))
  {
    var pen1 := PenAfterStruct(t, x, pen);
    var counted := PutUint16(|xs|, PutStructs(u, xs, pen1, rest));
    StructCut(t, x, pen, counted, n);
    if |counted| >= n {
      CountedShort(u, xs, pen1, rest, n);
    }
  }

  // ---------- records ----------

  /** Of the body of a list: its start is missing, or the end of its name. */
  predicate SilentList(r: Record, m: int)
    requires r.List?
  {
    m == 0 || 8 <= m <= 8 + |r.name|
  }

  lemma ListFlagsFault(s: Bytes)
    ensures ReadListFlags(s).Err? ==> ReadListFlags(s) == Err(Malformed)
  {
  }

  lemma ListShort(r: Record, pen: Pen, rest: Bytes, n: nat)
    requires r.List? && ZeroFree(r.name) && n <= |PutBody(r, pen, rest)|
    requires ReadList(Short(PutBody(r, pen, rest), n)).Err?
    ensures ReadList(Short(PutBody(r, pen, rest), n)) == Err(Fault(SilentList(r, |PutBody(r, pen, rest)| - n)))
  {
    var s := PutBody(r, pen, rest);
    var c := Short(s, n);
    BodyIds(r, pen, rest);
    if |c| >= 8 {
      var f := PutListFlags(ListFlag(r, pen.Next()), r.pLength, r.description, r.monitor, rest);
      ShortDrop(s, 8, n);
      StringReadIff(c[8..], s[|s| - n..], r.name, f);
      GetStringExact(c[8..], []);
      if GetString(c[8..], []).Ok? {
        ListFlagsFault(GetString(c[8..], []).value.1);
      }
    }
  }

  /** Of the body of a cycle start: all is missing, or the end of a host name. */
  predicate SilentCycle(flag: uint8, m: int) {
    m == 0 || (IsSet(flag as nat, 2) && 16 + 3 + (if IsSet(flag as nat, 1) then 4 else 0) <= m)
  }

  lemma HostShort(present: bool, host: Bytes, rest: Bytes, n: nat)
    requires ZeroFree(host) && |rest| < n <= |PutStringIf(present, host, rest)|
    ensures present && StringIf(present, Short(PutStringIf(present, host, rest), n)) == Err(Eof)
  {
    var s := PutStringIf(present, host, rest);
    ShortDrop(s, 0, n);
    assert s[0..] == s;
    StringReadIff(Short(s, n), s[|s| - n..], host, rest);
    GetStringExact(Short(s, n), []);
  }

  /** Behind the length: the stop time and the host name. */
  lemma StopAndHostShort(d: bool, m: bool, stop: uint32, host: Bytes, rest: Bytes, n: nat)
    requires ZeroFree(host)
    requires var h := PutStringIf(m, host, rest); |rest| < n <= |if d then PutUint32(stop, h) else h|
    ensures var h := PutStringIf(m, host, rest);
      var s := if d then PutUint32(stop, h) else h;
      var c := Short(s, n);
      if Uint32If(d, c).Err? then Uint32If(d, c) == Err(Malformed) && d && |c| < 4
      else m && (d ==> |c| >= 4) && StringIf(m, Uint32If(d, c).value.1) == Err(Eof)
  {
    var h := PutStringIf(m, host, rest);
    if !d {
      HostShort(m, host, rest, n);
    } else if |h| < n {
      ShortUint32(stop, h, n);
    } else {
      Uint32RoundTrip(stop, h);
      Uint32Frame(PutUint32(stop, h), Short(h, n));
      ShortBehind(PutUint32(stop, h), h, n);
      HostShort(m, host, rest, n);
    }
  }

  lemma CycleFlagsShort(flag: uint8, pLength: uint16, stop: uint32, host: Bytes, rest: Bytes, n: nat)
    requires ZeroFree(host) && |rest| < n <= |PutCycleStartFlags(flag, pLength, stop, host, rest)|
    ensures var s := PutCycleStartFlags(flag, pLength, stop, host, rest);
      ReadCycleStartFlags(Short(s, n))
      == Err(Fault(IsSet(flag as nat, 2) && 3 + (if IsSet(flag as nat, 1) then 4 else 0) <= |s| - n))
  {
    var s := PutCycleStartFlags(flag, pLength, stop, host, rest);
    var c := Short(s, n);
    if c != [] {
      var d, m := IsSet(flag as nat, 1), IsSet(flag as nat, 2);
      var h := PutStringIf(m, host, rest);
      var b := if d then PutUint32(stop, h) else h;
      assert s == [flag] + PutUint16(pLength, b);
      ShortPlus([flag], PutUint16(pLength, b), n);
      Seqs.Cons(flag, Short(PutUint16(pLength, b), n));
      if |b| < n {
        ShortUint16(pLength, b, n);
      } else {
        Uint16RoundTrip(pLength, b);
        Uint16Frame(PutUint16(pLength, b), Short(b, n));
        ShortBehind(PutUint16(pLength, b), b, n);
        StopAndHostShort(d, m, stop, host, rest, n);
      }
    }
  }

  lemma CycleShort(r: Record, pen: Pen, rest: Bytes, n: nat)
    requires r.CycleStart? && ZeroFree(r.hostname) && |rest| < n <= |PutBody(r, pen, rest)|
    ensures ReadCycle(Short(PutBody(r, pen, rest), n))
         == Err(Fault(SilentCycle(CycleFlag(r, pen.Next()), |PutBody(r, pen, rest)| - n)))
  {
    var flag := CycleFlag(r, pen.Next());
    var f := PutCycleStartFlags(flag, r.pLength, r.stopTime, r.hostname, rest);
    var s := PutBody(r, pen, rest);
    var c := Short(s, n);
    FourWords(r.cycleId, r.listOfCycle, r.cCycleId, r.startTime, f);
    if |c| >= 16 {
      ShortDrop(s, 16, n);
      CycleFlagsShort(flag, r.pLength, r.stopTime, r.hostname, rest, n);
    }
  }

  lemma CycleStopShort(r: Record, pen: Pen, rest: Bytes, n: nat)
    requires r.CycleStop? && |rest| < n <= |PutBody(r, pen, rest)|
    ensures var m := |PutBody(r, pen, rest)| - n;
      ReadCycleStop(Short(PutBody(r, pen, rest), n)) == Err(Fault(m == 0 || m == 8))
  {
  }

  lemma PingShort(r: Record, plan: Plan, rest: Bytes, n: nat)
    requires r.Ping? && WellFormed(r, plan) && |rest| < n <= |PutBody(r, BodyPen(plan), rest)|
    ensures ReadPing(Short(PutBody(r, BodyPen(plan), rest), n))
         == Err(Fault(SilentItems(PingFields, r.pingFlags, PingReplyFields, r.replies, BodyPen(plan), rest, n)))
  {
    TablesInOrder();
    ItemsShort(PingFields, r.pingFlags, PingReplyFields, r.replies, BodyPen(plan), rest, n);
  }

  /** A traceroute reports an error of its own when its body is missing as a whole, or part of its end word is. */
  ghost predicate SilentTraceroute(r: Record, pen: Pen, rest: Bytes, n: int)
    requires r.Traceroute?
  {
    var end := PutUint16(pen.Next().number % 0x1_0000, rest);
    |end| < n < |PutBody(r, pen, rest)| && SilentItems(TracerouteFields, r.traceFlags, HopFields, r.hops, pen, end, n)
  }

  lemma TracerouteShort(r: Record, plan: Plan, rest: Bytes, n: nat)
    requires r.Traceroute? && WellFormed(r, plan) && |rest| < n <= |PutBody(r, BodyPen(plan), rest)|
    ensures ReadTraceroute(Short(PutBody(r, BodyPen(plan), rest), n)) == Err(Fault(SilentTraceroute(r, BodyPen(plan), rest, n)))
  {
    var pen := BodyPen(plan);
    var k: uint16 := pen.Next().number % 0x1_0000;
    var end := PutUint16(k, rest);
    var s := PutBody(r, pen, rest);
    TablesInOrder();
    if |end| < n {
      ItemsShort(TracerouteFields, r.traceFlags, HopFields, r.hops, pen, end, n);
    } else {
      ItemsRoundTrip(TracerouteFields, r.traceFlags, HopFields, r.hops, pen, end);
      ItemsFrame(TracerouteFields, HopFields, State(s, NEW_REFS), Short(end, n));
      ShortBehind(s, end, n);
      ShortUint16(k, rest, n);
    }
  }

  /** The n bytes missing from a record leave its body to end silently. */
  ghost predicate SilentBody(r: Record, pen: Pen, rest: Bytes, n: int) {
    var m := |PutBody(r, pen, rest)| - n;
    match r
    case List(_, _, _, _, _, _) => SilentList(r, m)
    case CycleStart(_, _, _, _, _, _, _) => SilentCycle(CycleFlag(r, pen.Next()), m)
    case CycleStop(_, _) => m == 0 || m == 8
    case Ping(flags, replies) => SilentItems(PingFields, flags, PingReplyFields, replies, pen, rest, n)
    case Traceroute(_, _) => SilentTraceroute(r, pen, rest, n)
    case Header(_, _) => false
  }

  /** A record of which nothing is there ends the parse silently, part of a header does not, and behind the header it
      is up to the body. */
  ghost predicate SilentRecord(r: Record, plan: Plan, rest: Bytes, n: int) {
    var m := |PutRecord(r, plan, rest)| - n;
    m == 0 || (8 <= m && SilentBody(r, BodyPen(plan), rest, n))
  }

  lemma ListBodyShort(r: Record, plan: Plan, rest: Bytes, n: nat)
    requires r.List? && WellFormed(r, plan) && |rest| < n <= |PutBody(r, BodyPen(plan), rest)|
    ensures var x := ReadList(Short(PutBody(r, BodyPen(plan), rest), n));
      x.Err? ==> x == Err(Fault(SilentBody(r, BodyPen(plan), rest, n)))
  {
    if ReadList(Short(PutBody(r, BodyPen(plan), rest), n)).Err? {
      ListShort(r, BodyPen(plan), rest, n);
    }
  }

  /** What every body reader reports on a body cut off. */
  lemma BodyShort(r: Record, plan: Plan, rest: Bytes, n: nat, c: Bytes, fault: Error)
    requires WellFormed(r, plan) && |rest| < n <= |PutBody(r, BodyPen(plan), rest)|
    requires c == Short(PutBody(r, BodyPen(plan), rest), n) && fault == Fault(SilentBody(r, BodyPen(plan), rest, n))
    ensures r.List? && ReadList(c).Err? ==> ReadList(c) == Err(fault)
    ensures r.CycleStart? ==> ReadCycle(c) == Err(fault)
    ensures r.CycleStop? ==> ReadCycleStop(c) == Err(fault)
    ensures r.Ping? ==> ReadPing(c) == Err(fault)
    ensures r.Traceroute? ==> ReadTraceroute(c) == Err(fault)
  {
    if r.List? { ListBodyShort(r, plan, rest, n); }
    if r.CycleStart? { CycleShort(r, BodyPen(plan), rest, n); }
    if r.CycleStop? { CycleStopShort(r, BodyPen(plan), rest, n); }
    if r.Ping? { PingShort(r, plan, rest, n); }
    if r.Traceroute? { TracerouteShort(r, plan, rest, n); }
  }

  lemma HeaderShort(typ: uint16, length: uint32, b: Bytes, n: nat)
    requires n <= |PutHeader(typ, length, b)|
    ensures var s := PutHeader(typ, length, b);
      if |b| < n then ReadHeader(Short(s, n)) == Err(Fault(|s| == n))
      else ReadHeader(Short(s, n)) == Ok((Header(typ, length), Short(b, n))) && |s| == 8 + |b|
  {
    var s := PutHeader(typ, length, b);
    HeaderRoundTrip(typ, length, b);
    if |b| >= n {
      HeaderFrame(s, Short(b, n));
      ShortBehind(s, b, n);
    }
  }

  lemma BehindHeaderShort(r: Record, typ: uint16, s: Bytes, length: uint32, c: Bytes, fault: Error)
    requires !r.Header? && (typ == TypeOf(r) || (r.CycleStart? && typ == 3)) && ReadHeader(s) == Ok((Header(typ, length), c))
    requires r.List? && ReadList(c).Err? ==> ReadList(c) == Err(fault)
    requires r.CycleStart? ==> ReadCycle(c) == Err(fault)
    requires r.CycleStop? ==> ReadCycleStop(c) == Err(fault)
    requires r.Ping? ==> ReadPing(c) == Err(fault)
    requires r.Traceroute? ==> ReadTraceroute(c) == Err(fault)
    ensures ReadRecord(s).Err? ==> ReadRecord(s) == Err(fault)
  {
  }

  /** A record that is cut off, and is not a list read without its strings, is reported as io.EOF exactly when the cut
      is silent. */
  lemma RecordShort(r: Record, plan: Plan, rest: Bytes, n: nat)
    requires WellFormed(r, plan) && |rest| < n <= |PutRecord(r, plan, rest)|
    ensures var x := ReadRecord(Short(PutRecord(r, plan, rest), n));
      x.Err? ==> x == Err(Fault(SilentRecord(r, plan, rest, n)))
  {
    var body := PutBody(r, BodyPen(plan), rest);
    var s := PutRecord(r, plan, rest);
    HeaderShort(WrittenType(r, plan), WrittenLength(r, plan), body, n);
    if n <= |body| {
      var fault := Fault(SilentBody(r, BodyPen(plan), rest, n));
      BodyShort(r, plan, rest, n, Short(body, n), fault);
      BehindHeaderShort(r, WrittenType(r, plan), Short(s, n), WrittenLength(r, plan), Short(body, n), fault);
    }
  }
}
