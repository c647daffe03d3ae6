/** The readers as the package has them: methods that consume a buffer and fill an address table, each shown to
    return what the reading functions say and to leave the buffer and the table as they say. */
module WartsReader {
  import Seqs
  import opened Common
  import opened WartsWire
  import opened WartsFlags
  import opened WartsAddress
  import opened WartsFields
  import R = WartsRecords

  /** A method result agrees with the reading function: same value and same bytes left, or the same error. */
  ghost predicate Agrees<T>(r: Res<T>, spec: Res<(T, Bytes)>, rest: Bytes) {
    match spec
    case Ok((v, s)) => r == Ok(v) && rest == s
    case Err(e) => r == Err(e)
  }

  ghost predicate AgreesWithRefs<T>(r: Res<T>, spec: Res<(T, State)>, st: State) {
    match spec
    case Ok((v, s)) => r == Ok(v) && st == s
    case Err(e) => r == Err(e)
  }

  /** bytes.Buffer, as far as the readers use it. */
  class Buffer {
    const data: Bytes
    var off: nat

    ghost predicate Valid()
      reads this
    {
      off <= |data|
    }

    ghost function Rest(): Bytes
      requires Valid()
      reads this
    {
      data[off..]
    }

    constructor (data: Bytes)
      ensures Valid() && this.data == data && Rest() == data
    {
      this.data := data;
      off := 0;
    }

    /** Read into n bytes: as many of them as there are, and io.EOF when n > 0 and nothing is left. */
    method Read(n: nat) returns (b: Bytes, eof: bool)
      requires Valid()
      modifies this
      ensures Valid()
      ensures eof <==> n > 0 && old(Rest()) == []
      ensures b + Rest() == old(Rest())
      ensures |b| == if n <= |old(Rest())| then n else |old(Rest())|
    {
      eof := n > 0 && off == |data|;
      var m := if n <= |data| - off then n else |data| - off;
      b := data[off..off + m];
      off := off + m;
    }
  }

  /** AddressRefs */
  class AddressRefs {
    var id: uint32
    var addrs: map<uint32, Address>

    ghost function Value(): Refs
      reads this
    {
      Refs(id, addrs)
    }

    constructor ()
      ensures Value() == NEW_REFS
    {
      id := 0;
      addrs := map[];
    }

    method Add(a: Address)
      modifies this
      ensures Value() == old(Value()).Add(a)
    {
      var i := id;
      id := (id + 1) % 0x1_0000_0000;
      addrs := addrs[i := a];
    }

    method Get(i: uint32) returns (a: Address)
      ensures a == Value().Get(i)
    {
      a := if i in addrs then addrs[i] else NO_ADDRESS;
    }
  }

  ghost function At(f: Buffer, refs: AddressRefs): State
    requires f.Valid()
    reads f, refs
  {
    State(f.Rest(), refs.Value())
  }

  method ReadBytesFrom(f: Buffer, n: nat) returns (r: Res<Bytes>)
    requires f.Valid()
    modifies f
    ensures f.Valid() && Agrees(r, ReadBytes(old(f.Rest()), n), f.Rest())
  {
    var b, eof := f.Read(n);
    Seqs.Front(b, f.Rest());
    r := if eof then Err(Eof) else if |b| != n then Err(Malformed) else Ok(b);
  }

  method ReadOneFrom(f: Buffer) returns (r: Res<uint8>)
    requires f.Valid()
    modifies f
    ensures f.Valid() && Agrees(r, ReadOne(old(f.Rest())), f.Rest())
    ensures r.Err? ==> f.Rest() == []
  {
    var b, eof := f.Read(1);
    Seqs.Front(b, f.Rest());
    r := if eof then Err(Eof) else Ok(b[0]);
  }

  method ReadUint8From(f: Buffer) returns (r: Res<uint8>)
    requires f.Valid()
    modifies f
    ensures f.Valid() && Agrees(r, ReadUint8(old(f.Rest())), f.Rest())
  {
    r := ReadOneFrom(f);
    r := Wrapped(r);
  }

  method ReadUint16From(f: Buffer) returns (r: Res<uint16>)
    requires f.Valid()
    modifies f
    ensures f.Valid() && Agrees(r, ReadUint16(old(f.Rest())), f.Rest())
  {
    var b := ReadBytesFrom(f, 2);
    r := if b.Err? then Err(Malformed) else Ok(GetUint16(b.value));
  }

  method ReadUint32From(f: Buffer) returns (r: Res<uint32>)
    requires f.Valid()
    modifies f
    ensures f.Valid() && Agrees(r, ReadUint32(old(f.Rest())), f.Rest())
  {
    var b := ReadBytesFrom(f, 4);
    r := if b.Err? then Err(Malformed) else Ok(GetUint32(b.value));
  }

  method ReadTimeValFrom(f: Buffer) returns (r: Res<(uint32, int)>)
    requires f.Valid()
    modifies f
    ensures f.Valid() && Agrees(r, ReadTimeVal(old(f.Rest())), f.Rest())
  {
    var sec := ReadUint32From(f);
    if sec.Err? { return Err(sec.error); }
    var usec := ReadUint32From(f);
    if usec.Err? { return Err(usec.error); }
    r := Ok((sec.value, AsInt32(usec.value)));
  }

  method GetStringFrom(f: Buffer) returns (r: Res<Bytes>)
    requires f.Valid()
    modifies f
    ensures f.Valid() && Agrees(r, GetString(old(f.Rest()), []), f.Rest())
    ensures r.Err? ==> f.Rest() == []
  {
    var buf: Bytes := [];
    while true
      invariant f.Valid() && GetString(f.Rest(), buf) == GetString(old(f.Rest()), [])
      decreases |f.data| - f.off
    {
      ghost var before := f.Rest();
      var b := ReadOneFrom(f);
      if b.Err? { return Err(b.error); }
      if b.value == 0 { return Ok(buf); }
      buf := buf + [b.value];
    }
  }

  /** The byte counter of getFlags has eight bits; the flag numbers are the same as with an unbounded one. */
  lemma CounterWraps(n: nat, i: nat)
    ensures (7 * (n % 0x100 - 1) + i) % 0x100 == (7 * (n - 1) + i) % 0x100
  {
    var q := n / 0x100;
    assert 7 * (n - 1) + i == 7 * (n % 0x100 - 1) + i + (7 * q) * 0x100;
    assert forall x: int :: (x + (7 * q) * 0x100) % 0x100 == x % 0x100;
  }

  /** The inner loop of getFlags; `n` is the byte number that `byteNum` holds in eight bits. */
  method AppendBits(check: uint8, byteNum: nat, ret: seq<nat>, ghost n: nat) returns (out: seq<nat>)
    requires 1 <= n && byteNum == n % 0x100
    ensures out == ret + BitsFrom(check as nat, n, 1)
  {
    out := ret;
    var i := 1;
    while i < 8
      invariant 1 <= i <= 8
      invariant out + BitsFrom(check as nat, n, i) == ret + BitsFrom(check as nat, n, 1)
    {
      CounterWraps(n, i);
      ghost var before := out;
      if IsSet(check as nat, i) {
        out := out + [(7 * (byteNum - 1) + i) % 0x100];
        Seqs.Assoc(before, [(7 * (n - 1) + i) % 0x100], BitsFrom(check as nat, n, i + 1));
      }
      i := i + 1;
    }
    Seqs.NoneLeft(out);
  }

  lemma CounterNext(n: nat)
    ensures (n % 0x100 + 1) % 0x100 == (n + 1) % 0x100
  {
  }

  lemma FlagsRound(check: uint8, n: nat, ret: seq<nat>, s: Bytes)
    requires 1 <= n && IsSet(check as nat, 8)
    ensures GetFlags(check, n, ret, s)
         == if s == [] then Err(Eof) else GetFlags(s[0], n + 1, ret + BitsFrom(check as nat, n, 1), s[1..])
  {
  }

  method GetFlagsFromBuffer(f: Buffer, first: uint8) returns (r: Res<seq<nat>>)
    requires f.Valid()
    modifies f
    ensures f.Valid() && Agrees(r, GetFlags(first, 1, [], old(f.Rest())), f.Rest())
  {
    var ret: seq<nat> := [];
    var check := first;
    var byteNum := 1;
    ghost var n := 1;
    while true
      invariant f.Valid() && 1 <= n && byteNum == n % 0x100
      invariant GetFlags(check, n, ret, f.Rest()) == GetFlags(first, 1, [], old(f.Rest()))
      decreases |f.data| - f.off
    {
      ghost var before := ret;
      ret := AppendBits(check, byteNum, ret, n);
      if !IsSet(check as nat, 8) { return Ok(ret); }
      FlagsRound(check, n, before, f.Rest());
      var next := ReadOneFrom(f);
      if next.Err? { return Err(next.error); }
      check := next.value;
      CounterNext(n);
      byteNum := (byteNum + 1) % 0x100;
      n := n + 1;
    }
  }

  /** The loop of sliceToUint64, most significant byte first. */
  method SliceToUint64Loop(b: Bytes) returns (ret: uint64)
    ensures ret == SliceToUint64(b)
  {
    if |b| > 8 { return 0; }
    var acc: nat := 0;
    for i := 0 to |b|
      invariant acc == BigEndian(b[..i]) * Pow256(|b| - i)
    {
      assert b[..i + 1][..i] == b[..i];
      ShiftByte(BigEndian(b[..i]), b[i] as nat, |b| - i);
      acc := acc + b[i] as nat * Pow256(|b| - i - 1);
    }
    assert b[..|b|] == b;
    BigEndianBound(b);
    Pow256Up(|b|);
    ret := acc;
  }

  lemma ShiftByte(v: nat, d: nat, k: nat)
    requires 1 <= k
    ensures v * Pow256(k) + d * Pow256(k - 1) == (v * 0x100 + d) * Pow256(k - 1)
  {
    assert v * (0x100 * Pow256(k - 1)) == v * 0x100 * Pow256(k - 1);
  }

  method ReadReferencedAddressFrom(f: Buffer, refs: AddressRefs) returns (r: Res<Address>)
    requires f.Valid()
    modifies f
    ensures f.Valid() && AgreesWithRefs(r, ReadReferencedAddress(old(At(f, refs))), At(f, refs))
  {
    var id := ReadUint32From(f);
    if id.Err? { return Err(id.error); }
    var a := refs.Get(id.value);
    r := Ok(a);
  }

  method ReadAddressFrom(f: Buffer, refs: AddressRefs) returns (r: Res<Address>)
    requires f.Valid()
    modifies f, refs
    ensures f.Valid() && AgreesWithRefs(r, ReadAddress(old(At(f, refs))), At(f, refs))
  {
    var length := ReadUint8From(f);
    if length.Err? { return Err(length.error); }
    if length.value == 0 {
      r := ReadReferencedAddressFrom(f, refs);
      return;
    }
    var t := ReadUint8From(f);
    if t.Err? { return Err(t.error); }
    var b := ReadBytesFrom(f, length.value as nat);
    if b.Err? { return Err(b.error); }
    var v := SliceToUint64Loop(b.value);
    var a := Address(t.value, v);
    refs.Add(a);
    r := Ok(a);
  }

  /** ReadMany for addresses, as the loops see it. */
  ghost function ReadOn(n: nat, acc: seq<Address>, st: State): Res<(seq<Address>, State)> {
    if n == 0 then Ok((acc, st))
    else
      var (a, st1) :- ReadAddress(st);
      ReadOn(n - 1, acc + [a], st1)
  }

  lemma {:induction false} ReadOnIsMany(n: nat, acc: seq<Address>, st: State)
    ensures ReadOn(n, acc, st) == ReadMany(ReadAddress, n, acc, st)
  {
    if n > 0 && ReadAddress(st).Ok? {
      var (a, st1) := ReadAddress(st).value;
      ReadOnIsMany(n - 1, acc + [a], st1);
    }
  }

  /** One round: n addresses to go, those in `acc` read. */
  method ReadNextAddress(f: Buffer, refs: AddressRefs, ghost n: nat, ghost acc: seq<Address>) returns (a: Res<Address>)
    requires f.Valid() && n > 0
    modifies f, refs
    ensures f.Valid()
    ensures a.Ok? ==> ReadOn(n, acc, old(At(f, refs))) == ReadOn(n - 1, acc + [a.value], At(f, refs))
    ensures a.Err? ==> ReadOn(n, acc, old(At(f, refs))) == Err(a.error)
  {
    a := ReadAddressFrom(f, refs);
  }

  /** The loops of readV4RR, readV4TS and flag 24 of a ping. */
  method ReadAddressLoop(f: Buffer, refs: AddressRefs, count: nat) returns (r: Res<seq<Address>>)
    requires f.Valid()
    modifies f, refs
    ensures f.Valid() && AgreesWithRefs(r, ReadOn(count, [], old(At(f, refs))), At(f, refs))
  {
    ghost var goal := ReadOn(count, [], At(f, refs));
    var addrs: seq<Address> := [];
    for i := 0 to count
      invariant f.Valid() && ReadOn(count - i, addrs, At(f, refs)) == goal
    {
      var a := ReadNextAddress(f, refs, count - i, addrs);
      if a.Err? { return Err(a.error); }
      addrs := addrs + [a.value];
    }
    r := Ok(addrs);
  }

  method ReadAddressesFrom(f: Buffer, refs: AddressRefs, count: nat) returns (r: Res<seq<Address>>)
    requires f.Valid()
    modifies f, refs
    ensures f.Valid() && AgreesWithRefs(r, ReadAddresses(count, old(At(f, refs))), At(f, refs))
  {
    ReadOnIsMany(count, [], At(f, refs));
    r := ReadAddressLoop(f, refs, count);
  }

  method ReadUint32sFrom(f: Buffer, count: nat) returns (r: Res<seq<uint32>>)
    requires f.Valid()
    modifies f
    ensures f.Valid() && Agrees(r, ReadUint32s(count, [], old(f.Rest())), f.Rest())
  {
    var ns: seq<uint32> := [];
    for i := 0 to count
      invariant f.Valid()
      invariant ReadUint32s(count - i, ns, f.Rest()) == ReadUint32s(count, [], old(f.Rest()))
    {
      var n := ReadUint32From(f);
      if n.Err? { return Err(n.error); }
      ns := ns + [n.value];
    }
    r := Ok(ns);
  }

  method ReadStampsFrom(f: Buffer, refs: AddressRefs) returns (r: Res<Value>)
    requires f.Valid()
    modifies f, refs
    ensures f.Valid() && AgreesWithRefs(r, ReadStamps(old(At(f, refs))), At(f, refs))
  {
    var tsc := ReadUint8From(f);
    if tsc.Err? { return Err(tsc.error); }
    var ipc := ReadUint8From(f);
    if ipc.Err? { return Err(ipc.error); }
    var times := ReadUint32sFrom(f, tsc.value as nat);
    if times.Err? { return Err(times.error); }
    var addrs := ReadAddressesFrom(f, refs, ipc.value as nat);
    if addrs.Err? { return Err(addrs.error); }
    r := Ok(Stamped(addrs.value, times.value));
  }

  method ReadTripleFrom(f: Buffer) returns (r: Res<Value>)
    requires f.Valid()
    modifies f
    ensures f.Valid() && Agrees(r, ReadTriple(old(f.Rest())), f.Rest())
  {
    var o := ReadUint32From(f);
    if o.Err? { return Err(o.error); }
    var q := ReadUint32From(f);
    if q.Err? { return Err(q.error); }
    var t := ReadUint32From(f);
    if t.Err? { return Err(t.error); }
    r := Ok(Times(o.value, q.value, t.value));
  }

  method ReadExtensionFrom(f: Buffer) returns (r: Res<Extension>)
    requires f.Valid()
    modifies f
    ensures f.Valid() && Agrees(r, ReadExtension(old(f.Rest())), f.Rest())
  {
    var length := ReadUint16From(f);
    if length.Err? { return Err(length.error); }
    var classNumber := ReadUint8From(f);
    if classNumber.Err? { return Err(classNumber.error); }
    var typeNumber := ReadUint8From(f);
    if typeNumber.Err? { return Err(typeNumber.error); }
    var data := ReadBytesFrom(f, length.value);
    if data.Err? { return Err(data.error); }
    r := Ok(Extension(length.value, classNumber.value, typeNumber.value, data.value));
  }

  /** readICMPExtensionList; the loop ends on every input because every round takes at least four bytes. */
  method ReadExtensionsInto(f: Buffer) returns (r: Res<Value>)
    requires f.Valid()
    modifies f
    ensures f.Valid() && Agrees(r, ReadExtensions(old(f.Rest())), f.Rest())
  {
    var length := ReadUint16From(f);
    if length.Err? { return Err(length.error); }
    ghost var start := f.Rest();
    var exts: seq<Extension> := [];
    var i: uint16 := 0;
    while i < length.value
      invariant f.Valid()
      invariant ReadExtensionsFrom(i, length.value, exts, f.Rest()) == ReadExtensionsFrom(0, length.value, [], start)
      decreases |f.data| - f.off
    {
      var e := ReadExtensionFrom(f);
      if e.Err? { return Err(e.error); }
      exts := exts + [e.value];
      i := Wrap16(i + e.value.length + 4);
    }
    r := Ok(Exts(length.value, exts));
  }

  method ReadPlainFrom(f: Buffer, k: Kind, fields: Fields) returns (r: Res<Value>)
    requires f.Valid() && !k.Reference? && !k.Addr? && !k.AddrList? && !k.Stamps?
    modifies f
    ensures f.Valid() && Agrees(r, ReadPlain(k, fields, old(f.Rest())), f.Rest())
  {
    match k
    case U8 => var n := ReadUint8From(f); r := if n.Err? then Err(n.error) else Ok(Num(n.value as nat));
    case U16 => var n := ReadUint16From(f); r := if n.Err? then Err(n.error) else Ok(Num(n.value));
    case U32 => var n := ReadUint32From(f); r := if n.Err? then Err(n.error) else Ok(Num(n.value));
    case TimeVal => var t := ReadTimeValFrom(f); r := if t.Err? then Err(t.error) else Ok(Time(t.value.0, t.value.1));
    case Micros =>
      var n := ReadUint32From(f);
      r := if n.Err? then Err(n.error) else Ok(Time(n.value / 1000000, n.value % 1000000));
    case Triple => r := ReadTripleFrom(f);
    case Data(flag) =>
      var b := ReadBytesFrom(f, DataLength(flag, fields));
      r := if b.Err? then Err(b.error) else Ok(Raw(b.value));
    case Extensions => r := ReadExtensionsInto(f);
    case Ignored => var t := ReadTimeValFrom(f); r := if t.Err? then Err(t.error) else Ok(Dropped);
  }

  method ReadValueFrom(f: Buffer, refs: AddressRefs, k: Kind, fields: Fields) returns (r: Res<Value>)
    requires f.Valid()
    modifies f, refs
    ensures f.Valid() && AgreesWithRefs(r, ReadValue(k, fields, old(At(f, refs))), At(f, refs))
  {
    match k
    case Reference =>
      var a := ReadReferencedAddressFrom(f, refs);
      r := if a.Err? then Err(a.error) else Ok(Value.At(a.value));
    case Addr =>
      var a := ReadAddressFrom(f, refs);
      r := if a.Err? then Err(a.error) else Ok(Value.At(a.value));
    case AddrList =>
      var n := ReadUint8From(f);
      if n.Err? { return Err(n.error); }
      var addrs := ReadAddressesFrom(f, refs, n.value as nat);
      r := if addrs.Err? then Err(addrs.error) else Ok(AtAll(addrs.value));
    case Stamps => r := ReadStampsFrom(f, refs);
    case _ => r := ReadPlainFrom(f, k, fields);
  }

  /** The loop over the flags in readPingFlags, readPingReplyFlags, readTracerouteFlags and readTracerouteHop. */
  method ReadFieldsFrom(f: Buffer, refs: AddressRefs, t: Table, flags: seq<nat>) returns (r: Res<Fields>)
    requires f.Valid()
    modifies f, refs
    ensures f.Valid() && AgreesWithRefs(r, ReadFields(t, flags, map[], old(At(f, refs))), At(f, refs))
  {
    var fields: Fields := map[];
    for i := 0 to |flags|
      invariant f.Valid()
      invariant ReadFields(t, flags[i..], fields, At(f, refs)) == ReadFields(t, flags, map[], old(At(f, refs)))
    {
      assert flags[i..][1..] == flags[i + 1..];
      var k := t(flags[i]);
      if k.None? { return Err(Malformed); }
      var v := ReadValueFrom(f, refs, k.value, fields);
      if v.Err? { return Err(v.error); }
      fields := fields[flags[i] := v.value];
    }
    r := Ok(fields);
  }

  method ReadStructFrom(f: Buffer, refs: AddressRefs, t: Table) returns (r: Res<Struct>)
    requires f.Valid()
    modifies f, refs
    ensures f.Valid() && AgreesWithRefs(r, ReadStruct(t, old(At(f, refs))), At(f, refs))
  {
    var first := ReadOneFrom(f);
    if first.Err? { return Err(first.error); }
    var flags := GetFlagsFromBuffer(f, first.value);
    if flags.Err? { return Err(flags.error); }
    if |flags.value| != 0 {
      var length := ReadUint16From(f);
      if length.Err? { return Err(length.error); }
    }
    var fields := ReadFieldsFrom(f, refs, t, flags.value);
    r := if fields.Err? then Err(fields.error) else Ok(Struct(flags.value, fields.value));
  }

  /** The loops of readPingReplies and readTracerouteHops. */
  method ReadStructsFrom(f: Buffer, refs: AddressRefs, t: Table, count: nat) returns (r: Res<seq<Struct>>)
    requires f.Valid()
    modifies f, refs
    ensures f.Valid() && AgreesWithRefs(r, ReadStructs(t, count, old(At(f, refs))), At(f, refs))
  {
    ghost var read := (st: State) => ReadStruct(t, st);
    ghost var goal := ReadMany(read, count, [], At(f, refs));
    var xs: seq<Struct> := [];
    for i := 0 to count
      invariant f.Valid() && ReadMany(read, count - i, xs, At(f, refs)) == goal
    {
      var x := ReadStructFrom(f, refs, t);
      if x.Err? { return Err(x.error); }
      xs := xs + [x.value];
    }
    r := Ok(xs);
  }

  method ReadHeaderFrom(f: Buffer) returns (r: Res<R.Record>)
    requires f.Valid()
    modifies f
    ensures f.Valid() && Agrees(r, R.ReadHeader(old(f.Rest())), f.Rest())
  {
    var head := ReadBytesFrom(f, 8);
    if head.Err? { return Err(head.error); }
    var b := head.value;
    if GetUint16(b[..2]) != 0x1205 { return Err(Malformed); }
    r := Ok(R.Header(GetUint16(b[2..4]), GetUint32(b[4..8])));
  }

  method ReadListFlagsFrom(f: Buffer) returns (r: Res<(uint16, Bytes, Bytes)>)
    requires f.Valid()
    modifies f
    ensures f.Valid() && Agrees(r, R.ReadListFlags(old(f.Rest())), f.Rest())
  {
    var flag := ReadUint8From(f);
    if flag.Err? { return Err(flag.error); }
    var hasDescription, hasMonitor := IsSet(flag.value as nat, 1), IsSet(flag.value as nat, 2);
    if !hasDescription && !hasMonitor { return Ok((0, [], [])); }
    var length := ReadUint16From(f);
    if length.Err? { return Err(length.error); }
    var description: Bytes, monitor: Bytes := [], [];
    if hasDescription {
      var d := GetStringFrom(f);
      if d.Err? { return Ok((length.value, [], [])); }
      description := d.value;
    }
    if hasMonitor {
      var m := GetStringFrom(f);
      if m.Err? { return Ok((length.value, description, [])); }
      monitor := m.value;
    }
    r := Ok((length.value, description, monitor));
  }

  method ReadListFrom(f: Buffer) returns (r: Res<R.Record>)
    requires f.Valid()
    modifies f
    ensures f.Valid() && Agrees(r, R.ReadList(old(f.Rest())), f.Rest())
  {
    var ids := ReadBytesFrom(f, 8);
    if ids.Err? { return Err(ids.error); }
    var name := GetStringFrom(f);
    if name.Err? { return Err(name.error); }
    var x := ReadListFlagsFrom(f);
    if x.Err? { return Err(x.error); }
    r := Ok(R.List(GetUint32(ids.value[..4]), GetUint32(ids.value[4..]), name.value, x.value.0, x.value.1, x.value.2));
  }

  method ReadCycleStartFlagsFrom(f: Buffer) returns (r: Res<(uint16, uint32, Bytes)>)
    requires f.Valid()
    modifies f
    ensures f.Valid() && Agrees(r, R.ReadCycleStartFlags(old(f.Rest())), f.Rest())
  {
    var flag := ReadUint8From(f);
    if flag.Err? { return Err(flag.error); }
    var hasStop, hasHost := IsSet(flag.value as nat, 1), IsSet(flag.value as nat, 2);
    if !hasStop && !hasHost { return Ok((0, 0, [])); }
    var length := ReadUint16From(f);
    if length.Err? { return Err(length.error); }
    var stop: uint32, host: Bytes := 0, [];
    if hasStop {
      var s := ReadUint32From(f);
      if s.Err? { return Err(s.error); }
      stop := s.value;
    }
    if hasHost {
      var h := GetStringFrom(f);
      if h.Err? { return Err(h.error); }
      host := h.value;
    }
    r := Ok((length.value, stop, host));
  }

  method ReadCycleFrom(f: Buffer) returns (r: Res<R.Record>)
    requires f.Valid()
    modifies f
    ensures f.Valid() && Agrees(r, R.ReadCycle(old(f.Rest())), f.Rest())
  {
    var buf := ReadBytesFrom(f, 16);
    if buf.Err? { return Err(buf.error); }
    var b := buf.value;
    var x := ReadCycleStartFlagsFrom(f);
    if x.Err? { return Err(x.error); }
    r := Ok(R.CycleStart(GetUint32(b[..4]), GetUint32(b[4..8]), GetUint32(b[8..12]), GetUint32(b[12..]),
                         x.value.0, x.value.1, x.value.2));
  }

  method ReadCycleStopFrom(f: Buffer) returns (r: Res<R.Record>)
    requires f.Valid()
    modifies f
    ensures f.Valid() && Agrees(r, R.ReadCycleStop(old(f.Rest())), f.Rest())
  {
    var buf := ReadBytesFrom(f, 8);
    if buf.Err? { return Err(buf.error); }
    var flags := ReadOneFrom(f);
    if flags.Err? { return Err(flags.error); }
    r := Ok(R.CycleStop(GetUint32(buf.value[..4]), GetUint32(buf.value[4..])));
  }

  method ReadPingFrom(f: Buffer) returns (r: Res<R.Record>)
    requires f.Valid()
    modifies f
    ensures f.Valid() && Agrees(r, R.ReadPing(old(f.Rest())), f.Rest())
  {
    var refs := new AddressRefs();
    var flags := ReadStructFrom(f, refs, PingFields);
    if flags.Err? { return Err(flags.error); }
    var count := ReadUint16From(f);
    if count.Err? { return Err(count.error); }
    var replies := ReadStructsFrom(f, refs, PingReplyFields, count.value);
    r := if replies.Err? then Err(replies.error) else Ok(R.Ping(flags.value, replies.value));
  }

  method ReadTracerouteFlagsFrom(f: Buffer, refs: AddressRefs) returns (r: Res<Struct>)
    requires f.Valid()
    modifies f, refs
    ensures f.Valid() && AgreesWithRefs(r, R.ReadTracerouteFlags(old(At(f, refs))), At(f, refs))
  {
    if f.off == |f.data| { return Ok(Struct([], map[])); }
    r := ReadStructFrom(f, refs, TracerouteFields);
  }

  method ReadTracerouteFrom(f: Buffer) returns (r: Res<R.Record>)
    requires f.Valid()
    modifies f
    ensures f.Valid() && Agrees(r, R.ReadTraceroute(old(f.Rest())), f.Rest())
  {
    var refs := new AddressRefs();
    var flags := ReadTracerouteFlagsFrom(f, refs);
    if flags.Err? { return Err(flags.error); }
    var count := ReadUint16From(f);
    if count.Err? { return Err(count.error); }
    var hops := ReadStructsFrom(f, refs, HopFields, count.value);
    if hops.Err? { return Err(hops.error); }
    var end := ReadUint16From(f);
    if end.Err? { return Err(end.error); }
    r := Ok(R.Traceroute(flags.value, hops.value));
  }

  /** parseNext */
  method ParseNext(f: Buffer) returns (r: Res<R.Record>)
    requires f.Valid()
    modifies f
    ensures f.Valid() && Agrees(r, R.ReadRecord(old(f.Rest())), f.Rest())
  {
    var head := ReadHeaderFrom(f);
    if head.Err? { return Err(head.error); }
    match head.value.typ
    case 1 => r := ReadListFrom(f);
    case 2 => r := ReadCycleFrom(f);
    case 3 => r := ReadCycleFrom(f);
    case 4 => r := ReadCycleStopFrom(f);
    case 6 => r := ReadTracerouteFrom(f);
    case 7 => r := ReadPingFrom(f);
    case _ => r := head;
  }

  function TypeSet(objs: seq<uint32>): set<uint32> {
    set t | t in objs
  }

  method TypesOf(objs: seq<uint32>) returns (types: set<uint32>)
    ensures types == TypeSet(objs)
  {
    types := {};
    for i := 0 to |objs|
      invariant types == TypeSet(objs[..i])
    {
      types := types + {objs[i]};
    }
    assert objs[..|objs|] == objs;
  }

  lemma EveryEncodingParses(types: set<uint32>, data: Bytes)
    ensures forall rs, plans {:trigger R.PutAll(rs, plans)} | R.AllWellFormed(rs, plans) && data == R.PutAll(rs, plans) ::
              R.Parse(types, [], data) == Ok(R.Selected(types, rs))
  {
    forall rs, plans {:trigger R.PutAll(rs, plans)} | R.AllWellFormed(rs, plans) && data == R.PutAll(rs, plans)
      ensures R.Parse(types, [], data) == Ok(R.Selected(types, rs))
    {
      R.ParseRoundTrip(types, rs, plans);
    }
  }

  /** Parse: what it keeps on any input, and that on any encoding of well-formed records it keeps exactly those of
      the wanted types, in order. */
  method Parse(data: Bytes, objs: seq<uint32>) returns (r: Res<seq<R.Record>>)
    ensures r == R.Parse(TypeSet(objs), [], data)
    ensures forall rs, plans {:trigger R.PutAll(rs, plans)} | R.AllWellFormed(rs, plans) && data == R.PutAll(rs, plans) ::
              r == Ok(R.Selected(TypeSet(objs), rs))
  {
    var types := TypesOf(objs);
    r := ParseTypes(data, types);
    EveryEncodingParses(types, data);
  }

  method ParseTypes(data: Bytes, types: set<uint32>) returns (r: Res<seq<R.Record>>)
    ensures r == R.Parse(types, [], data)
  {
    var kept: seq<R.Record> := [];
    var buf := new Buffer(data);
    while true
      invariant buf.Valid() && R.Parse(types, kept, buf.Rest()) == R.Parse(types, [], data)
      decreases |buf.data| - buf.off
    {
      R.RecordTakesHeader(buf.Rest());
      var x := ParseNext(buf);
      if x.Err? {
        return if x.error == Eof then Ok(kept) else Err(Malformed);
      }
      if R.TypeOf(x.value) in types {
        kept := kept + [x.value];
      }
    }
  }
}
