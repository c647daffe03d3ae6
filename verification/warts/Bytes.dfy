/** What the bytes of single fields mean, and how a structure with one or two flags is read. */
module WartsBytes {
  import Seqs
  import opened Common
  import opened WartsWire
  import opened WartsFlags
  import opened WartsAddress
  import opened WartsFields
  import opened WartsFrame
  import opened WartsRecords

  /** The number that bytes spell, the first one highest. */
  ghost function Number(b: Bytes): nat {
    if b == [] then 0 else 0x100 * Number(b[..|b| - 1]) + b[|b| - 1] as nat
  }

  /** The bitmap of flag f alone: seven flags a byte, bit 8 says that another byte follows. */
  function OneBit(f: nat): Bytes
    requires f >= 1
  {
    if f <= 7 then [[1, 2, 4, 8, 16, 32, 64][f - 1]] else [0x80] + OneBit(f - 7)
  }

  // ---------- what the bytes of a field mean ----------

  ghost predicate IsNum(width: nat, b: Bytes, v: Value) {
    |b| == width && v == Num(Number(b))
  }

  /** Seconds, then microseconds, which are a signed 32-bit number. */
  ghost predicate IsTime(b: Bytes, v: Value) {
    && |b| == 8
    && v == Time(Number(b[..4]), if b[4] < 0x80 then Number(b[4..]) else Number(b[4..]) - 0x1_0000_0000)
  }

  ghost predicate IsMicros(b: Bytes, v: Value) {
    |b| == 4 && v == Time(Number(b) / 1000000, Number(b) % 1000000)
  }

  /** Length, type, and the bytes of the address. */
  ghost predicate IsInline(b: Bytes, a: Address) {
    |b| >= 3 && |b| <= 10 && b[0] as nat == |b| - 2 && a.kind == b[1] && a.address == Number(b[2..])
  }

  /** A reference, in a record that has no address before it. */
  ghost predicate IsNoReference(b: Bytes, v: Value) {
    |b| == 4 && v == At(Address(0, 0))
  }

  /** Inline, or a zero and a reference. */
  ghost predicate IsAddress(b: Bytes, v: Value) {
    v.At? && (IsInline(b, v.a) || (b != [] && b[0] == 0 && IsNoReference(b[1..], v)))
  }

  /** Two addresses behind their number. */
  ghost predicate IsTwoAddresses(b: Bytes, v: Value) {
    && v.AtAll? && |v.addrs| == 2 && |b| >= 2 && b[0] == 2 && 3 + b[1] as nat <= |b|
    && IsInline(b[1..3 + b[1] as nat], v.addrs[0]) && IsInline(b[3 + b[1] as nat..], v.addrs[1])
  }

  /** Two timestamps and one address behind their numbers. */
  ghost predicate IsStamps(b: Bytes, v: Value) {
    && |b| >= 10 && b[..2] == [2, 1] && v.Stamped? && |v.addrs| == 1
    && v.times == [Number(b[2..6]), Number(b[6..10])] && IsInline(b[10..], v.addrs[0])
  }

  ghost predicate IsTriple(b: Bytes, v: Value) {
    |b| == 12 && v.Times? && v.o == Number(b[..4]) && v.r == Number(b[4..8]) && v.t == Number(b[8..])
  }

  /** One extension behind the length of all: its own length, class, type and data. */
  ghost predicate IsExtension(b: Bytes, v: Value) {
    && |b| >= 6 && Number(b[..2]) == |b| - 2 && Number(b[2..4]) == |b| - 6 && |b| - 2 < 0x1_0000
    && v == Exts(|b| - 2, [Extension(|b| - 6, b[4], b[5], b[6..])])
  }

  // ---------- numbers ----------

  lemma NumberSmall(b: Bytes)
    ensures |b| == 1 ==> Number(b) == b[0] as nat
    ensures |b| == 2 ==> Number(b) == b[0] as nat * 0x100 + b[1] as nat == GetUint16(b)
    ensures |b| == 4 ==> Number(b) == GetUint32(b)
  {
    if |b| == 2 {
      assert b[..1][..0] == [];
    }
    if |b| == 4 {
      assert b[..3][..2] == b[..2] && b[..2][..1] == b[..1] && b[..1][..0] == [];
    }
  }

  lemma {:induction false} NumberIsBigEndian(b: Bytes)
    ensures Number(b) == BigEndian(b)
  {
    if b != [] {
      NumberIsBigEndian(b[..|b| - 1]);
    }
  }

  lemma Read1(b: Bytes, s: Bytes)
    requires |b| == 1
    ensures ReadUint8(b + s) == Ok((b[0], s)) && Number(b) == b[0] as nat
  {
    NumberSmall(b);
    assert (b + s)[1..] == s;
  }

  lemma Read2(b: Bytes, s: Bytes)
    requires |b| == 2
    ensures ReadUint16(b + s) == Ok((Number(b), s))
  {
    NumberSmall(b);
    Seqs.Front(b, s);
  }

  lemma Read4(b: Bytes, s: Bytes)
    requires |b| == 4
    ensures ReadUint32(b + s) == Ok((Number(b), s))
  {
    NumberSmall(b);
    Seqs.Front(b, s);
  }

  lemma CutAt(b: Bytes, n: nat, s: Bytes)
    requires n <= |b|
    ensures b + s == b[..n] + (b[n..] + s)
  {
  }

  lemma High(b: Bytes)
    requires |b| == 4
    ensures Number(b) < 0x1_0000_0000 && (Number(b) < 0x8000_0000 <==> b[0] < 0x80)
  {
    NumberSmall(b);
  }

  // ---------- one field ----------

  lemma NumRead(k: Kind, width: nat, b: Bytes, v: Value, seen: Fields, s: Bytes, refs: Refs)
    requires IsNum(width, b, v) && (k, width) in {(U8, 1), (U16, 2), (U32, 4)}
    ensures ReadValue(k, seen, State(b + s, refs)) == Ok((v, State(s, refs)))
  {
    match k
    case U8 => Read1(b, s);
    case U16 => Read2(b, s);
    case U32 => Read4(b, s);
  }

  lemma TimeRead(b: Bytes, v: Value, seen: Fields, s: Bytes, refs: Refs)
    requires IsTime(b, v)
    ensures ReadValue(TimeVal, seen, State(b + s, refs)) == Ok((v, State(s, refs)))
    ensures ReadValue(Ignored, seen, State(b + s, refs)) == Ok((Dropped, State(s, refs)))
  {
    CutAt(b, 4, s);
    Read4(b[..4], b[4..] + s);
    Read4(b[4..], s);
    High(b[4..]);
  }

  lemma MicrosRead(b: Bytes, v: Value, seen: Fields, s: Bytes, refs: Refs)
    requires IsMicros(b, v)
    ensures ReadValue(Micros, seen, State(b + s, refs)) == Ok((v, State(s, refs)))
  {
    Read4(b, s);
  }

  lemma InlineRead(b: Bytes, a: Address, s: Bytes, refs: Refs)
    requires IsInline(b, a)
    ensures ReadAddress(State(b + s, refs)) == Ok((a, State(s, refs.Add(a))))
  {
    var n := |b| - 2;
    CutAt(b, 1, s);
    Read1(b[..1], b[1..] + s);
    CutAt(b[1..], 1, s);
    Read1(b[1..][..1], b[1..][1..] + s);
    assert b[1..][1..] == b[2..];
    DataRoundTrip(b[2..], s);
    NumberIsBigEndian(b[2..]);
  }

  lemma ReferenceRead(b: Bytes, v: Value, seen: Fields, s: Bytes, refs: Refs)
    requires IsNoReference(b, v) && refs == NEW_REFS
    ensures ReadReferencedAddress(State(b + s, refs)) == Ok((v.a, State(s, refs)))
    ensures ReadValue(Reference, seen, State(b + s, refs)) == Ok((v, State(s, refs)))
  {
    Read4(b, s);
  }

  /** The table behind one address field of a record without addresses before it. */
  ghost function After(b: Bytes, v: Value): Refs
    requires v.At?
  {
    if b != [] && b[0] == 0 then NEW_REFS else NEW_REFS.Add(v.a)
  }

  lemma AddressRead(b: Bytes, v: Value, seen: Fields, s: Bytes)
    requires IsAddress(b, v)
    ensures ReadValue(Addr, seen, State(b + s, NEW_REFS)) == Ok((v, State(s, After(b, v))))
  {
    if IsInline(b, v.a) {
      InlineRead(b, v.a, s, NEW_REFS);
    } else {
      CutAt(b, 1, s);
      Read1(b[..1], b[1..] + s);
      ReferenceRead(b[1..], v, seen, s, NEW_REFS);
    }
  }

  lemma TripleRead(b: Bytes, v: Value, seen: Fields, s: Bytes, refs: Refs)
    requires IsTriple(b, v)
    ensures ReadValue(Triple, seen, State(b + s, refs)) == Ok((v, State(s, refs)))
  {
    CutAt(b, 4, s);
    Read4(b[..4], b[4..] + s);
    CutAt(b[4..], 4, s);
    assert b[4..][..4] == b[4..8] && b[4..][4..] == b[8..];
    Read4(b[4..8], b[8..] + s);
    Read4(b[8..], s);
  }

  lemma AddrListOf(seen: Fields, st: State, n: uint8, s1: Bytes, addrs: seq<Address>, st1: State)
    requires ReadUint8(st.rest) == Ok((n, s1)) && ReadAddresses(n as nat, st.(rest := s1)) == Ok((addrs, st1))
    ensures ReadValue(AddrList, seen, st) == Ok((AtAll(addrs), st1))
  {
  }

  lemma TwoAddressesRead(b: Bytes, v: Value, seen: Fields, s: Bytes) returns (refs: Refs)
    requires IsTwoAddresses(b, v)
    ensures ReadValue(AddrList, seen, State(b + s, NEW_REFS)) == Ok((v, State(s, refs)))
  {
    var b1 := b[1..];
    CutAt(b, 1, s);
    Read1(b[..1], b1 + s);
    assert b1[..2 + b1[0] as nat] == b[1..3 + b[1] as nat] && b1[2 + b1[0] as nat..] == b[3 + b[1] as nat..];
    refs := TwoInline(b1, v.addrs, s);
    AddrListOf(seen, State(b + s, NEW_REFS), 2, b1 + s, v.addrs, State(s, refs));
  }

  lemma TwoInline(b: Bytes, addrs: seq<Address>, s: Bytes) returns (refs: Refs)
    requires |addrs| == 2 && b != [] && 2 + b[0] as nat <= |b|
    requires IsInline(b[..2 + b[0] as nat], addrs[0]) && IsInline(b[2 + b[0] as nat..], addrs[1])
    ensures ReadAddresses(2, State(b + s, NEW_REFS)) == Ok((addrs, State(s, refs)))
  {
    var n := 2 + b[0] as nat;
    CutAt(b, n, s);
    InlineRead(b[..n], addrs[0], b[n..] + s, NEW_REFS);
    var refs1 := NEW_REFS.Add(addrs[0]);
    refs := refs1.Add(addrs[1]);
    InlineRead(b[n..], addrs[1], s, refs1);
    ReadTwo(State(b + s, NEW_REFS), State(b[n..] + s, refs1), State(s, refs), addrs[0], addrs[1]);
    assert addrs == [addrs[0], addrs[1]];
  }

  lemma ReadOneOf(st: State, st1: State, a: Address)
    requires ReadAddress(st) == Ok((a, st1))
    ensures ReadAddresses(1, st) == Ok(([a], st1))
  {
    assert [] + [a] == [a];
    assert ReadMany(ReadAddress, 0, [a], st1) == Ok(([a], st1));
  }

  lemma ReadTwo(st: State, st1: State, st2: State, a: Address, c: Address)
    requires ReadAddress(st) == Ok((a, st1)) && ReadAddress(st1) == Ok((c, st2))
    ensures ReadAddresses(2, st) == Ok(([a, c], st2))
  {
    assert ReadMany(ReadAddress, 1, [] + [a], st1) == ReadMany(ReadAddress, 0, [] + [a] + [c], st2);
    assert [] + [a] + [c] == [a, c];
  }

  lemma CountsRead(b: Bytes, s: Bytes)
    requires |b| >= 2 && b[..2] == [2, 1]
    ensures ReadUint8(b + s) == Ok((2, b[1..] + s)) && ReadUint8(b[1..] + s) == Ok((1, b[2..] + s))
  {
    assert b[0] == b[..2][0] && b[1] == b[..2][1];
    CutAt(b, 1, s);
    Read1(b[..1], b[1..] + s);
    CutAt(b[1..], 1, s);
    assert b[1..][..1] == [b[1]] && b[1..][1..] == b[2..];
    Read1(b[1..][..1], b[2..] + s);
  }

  lemma TimesRead(b: Bytes, times: seq<uint32>, s: Bytes)
    requires |b| >= 8 && times == [Number(b[..4]), Number(b[4..8])]
    ensures ReadUint32s(2, [], b + s) == Ok((times, b[8..] + s))
  {
    CutAt(b, 4, s);
    Read4(b[..4], b[4..] + s);
    CutAt(b[4..], 4, s);
    assert b[4..][..4] == b[4..8] && b[4..][4..] == b[8..];
    Read4(b[4..8], b[8..] + s);
    assert [] + [times[0]] + [times[1]] == times;
    assert ReadUint32s(1, [] + [times[0]], b[4..] + s) == ReadUint32s(0, times, b[8..] + s);
  }

  lemma StampsRead(b: Bytes, v: Value, seen: Fields, s: Bytes) returns (refs: Refs)
    requires IsStamps(b, v)
    ensures ReadValue(Stamps, seen, State(b + s, NEW_REFS)) == Ok((v, State(s, refs)))
  {
    CountsRead(b, s);
    assert b[2..][..4] == b[2..6] && b[2..][4..8] == b[6..10] && b[2..][8..] == b[10..];
    TimesRead(b[2..], v.times, s);
    refs := NEW_REFS.Add(v.addrs[0]);
    InlineRead(b[10..], v.addrs[0], s, NEW_REFS);
    ReadOneOf(State(b[10..] + s, NEW_REFS), State(s, refs), v.addrs[0]);
    assert v.addrs == [v.addrs[0]];
  }

  lemma OneExtension(b: Bytes, s: Bytes)
    requires |b| >= 4 && Number(b[..2]) == |b| - 4 && |b| - 4 < 0x1_0000
    ensures ReadExtension(b + s) == Ok((Extension(|b| - 4, b[2], b[3], b[4..]), s))
  {
    var b2, b3, b4 := b[2..], b[3..], b[4..];
    CutAt(b, 2, s);
    Read2(b[..2], b2 + s);
    CutAt(b2, 1, s);
    assert b2[..1] == [b[2]] && b2[1..] == b3;
    Read1(b2[..1], b3 + s);
    CutAt(b3, 1, s);
    assert b3[..1] == [b[3]] && b3[1..] == b4;
    Read1(b3[..1], b4 + s);
    DataRoundTrip(b4, s);
  }

  lemma ExtensionRead(b: Bytes, v: Value, seen: Fields, s: Bytes, refs: Refs)
    requires IsExtension(b, v)
    ensures ReadValue(Extensions, seen, State(b + s, refs)) == Ok((v, State(s, refs)))
  {
    var b2 := b[2..];
    CutAt(b, 2, s);
    Read2(b[..2], b2 + s);
    assert b2[..2] == b[2..4] && b2[4..] == b[6..];
    OneExtension(b2, s);
    var e := Extension(|b| - 6, b[4], b[5], b[6..]);
    ExtensionsStep(0, |b| - 2, [], b2 + s, e, s);
    assert [] + [e] == [e];
    assert ReadExtensionsFrom(|b| - 2, |b| - 2, [e], s) == Ok(([e], s));
  }

  // ---------- one flag ----------

  lemma {:induction false} OneBitIs(f: nat, base: nat)
    requires f >= 1
    ensures IsBitmap(OneBit(f)) && Positions(OneBit(f), base) == [base + f]
    decreases f
  {
    var b := OneBit(f);
    if f <= 7 {
      assert b[1..] == [];
      OneByteOne(f, base);
    } else {
      assert b[0] == 0x80 && b[1..] == OneBit(f - 7);
      OneBitIs(f - 7, base + 7);
      NoBits(base);
    }
  }

  lemma NoBits(base: nat)
    ensures OneByte(0x80, base, 1) == [] && IsSet(0x80, 8)
  {
    assert OneByte(0x80, base, 5) == [];
    assert OneByte(0x80, base, 3) == OneByte(0x80, base, 5);
  }

  lemma OneByteOne(f: nat, base: nat)
    requires 1 <= f <= 7
    ensures var b := [1, 2, 4, 8, 16, 32, 64][f - 1]; OneByte(b, base, 1) == [base + f] && !IsSet(b, 8)
  {
    var b := [1, 2, 4, 8, 16, 32, 64][f - 1];
    Powers(f);
    BitOf(b, f);
    SkipTo(b, base, 1, f);
    SkipTo(b, base, f + 1, 8);
    assert OneByte(b, base, f) == [base + f] + OneByte(b, base, f + 1);
  }

  lemma {:induction false} SkipTo(b: nat, base: nat, i: nat, n: nat)
    requires 1 <= i <= n <= 8 && forall j :: i <= j < n ==> !IsSet(b, j)
    ensures OneByte(b, base, i) == OneByte(b, base, n)
    decreases n - i
  {
    if i < n {
      SkipTo(b, base, i + 1, n);
    }
  }

  lemma {:induction false} ZeroBits(j: nat)
    requires 1 <= j
    ensures !IsSet(0, j)
  {
    if j > 1 {
      ZeroBits(j - 1);
    }
  }

  lemma {:induction false} PowBit(f: nat, j: nat)
    requires 1 <= f && 1 <= j
    ensures IsSet(Pow2(f - 1), j) <==> j == f
  {
    if f == 1 && j > 1 {
      ZeroBits(j - 1);
    } else if f > 1 && j > 1 {
      PowBit(f - 1, j - 1);
    }
  }

  lemma Powers(f: nat)
    requires 1 <= f <= 7
    ensures [1, 2, 4, 8, 16, 32, 64][f - 1] == Pow2(f - 1)
  {
    assert Pow2(2) == 4 && Pow2(4) == 16 && Pow2(6) == 64;
  }

  lemma BitOf(b: nat, f: nat)
    requires 1 <= f <= 7 && b == Pow2(f - 1)
    ensures forall j: nat :: 1 <= j <= 8 ==> (IsSet(b, j) <==> j == f)
  {
    forall j: nat | 1 <= j <= 8 ensures IsSet(b, j) <==> j == f {
      PowBit(f, j);
    }
  }

  /** The front of a structure with one flag. */
  lemma OneFront(f: nat, l: Bytes, s: Bytes)
    requires 1 <= f && |l| == 2
    ensures ReadFront(OneBit(f) + (l + s)) == Ok(([f % 0x100], s))
  {
    OneBitIs(f, 0);
    GetFlagsReadsBitmap(OneBit(f), l + s);
    assert Wrap([f]) == [f % 0x100];
    BitmapRead(OneBit(f), [f % 0x100], l + s);
    Read2(l, s);
  }

  lemma OneStruct(t: Table, f: nat, l: Bytes, s: Bytes, refs: Refs, fields: Fields, st1: State)
    requires 1 <= f < 0x100 && |l| == 2 && ReadFields(t, [f], map[], State(s, refs)) == Ok((fields, st1))
    ensures ReadStruct(t, State(OneBit(f) + (l + s), refs)) == Ok((Struct([f], fields), st1))
  {
    OneFrontSmall(f, l, s);
    StructFrom(t, OneBit(f) + (l + s), [f], s, refs, fields, st1);
  }

  lemma OneFrontSmall(f: nat, l: Bytes, s: Bytes)
    requires 1 <= f < 0x100 && |l| == 2
    ensures ReadFront(OneBit(f) + (l + s)) == Ok(([f], s))
  {
    assert [f % 0x100] == [f] by { SmallFlag(f); }
    OneFront(f, l, s);
  }

  lemma SmallFlag(f: nat)
    requires f < 0x100
    ensures f % 0x100 == f
  {
  }

  lemma StructFrom(t: Table, s: Bytes, flags: seq<nat>, s1: Bytes, refs: Refs, fields: Fields, st1: State)
    requires ReadFront(s) == Ok((flags, s1)) && ReadFields(t, flags, map[], State(s1, refs)) == Ok((fields, st1))
    ensures ReadStruct(t, State(s, refs)) == Ok((Struct(flags, fields), st1))
  {
    StructOf(t, State(s, refs), flags, s1, fields, st1);
  }

  lemma FieldStep(t: Table, flags: seq<nat>, seen: Fields, st: State, v: Value, st1: State)
    requires flags != [] && t(flags[0]).Some? && ReadValue(t(flags[0]).value, seen, st) == Ok((v, st1))
    ensures ReadFields(t, flags, seen, st) == ReadFields(t, flags[1..], seen[flags[0] := v], st1)
  {
  }

  lemma FieldsEnd(t: Table, seen: Fields, st: State)
    ensures ReadFields(t, [], seen, st) == Ok((seen, st))
  {
  }

  lemma FieldsOne(t: Table, f: nat, k: Kind, v: Value, st: State, st1: State)
    requires t(f) == Some(k) && ReadValue(k, map[], st) == Ok((v, st1))
    ensures ReadFields(t, [f], map[], st) == Ok((map[f := v], st1))
  {
    FieldStep(t, [f], map[], st, v, st1);
    FieldsEnd(t, map[f := v], st1);
    assert [f][1..] == [] && map[][f := v] == map[f := v];
  }

  lemma FieldsTwo(t: Table, f: nat, v: Value, g: nat, w: Value, st: State, st1: State, st2: State)
    requires t(f).Some? && ReadValue(t(f).value, map[], st) == Ok((v, st1))
    requires t(g).Some? && ReadValue(t(g).value, map[f := v], st1) == Ok((w, st2))
    ensures ReadFields(t, [f, g], map[], st) == Ok((map[f := v, g := w], st2))
  {
    FieldStep(t, [f, g], map[], st, v, st1);
    assert [f, g][1..] == [g] && [g][1..] == [] && map[][f := v] == map[f := v];
    FieldStep(t, [g], map[f := v], st1, w, st2);
    FieldsEnd(t, map[f := v][g := w], st2);
    assert map[f := v][g := w] == map[f := v, g := w];
  }

  lemma StructOf(t: Table, st: State, flags: seq<nat>, s1: Bytes, fields: Fields, st1: State)
    requires ReadFront(st.rest) == Ok((flags, s1)) && ReadFields(t, flags, map[], st.(rest := s1)) == Ok((fields, st1))
    ensures ReadStruct(t, st) == Ok((Struct(flags, fields), st1))
  {
  }

  lemma PingOf(s: Bytes, x: Struct, st1: State, xs: seq<Struct>, st2: State)
    requires ReadStruct(PingFields, State(s, NEW_REFS)) == Ok((x, st1))
    requires ReadCounted(PingReplyFields, st1) == Ok((xs, st2))
    ensures ReadPing(s) == Ok((Ping(x, xs), st2.rest))
  {
  }

  lemma TracerouteOf(s: Bytes, x: Struct, st1: State, xs: seq<Struct>, st2: State, n: uint16, rest: Bytes)
    requires s != [] && ReadStruct(TracerouteFields, State(s, NEW_REFS)) == Ok((x, st1))
    requires ReadCounted(HopFields, st1) == Ok((xs, st2)) && ReadUint16(st2.rest) == Ok((n, rest))
    ensures ReadTraceroute(s) == Ok((Traceroute(x, xs), rest))
  {
  }

  lemma NoSuchFlag(t: Table, f: nat, l: Bytes, s: Bytes, refs: Refs)
    requires 1 <= f && t(f % 0x100).None? && |l| == 2
    ensures ReadStruct(t, State(OneBit(f) + (l + s), refs)) == Err(Malformed)
  {
    OneFront(f, l, s);
  }

  lemma NoFlags(t: Table, s: Bytes, refs: Refs)
    ensures ReadStruct(t, State([0] + s, refs)) == Ok((Struct([], map[]), State(s, refs)))
  {
    var none: Bytes := [0];
    assert IsBitmap(none) && Positions(none, 0) == [] by {
      NoBitsAtAll();
    }
    GetFlagsReadsBitmap(none, s);
    BitmapRead(none, [], s);
  }

  lemma NoBitsAtAll()
    ensures !IsSet(0, 8) && OneByte(0, 0, 1) == []
  {
    forall j: nat | 1 <= j <= 8 ensures !IsSet(0, j) {
      ZeroBits(j);
    }
    SkipTo(0, 0, 1, 8);
  }

  lemma OneStructOf(t: Table, st: State, st1: State, x: Struct)
    requires ReadStruct(t, st) == Ok((x, st1))
    ensures ReadStructs(t, 1, st) == Ok(([x], st1))
  {
    var read := (st': State) => ReadStruct(t, st');
    assert [] + [x] == [x];
    assert ReadMany(read, 0, [x], st1) == Ok(([x], st1));
  }
}
