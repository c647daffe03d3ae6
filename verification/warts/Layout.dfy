/** Records spelled out in bytes: which flag of which structure has which width, order and meaning, and where each
    number of a header, a list or a cycle is. The statements do not speak of the tables the readers are driven by. */
module WartsLayout {
  import Seqs
  import opened Common
  import opened WartsWire
  import opened WartsFlags
  import opened WartsAddress
  import opened WartsFields
  import opened WartsRecords
  import opened WartsBytes

  // ---------- the kinds of fields ----------

  ghost predicate KindMeans(k: Kind, b: Bytes, v: Value) {
    match k
    case U8 => IsNum(1, b, v)
    case U16 => IsNum(2, b, v)
    case U32 => IsNum(4, b, v)
    case TimeVal => IsTime(b, v)
    case Micros => IsMicros(b, v)
    case Reference => IsNoReference(b, v)
    case Addr => IsAddress(b, v)
    case AddrList => IsTwoAddresses(b, v)
    case Stamps => IsStamps(b, v)
    case Triple => IsTriple(b, v)
    case Data(_) => b == [] && v == Raw([])
    case Extensions => IsExtension(b, v)
    case Ignored => |b| == 8 && v == Dropped
  }

  lemma KindRead(k: Kind, b: Bytes, v: Value, s: Bytes) returns (refs: Refs)
    requires KindMeans(k, b, v)
    ensures ReadValue(k, map[], State(b + s, NEW_REFS)) == Ok((v, State(s, refs)))
  {
    refs := NEW_REFS;
    match k
    case U8 => NumRead(k, 1, b, v, map[], s, refs);
    case U16 => NumRead(k, 2, b, v, map[], s, refs);
    case U32 => NumRead(k, 4, b, v, map[], s, refs);
    case TimeVal => TimeRead(b, v, map[], s, refs);
    case Micros => MicrosRead(b, v, map[], s, refs);
    case Reference => ReferenceRead(b, v, map[], s, refs);
    case Addr =>
      AddressRead(b, v, map[], s);
      refs := After(b, v);
    case AddrList => refs := TwoAddressesRead(b, v, map[], s);
    case Stamps => refs := StampsRead(b, v, map[], s);
    case Triple => TripleRead(b, v, map[], s, refs);
    case Data(_) => assert b + s == s;
    case Extensions => ExtensionRead(b, v, map[], s, refs);
    case Ignored =>
      High(b[4..]);
      High(b[..4]);
      var sec: nat, usec := Number(b[..4]), if b[4] < 0x80 then Number(b[4..]) else Number(b[4..]) - 0x1_0000_0000;
      TimeRead(b, Time(sec, usec), map[], s, refs);
  }

  // ---------- which field each flag is ----------

  /** The field of flag f of a ping, in a record without addresses before it. */
  ghost predicate PingField(f: nat, b: Bytes, v: Value) {
    match f
    case 1 => IsNum(4, b, v)          // list id
    case 2 => IsNum(4, b, v)          // cycle id
    case 3 => IsNum(4, b, v)          // source id
    case 4 => IsNum(4, b, v)          // destination id
    case 5 => IsTime(b, v)            // start time
    case 6 => IsNum(1, b, v)          // stop reason
    case 7 => IsNum(1, b, v)          // stop data
    case 8 => IsNum(2, b, v)          // data length
    case 9 => b == [] && v == Raw([]) // data, without a data length
    case 10 => IsNum(2, b, v)         // probe count
    case 11 => IsNum(2, b, v)         // probe size
    case 12 => IsNum(1, b, v)         // probe wait in seconds
    case 13 => IsNum(1, b, v)         // probe TTL
    case 14 => IsNum(2, b, v)         // reply count
    case 15 => IsNum(2, b, v)         // pings sent
    case 16 => IsNum(1, b, v)         // ping method
    case 17 => IsNum(2, b, v)         // source port
    case 18 => IsNum(2, b, v)         // destination port
    case 19 => IsNum(4, b, v)         // user id
    case 20 => IsAddress(b, v)        // source
    case 21 => IsAddress(b, v)        // destination
    case 22 => IsNum(1, b, v)         // flags
    case 23 => IsNum(1, b, v)         // type of service
    case 24 => IsTwoAddresses(b, v)   // timestamp addresses
    case 25 => IsNum(2, b, v)         // ICMP checksum
    case 26 => IsNum(2, b, v)         // MTU
    case 27 => IsNum(1, b, v)         // probe timeout
    case 28 => IsNum(4, b, v)         // probe wait
    case _ => false
  }

  ghost predicate PingReplyField(f: nat, b: Bytes, v: Value) {
    match f
    case 1 => IsNum(4, b, v)          // destination id
    case 2 => IsNum(1, b, v)          // flags
    case 3 => IsNum(1, b, v)          // reply TTL
    case 4 => IsNum(2, b, v)          // reply size
    case 5 => IsNum(2, b, v)          // ICMP type and code
    case 6 => IsMicros(b, v)          // round-trip time
    case 7 => IsNum(2, b, v)          // probe id
    case 8 => IsNum(2, b, v)          // IP id of the reply
    case 9 => IsNum(2, b, v)          // IP id of the probe
    case 10 => IsNum(1, b, v)         // protocol
    case 11 => IsNum(1, b, v)         // TCP flags
    case 12 => IsAddress(b, v)        // address
    case 13 => IsTwoAddresses(b, v)   // record route
    case 14 => IsStamps(b, v)         // timestamps
    case 15 => IsNum(4, b, v)         // 32-bit IP id of the reply
    case 16 => IsTime(b, v)           // time sent
    case 17 => IsTriple(b, v)         // ICMP timestamps
    case _ => false
  }

  ghost predicate TracerouteField(f: nat, b: Bytes, v: Value) {
    match f
    case 1 => IsNum(4, b, v)          // list id
    case 2 => IsNum(4, b, v)          // cycle id
    case 3 => IsNoReference(b, v)     // source by reference
    case 4 => IsNoReference(b, v)     // destination by reference
    case 5 => IsTime(b, v)            // start time
    case 6 => IsNum(1, b, v)          // stop reason
    case 7 => IsNum(1, b, v)          // stop data
    case 8 => IsNum(1, b, v)          // flags
    case 9 => IsNum(1, b, v)          // attempts
    case 10 => IsNum(1, b, v)         // hop limit
    case 11 => IsNum(1, b, v)         // traceroute type
    case 12 => IsNum(2, b, v)         // probe size
    case 13 => IsNum(2, b, v)         // source port
    case 14 => IsNum(2, b, v)         // destination port
    case 15 => IsNum(1, b, v)         // first TTL
    case 16 => IsNum(1, b, v)         // type of service
    case 17 => IsNum(1, b, v)         // timeout in seconds
    case 18 => IsNum(1, b, v)         // loops
    case 19 => IsNum(2, b, v)         // hops probed
    case 20 => IsNum(1, b, v)         // gap limit
    case 21 => IsNum(1, b, v)         // gap action
    case 22 => IsNum(1, b, v)         // loop action
    case 23 => IsNum(2, b, v)         // probes sent
    case 24 => IsNum(1, b, v)         // least wait
    case 25 => IsNum(1, b, v)         // confidence
    case 26 => IsAddress(b, v)        // source
    case 27 => IsAddress(b, v)        // destination
    case 28 => IsNum(4, b, v)         // user id
    case _ => false
  }

  ghost predicate HopField(f: nat, b: Bytes, v: Value) {
    match f
    case 1 => IsNoReference(b, v)     // address by reference
    case 2 => IsNum(1, b, v)          // probe TTL
    case 3 => IsNum(1, b, v)          // reply TTL
    case 4 => IsNum(1, b, v)          // flags
    case 5 => IsNum(1, b, v)          // probe id
    case 6 => IsMicros(b, v)          // round-trip time
    case 7 => IsNum(2, b, v)          // ICMP type and code
    case 8 => IsNum(2, b, v)          // probe size
    case 9 => IsNum(2, b, v)          // reply size
    case 10 => IsNum(2, b, v)         // IP id
    case 11 => IsNum(1, b, v)         // type of service
    case 12 => IsNum(2, b, v)         // MTU of the next hop
    case 13 => IsNum(2, b, v)         // quoted IP length
    case 14 => IsNum(1, b, v)         // quoted TTL
    case 15 => IsNum(1, b, v)         // TCP flags
    case 16 => IsNum(1, b, v)         // quoted type of service
    case 17 => IsExtension(b, v)      // ICMP extensions
    case 18 => IsAddress(b, v)        // address
    case 19 => |b| == 8 && v == Dropped // time sent, which is not kept
    case _ => false
  }

  lemma PingKind(f: nat, b: Bytes, v: Value)
    requires PingField(f, b, v)
    ensures 1 <= f <= 28 && PingFields(f).Some? && KindMeans(PingFields(f).value, b, v)
  {
  }

  lemma PingReplyKind(f: nat, b: Bytes, v: Value)
    requires PingReplyField(f, b, v)
    ensures 1 <= f <= 17 && PingReplyFields(f).Some? && KindMeans(PingReplyFields(f).value, b, v)
  {
  }

  lemma TracerouteKind(f: nat, b: Bytes, v: Value)
    requires TracerouteField(f, b, v)
    ensures 1 <= f <= 28 && TracerouteFields(f).Some? && KindMeans(TracerouteFields(f).value, b, v)
  {
  }

  lemma HopKind(f: nat, b: Bytes, v: Value)
    requires HopField(f, b, v)
    ensures 1 <= f <= 19 && HopFields(f).Some? && KindMeans(HopFields(f).value, b, v)
  {
  }

  // ---------- records of one field ----------

  lemma NoneCounted(t: Table, rest: Bytes, refs: Refs)
    ensures ReadCounted(t, State([0, 0] + rest, refs)) == Ok(([], State(rest, refs)))
  {
    var n: Bytes := [0, 0];
    assert Number(n) == 0 by { NumberSmall(n); }
    Read2(n, rest);
  }

  lemma OneCounted(t: Table, s: Bytes, refs: Refs, x: Struct, st1: State)
    requires ReadStruct(t, State(s, refs)) == Ok((x, st1))
    ensures ReadCounted(t, State([0, 1] + s, refs)) == Ok(([x], st1))
  {
    var n: Bytes := [0, 1];
    assert Number(n) == 1 by { NumberSmall(n); }
    Read2(n, s);
    OneStructOf(t, State(s, refs), st1, x);
  }

  /** A ping with a single flag and no replies: bitmap, two bytes of length that are not looked at, the field's bytes,
      and the number of replies. */
  lemma PingFlag(f: nat, l: Bytes, b: Bytes, v: Value, rest: Bytes)
    requires PingField(f, b, v) && |l| == 2
    ensures ReadPing(OneBit(f) + (l + (b + ([0, 0] + rest)))) == Ok((Ping(Struct([f], map[f := v]), []), rest))
  {
    PingKind(f, b, v);
    var refs := KindRead(PingFields(f).value, b, v, [0, 0] + rest);
    FieldsOne(PingFields, f, PingFields(f).value, v, State(b + ([0, 0] + rest), NEW_REFS), State([0, 0] + rest, refs));
    OneStruct(PingFields, f, l, b + ([0, 0] + rest), NEW_REFS, map[f := v], State([0, 0] + rest, refs));
    NoneCounted(PingReplyFields, rest, refs);
    PingOf(OneBit(f) + (l + (b + ([0, 0] + rest))), Struct([f], map[f := v]), State([0, 0] + rest, refs), [], State(rest, refs));
  }

  /** A ping without flags and with one reply that has a single flag. */
  lemma PingReplyFlag(f: nat, l: Bytes, b: Bytes, v: Value, rest: Bytes)
    requires PingReplyField(f, b, v) && |l| == 2
    ensures ReadPing([0] + ([0, 1] + (OneBit(f) + (l + (b + rest)))))
         == Ok((Ping(Struct([], map[]), [Struct([f], map[f := v])]), rest))
  {
    PingReplyKind(f, b, v);
    var refs := KindRead(PingReplyFields(f).value, b, v, rest);
    FieldsOne(PingReplyFields, f, PingReplyFields(f).value, v, State(b + (rest), NEW_REFS), State(rest, refs));
    OneStruct(PingReplyFields, f, l, b + (rest), NEW_REFS, map[f := v], State(rest, refs));
    var s := OneBit(f) + (l + (b + rest));
    OneCounted(PingReplyFields, s, NEW_REFS, Struct([f], map[f := v]), State(rest, refs));
    NoFlags(PingFields, [0, 1] + s, NEW_REFS);
    PingOf([0] + ([0, 1] + s), Struct([], map[]), State([0, 1] + s, NEW_REFS), [Struct([f], map[f := v])], State(rest, refs));
  }

  /** A traceroute with a single flag and no hops; two bytes end it. */
  lemma TracerouteFlag(f: nat, l: Bytes, b: Bytes, v: Value, end: Bytes, rest: Bytes)
    requires TracerouteField(f, b, v) && |l| == 2 && |end| == 2
    ensures ReadTraceroute(OneBit(f) + (l + (b + ([0, 0] + (end + rest)))))
         == Ok((Traceroute(Struct([f], map[f := v]), []), rest))
  {
    TracerouteKind(f, b, v);
    var refs := KindRead(TracerouteFields(f).value, b, v, [0, 0] + (end + rest));
    FieldsOne(TracerouteFields, f, TracerouteFields(f).value, v, State(b + ([0, 0] + (end + rest)), NEW_REFS), State([0, 0] + (end + rest), refs));
    OneStruct(TracerouteFields, f, l, b + ([0, 0] + (end + rest)), NEW_REFS, map[f := v], State([0, 0] + (end + rest), refs));
    NoneCounted(HopFields, end + rest, refs);
    Read2(end, rest);
    TracerouteOf(OneBit(f) + (l + (b + ([0, 0] + (end + rest)))), Struct([f], map[f := v]),
                 State([0, 0] + (end + rest), refs), [], State(end + rest, refs), Number(end), rest);
  }

  /** A traceroute without flags and with one hop that has a single flag. */
  lemma HopFlag(f: nat, l: Bytes, b: Bytes, v: Value, end: Bytes, rest: Bytes)
    requires HopField(f, b, v) && |l| == 2 && |end| == 2
    ensures ReadTraceroute([0] + ([0, 1] + (OneBit(f) + (l + (b + (end + rest))))))
         == Ok((Traceroute(Struct([], map[]), [Struct([f], map[f := v])]), rest))
  {
    HopKind(f, b, v);
    var refs := KindRead(HopFields(f).value, b, v, end + rest);
    FieldsOne(HopFields, f, HopFields(f).value, v, State(b + (end + rest), NEW_REFS), State(end + rest, refs));
    OneStruct(HopFields, f, l, b + (end + rest), NEW_REFS, map[f := v], State(end + rest, refs));
    var s := OneBit(f) + (l + (b + (end + rest)));
    OneCounted(HopFields, s, NEW_REFS, Struct([f], map[f := v]), State(end + rest, refs));
    NoFlags(TracerouteFields, [0, 1] + s, NEW_REFS);
    Read2(end, rest);
    TracerouteOf([0] + ([0, 1] + s), Struct([], map[]), State([0, 1] + s, NEW_REFS), [Struct([f], map[f := v])],
                 State(end + rest, refs), Number(end), rest);
  }

  /** Flags up to 256 that no field has are errors; from 257 on a flag is read as the one 256 below it. */
  lemma OtherFlags(f: nat, l: Bytes, s: Bytes)
    requires 18 <= f <= 256 && |l| == 2
    ensures f > 28 ==> ReadPing(OneBit(f) + (l + s)) == Err(Malformed)
    ensures ReadPing([0] + ([0, 1] + (OneBit(f) + (l + s)))) == Err(Malformed)
    ensures f > 28 ==> ReadTraceroute(OneBit(f) + (l + s)) == Err(Malformed)
    ensures f > 19 ==> ReadTraceroute([0] + ([0, 1] + (OneBit(f) + (l + s)))) == Err(Malformed)
  {
    NoKinds(f);
    if f > 28 {
      OtherFlag(f, l, s);
    }
    NoSuchFlag(PingReplyFields, f, l, s, NEW_REFS);
    PingRepliesFail(OneBit(f) + (l + s));
    if f > 19 {
      NoSuchFlag(HopFields, f, l, s, NEW_REFS);
      HopsFail(OneBit(f) + (l + s));
    }
  }

  lemma OtherFlag(f: nat, l: Bytes, s: Bytes)
    requires 29 <= f <= 256 && |l| == 2
    ensures ReadPing(OneBit(f) + (l + s)) == Err(Malformed)
    ensures ReadTraceroute(OneBit(f) + (l + s)) == Err(Malformed)
  {
    NoKinds(f);
    NoSuchFlag(PingFields, f, l, s, NEW_REFS);
    PingFails(OneBit(f) + (l + s));
    NoSuchFlag(TracerouteFields, f, l, s, NEW_REFS);
    TracerouteFails(OneBit(f) + (l + s));
  }

  lemma NoKinds(f: nat)
    requires 18 <= f <= 256
    ensures PingReplyFields(f % 0x100).None? && (f > 19 ==> HopFields(f % 0x100).None?)
    ensures f > 28 ==> PingFields(f % 0x100).None? && TracerouteFields(f % 0x100).None?
  {
    if f < 256 {
      SmallFlag(f);
    }
  }

  lemma PingFails(s: Bytes)
    requires ReadStruct(PingFields, State(s, NEW_REFS)) == Err(Malformed)
    ensures ReadPing(s) == Err(Malformed)
  {
  }

  lemma TracerouteFails(s: Bytes)
    requires s != [] && ReadStruct(TracerouteFields, State(s, NEW_REFS)) == Err(Malformed)
    ensures ReadTraceroute(s) == Err(Malformed)
  {
  }

  lemma PingRepliesFail(s: Bytes)
    requires ReadStruct(PingReplyFields, State(s, NEW_REFS)) == Err(Malformed)
    ensures ReadPing([0] + ([0, 1] + s)) == Err(Malformed)
  {
    NoFlags(PingFields, [0, 1] + s, NEW_REFS);
    CountedFails(PingReplyFields, s, NEW_REFS);
  }

  lemma HopsFail(s: Bytes)
    requires ReadStruct(HopFields, State(s, NEW_REFS)) == Err(Malformed)
    ensures ReadTraceroute([0] + ([0, 1] + s)) == Err(Malformed)
  {
    NoFlags(TracerouteFields, [0, 1] + s, NEW_REFS);
    CountedFails(HopFields, s, NEW_REFS);
  }

  lemma CountedFails(t: Table, s: Bytes, refs: Refs)
    requires ReadStruct(t, State(s, refs)) == Err(Malformed)
    ensures ReadCounted(t, State([0, 1] + s, refs)) == Err(Malformed)
  {
    var n: Bytes := [0, 1];
    assert Number(n) == 1 by { NumberSmall(n); }
    Read2(n, s);
  }

  // ---------- several fields, and references ----------

  /** Fields follow in the order of their flags: the data length of flag 8, then that many bytes for flag 9. */
  lemma PingData(l: Bytes, n: Bytes, d: Bytes, rest: Bytes)
    requires |l| == 2 && |n| == 2 && |d| == Number(n)
    ensures ReadPing([0x80, 3] + (l + (n + (d + ([0, 0] + rest)))))
         == Ok((Ping(Struct([8, 9], map[8 := Num(|d|), 9 := Raw(d)]), []), rest))
  {
    var s := d + ([0, 0] + rest);
    var both: Fields := map[8 := Num(|d|), 9 := Raw(d)];
    var st1 := State([0, 0] + rest, NEW_REFS);
    DataFront(l, n + s);
    DataFields(n, d, [0, 0] + rest);
    StructOf(PingFields, State([0x80, 3] + (l + (n + s)), NEW_REFS), [8, 9], n + s, both, st1);
    NoneCounted(PingReplyFields, rest, NEW_REFS);
    PingOf([0x80, 3] + (l + (n + s)), Struct([8, 9], both), st1, [], State(rest, NEW_REFS));
  }

  lemma DataFields(n: Bytes, d: Bytes, s: Bytes)
    requires |n| == 2 && |d| == Number(n)
    ensures ReadFields(PingFields, [8, 9], map[], State(n + (d + s), NEW_REFS))
         == Ok((map[8 := Num(|d|), 9 := Raw(d)], State(s, NEW_REFS)))
  {
    Read2(n, d + s);
    DataRoundTrip(d, s);
    var st, st1, st2 := State(n + (d + s), NEW_REFS), State(d + s, NEW_REFS), State(s, NEW_REFS);
    DataRead(map[8 := Num(|d|)], d, st1, st2);
    NumRead(U16, 2, n, Num(|d|), map[], d + s, NEW_REFS);
    FieldsTwo(PingFields, 8, Num(|d|), 9, Raw(d), st, st1, st2);
  }

  lemma DataRead(seen: Fields, d: Bytes, st: State, st1: State)
    requires 8 in seen && seen[8] == Num(|d|) && ReadBytes(st.rest, |d|) == Ok((d, st1.rest)) && st1.refs == st.refs
    ensures ReadValue(Data(8), seen, st) == Ok((Raw(d), st1))
  {
  }

  lemma DataBitmap()
    ensures var b: Bytes := [0x80, 3]; IsBitmap(b) && Wrap(Positions(b, 0)) == [8, 9]
  {
    var b: Bytes := [0x80, 3];
    assert b[1..] == [3] && b[1..][1..] == [];
    NoBits(0);
    forall j: nat | 3 <= j <= 8 ensures !IsSet(3, j) {
      ZeroBits(j - 2);
    }
    SkipTo(3, 7, 3, 8);
    assert OneByte(3, 7, 2) == [9] + OneByte(3, 7, 3) && OneByte(3, 7, 1) == [8] + OneByte(3, 7, 2);
    assert Positions([3], 7) == [8, 9];
    assert b[0] == 0x80 && Positions(b, 0) == OneByte(0x80, 0, 1) + Positions([3], 7);
    assert Positions(b, 0) == [] + [8, 9] == [8, 9];
    assert Small([8, 9]);
    WrapExactIff([8, 9]);
  }

  lemma DataFront(l: Bytes, s: Bytes)
    requires |l| == 2
    ensures ReadFront([0x80, 3] + (l + s)) == Ok(([8, 9], s))
  {
    var b: Bytes := [0x80, 3];
    DataBitmap();
    GetFlagsReadsBitmap(b, l + s);
    BitmapRead(b, [8, 9], l + s);
    Read2(l, s);
  }

  /** References count the inline addresses of the record from 0: a hop with reference 0 has the address that flag 26 of
      the traceroute gave inline. */
  lemma HopReference(l: Bytes, b: Bytes, a: Address, l': Bytes, end: Bytes, rest: Bytes)
    requires IsInline(b, a) && |l| == 2 && |l'| == 2 && |end| == 2
    ensures ReadTraceroute(OneBit(26) + (l + (b + ([0, 1] + (OneBit(1) + (l' + ([0, 0, 0, 0] + (end + rest))))))))
         == Ok((Traceroute(Struct([26], map[26 := At(a)]), [Struct([1], map[1 := At(a)])]), rest))
  {
    var s := OneBit(1) + (l' + ([0, 0, 0, 0] + (end + rest)));
    var refs := NEW_REFS.Add(a);
    InlineRead(b, a, [0, 1] + s, NEW_REFS);
    AddrOf(map[], State(b + ([0, 1] + s), NEW_REFS), a, State([0, 1] + s, refs));
    FieldsOne(TracerouteFields, 26, Addr, At(a), State(b + ([0, 1] + s), NEW_REFS), State([0, 1] + s, refs));
    OneStruct(TracerouteFields, 26, l, b + ([0, 1] + s), NEW_REFS, map[26 := At(a)], State([0, 1] + s, refs));
    HopZero(refs, a, l', end + rest);
    OneCounted(HopFields, s, refs, Struct([1], map[1 := At(a)]), State(end + rest, refs));
    Read2(end, rest);
    TracerouteOf(OneBit(26) + (l + (b + ([0, 1] + s))), Struct([26], map[26 := At(a)]), State([0, 1] + s, refs),
                 [Struct([1], map[1 := At(a)])], State(end + rest, refs), Number(end), rest);
  }

  lemma AddrOf(seen: Fields, st: State, a: Address, st1: State)
    requires ReadAddress(st) == Ok((a, st1))
    ensures ReadValue(Addr, seen, st) == Ok((At(a), st1))
  {
  }

  lemma HopZero(refs: Refs, a: Address, l: Bytes, s: Bytes)
    requires refs.Get(0) == a && |l| == 2
    ensures ReadStruct(HopFields, State(OneBit(1) + (l + ([0, 0, 0, 0] + s)), refs))
         == Ok((Struct([1], map[1 := At(a)]), State(s, refs)))
  {
    var zero: Bytes := [0, 0, 0, 0];
    assert Number(zero) == 0 by { NumberSmall(zero); }
    Read4(zero, s);
    FieldsOne(HopFields, 1, Reference, At(a), State(zero + s, refs), State(s, refs));
    OneStruct(HopFields, 1, l, zero + s, refs, map[1 := At(a)], State(s, refs));
  }

  // ---------- the other records ----------

  ghost function Number16(b: Bytes): uint16
    requires |b| == 2
  {
    NumberSmall(b);
    Number(b)
  }

  ghost function Number32(b: Bytes): uint32
    requires |b| == 4
  {
    NumberSmall(b);
    Number(b)
  }

  /** Magic, type and length, two, two and four bytes; the type says what follows. */
  lemma RecordBytes(magic: Bytes, t: Bytes, n: Bytes, s: Bytes)
    requires |magic| == 2 && |t| == 2 && |n| == 4
    ensures ReadRecord(magic + (t + (n + s))) ==
      if magic != [0x12, 0x05] then Err(Malformed)
      else if t == [0, 1] then ReadList(s)
      else if t == [0, 2] || t == [0, 3] then ReadCycle(s)
      else if t == [0, 4] then ReadCycleStop(s)
      else if t == [0, 6] then ReadTraceroute(s)
      else if t == [0, 7] then ReadPing(s)
      else Ok((Header(Number16(t), Number32(n)), s))
  {
    var b := magic + t + n;
    assert magic + (t + (n + s)) == b + s;
    DataRoundTrip(b, s);
    assert b[..2] == magic && b[2..4] == t && b[4..8] == n;
    NumberSmall(t);
    NumberSmall(n);
    TwoBytes(t);
    TwoBytes(magic);
    HeaderOf(b, s);
  }

  lemma TwoBytes(t: Bytes)
    requires |t| == 2
    ensures GetUint16(t) == 0x1205 <==> t == [0x12, 0x05]
    ensures forall n: uint8 :: GetUint16(t) == n as int <==> t == [0, n]
  {
    assert t == [t[0], t[1]];
  }

  lemma HeaderOf(b: Bytes, s: Bytes)
    requires |b| == 8 && ReadBytes(b + s, 8) == Ok((b, s))
    ensures ReadHeader(b + s) ==
      if GetUint16(b[..2]) != 0x1205 then Err(Malformed) else Ok((Header(GetUint16(b[2..4]), GetUint32(b[4..8])), s))
  {
  }

  lemma Words2(a: Bytes, c: Bytes, s: Bytes)
    requires |a| == 4 && |c| == 4
    ensures ReadBytes(a + (c + s), 8) == Ok((a + c, s)) && (a + c)[..4] == a && (a + c)[4..] == c
    ensures Number(a) == GetUint32(a) && Number(c) == GetUint32(c)
  {
    NumberSmall(a);
    NumberSmall(c);
    Seqs.Assoc(a, c, s);
    DataRoundTrip(a + c, s);
  }

  /** What follows the name of a list: a flags byte, and behind two bytes of length the description (bit 1) and then the
      monitor (bit 2). Strings end with a zero. */
  ghost function ListTail(flag: uint8, l: Bytes, d: Bytes, m: Bytes, rest: Bytes): Bytes {
    if flag == 0 then [0] + rest
    else if flag == 1 then [1] + (l + (d + [0] + rest))
    else if flag == 2 then [2] + (l + (m + [0] + rest))
    else [3] + (l + (d + [0] + (m + [0] + rest)))
  }

  /** A list: two ids, the name and its end, and the rest. */
  lemma ListBytes(a: Bytes, c: Bytes, name: Bytes, flag: uint8, l: Bytes, d: Bytes, m: Bytes, rest: Bytes)
    requires |a| == 4 && |c| == 4 && |l| == 2 && ZeroFree(name) && ZeroFree(d) && ZeroFree(m) && flag < 4
    ensures ReadList(a + (c + (name + [0] + ListTail(flag, l, d, m, rest)))) == Ok((
      List(Number32(a), Number32(c), name, if flag == 0 then 0 else Number16(l), if flag in {1, 3} then d else [],
           if flag in {2, 3} then m else []), rest))
  {
    ListEnd(flag, l, d, m, rest);
    var tail := ListTail(flag, l, d, m, rest);
    Words2(a, c, name + [0] + tail);
    StringRoundTrip(name, [], tail);
    assert [] + name == name;
  }

  lemma TwoBits(flag: nat)
    requires flag < 4
    ensures IsSet(flag, 1) <==> flag in {1, 3}
    ensures IsSet(flag, 2) <==> flag in {2, 3}
  {
  }

  lemma ListEnd(flag: uint8, l: Bytes, d: Bytes, m: Bytes, rest: Bytes)
    requires flag < 4 && |l| == 2 && ZeroFree(d) && ZeroFree(m)
    ensures ReadListFlags(ListTail(flag, l, d, m, rest))
         == Ok(((if flag == 0 then 0 else Number16(l), if flag in {1, 3} then d else [], if flag in {2, 3} then m else []), rest))
  {
    TwoBits(flag as nat);
    var s := if flag == 1 then d + [0] + rest else if flag == 2 then m + [0] + rest else d + [0] + (m + [0] + rest);
    Seqs.Cons(flag, if flag == 0 then rest else l + s);
    Read2(l, s);
    StringRoundTrip(d, [], if flag == 1 then rest else m + [0] + rest);
    StringRoundTrip(m, [], rest);
    Seqs.NoneLeft(d);
    Seqs.NoneLeft(m);
  }

  /** What follows the four words of a cycle's start: a flags byte, and behind two bytes of length the stop time (bit 1)
      and then the host name (bit 2). */
  ghost function CycleTail(flag: uint8, l: Bytes, t: Bytes, h: Bytes, rest: Bytes): Bytes {
    if flag == 0 then [0] + rest
    else if flag == 1 then [1] + (l + (t + rest))
    else if flag == 2 then [2] + (l + (h + [0] + rest))
    else [3] + (l + (t + (h + [0] + rest)))
  }

  /** The start of a cycle: its id, the list's, the controller's, the start time, and the rest. */
  lemma CycleBytes(a: Bytes, c: Bytes, e: Bytes, g: Bytes, flag: uint8, l: Bytes, t: Bytes, h: Bytes, rest: Bytes)
    requires |a| == 4 && |c| == 4 && |e| == 4 && |g| == 4 && |l| == 2 && |t| == 4 && ZeroFree(h) && flag < 4
    ensures ReadCycle(a + (c + (e + (g + CycleTail(flag, l, t, h, rest))))) == Ok((
      CycleStart(Number32(a), Number32(c), Number32(e), Number32(g), if flag == 0 then 0 else Number16(l),
                 if flag in {1, 3} then Number32(t) else 0, if flag in {2, 3} then h else []), rest))
  {
    CycleEnd(flag, l, t, h, rest);
    Words4(a, c, e, g, CycleTail(flag, l, t, h, rest));
  }

  lemma Words4(a: Bytes, c: Bytes, e: Bytes, g: Bytes, s: Bytes)
    requires |a| == 4 && |c| == 4 && |e| == 4 && |g| == 4
    ensures var b := a + c + e + g;
      && ReadBytes(a + (c + (e + (g + s))), 16) == Ok((b, s))
      && GetUint32(b[..4]) == Number32(a) && GetUint32(b[4..8]) == Number32(c)
      && GetUint32(b[8..12]) == Number32(e) && GetUint32(b[12..]) == Number32(g)
  {
    var b := a + c + e + g;
    assert a + (c + (e + (g + s))) == b + s;
    DataRoundTrip(b, s);
    assert b[..4] == a && b[4..8] == c && b[8..12] == e && b[12..] == g;
    NumberSmall(a);
    NumberSmall(c);
    NumberSmall(e);
    NumberSmall(g);
  }

  lemma CycleEnd(flag: uint8, l: Bytes, t: Bytes, h: Bytes, rest: Bytes)
    requires flag < 4 && |l| == 2 && |t| == 4 && ZeroFree(h)
    ensures ReadCycleStartFlags(CycleTail(flag, l, t, h, rest)) == Ok((
      (if flag == 0 then 0 else Number16(l), if flag in {1, 3} then Number32(t) else 0, if flag in {2, 3} then h else []), rest))
  {
    TwoBits(flag as nat);
    var host := if flag == 1 then rest else h + [0] + rest;
    var s := if flag == 2 then host else t + host;
    Seqs.Cons(flag, if flag == 0 then rest else l + s);
    Read2(l, s);
    Read4(t, host);
    StringRoundTrip(h, [], rest);
    Seqs.NoneLeft(h);
  }

  /** The end of a cycle: its id, the stop time, and a byte that is not looked at. */
  lemma CycleStopBytes(a: Bytes, c: Bytes, flag: uint8, rest: Bytes)
    requires |a| == 4 && |c| == 4
    ensures ReadCycleStop(a + (c + ([flag] + rest))) == Ok((CycleStop(Number32(a), Number32(c)), rest))
  {
    Words2(a, c, [flag] + rest);
    Seqs.Cons(flag, rest);
  }

  /** Parse keeps a record when its type is asked for; both types of a cycle's start count as 2, and records that are
      not read as 0. */
  lemma ParseOne(types: set<uint32>, s: Bytes, r: Record)
    requires ReadRecord(s) == Ok((r, []))
    ensures Parse(types, [], s) == Ok(
      if (match r
          case List(_, _, _, _, _, _) => 1 in types
          case CycleStart(_, _, _, _, _, _, _) => 2 in types
          case CycleStop(_, _) => 4 in types
          case Traceroute(_, _) => 6 in types
          case Ping(_, _) => 7 in types
          case Header(_, _) => 0 in types) then [r] else [])
  {
    var kept := if TypeOf(r) in types then [] + [r] else [];
    assert ReadRecord([]) == Err(Eof);
    assert Parse(types, kept, []) == Ok(kept);
    assert [] + [r] == [r];
  }

  // ---------- a whole file ----------

  lemma TtlBitmap()
    ensures var b: Bytes := [0x0C]; IsBitmap(b) && Wrap(Positions(b, 0)) == [3, 4]
  {
    var b: Bytes := [0x0C];
    forall j: nat | 5 <= j <= 8 ensures !IsSet(12, j) {
      ZeroBits(j - 4);
      assert IsSet(12, j) == IsSet(6, j - 1) && IsSet(6, j - 1) == IsSet(3, j - 2) && IsSet(3, j - 2) == IsSet(0, j - 4);
    }
    SkipTo(12, 0, 1, 3);
    SkipTo(12, 0, 5, 8);
    assert OneByte(12, 0, 4) == [4] + OneByte(12, 0, 5) && OneByte(12, 0, 3) == [3] + OneByte(12, 0, 4);
    assert b[1..] == [] && Positions(b, 0) == [3, 4] + [] == [3, 4];
    assert Small([3, 4]);
    WrapExactIff([3, 4]);
  }

  lemma TtlReply(l: Bytes, ttl: Bytes, size: Bytes, s: Bytes)
    requires |l| == 2 && |ttl| == 1 && |size| == 2
    ensures ReadStruct(PingReplyFields, State([0x0C] + (l + (ttl + (size + s))), NEW_REFS))
         == Ok((Struct([3, 4], map[3 := Num(Number(ttl)), 4 := Num(Number(size))]), State(s, NEW_REFS)))
  {
    var b: Bytes := [0x0C];
    var st, st1, st2 := State(ttl + (size + s), NEW_REFS), State(size + s, NEW_REFS), State(s, NEW_REFS);
    var v, w := Num(Number(ttl)), Num(Number(size));
    TtlBitmap();
    GetFlagsReadsBitmap(b, l + st.rest);
    BitmapRead(b, [3, 4], l + st.rest);
    Read2(l, st.rest);
    NumRead(U8, 1, ttl, v, map[], size + s, NEW_REFS);
    NumRead(U16, 2, size, w, map[3 := v], s, NEW_REFS);
    FieldsTwo(PingReplyFields, 3, v, 4, w, st, st1, st2);
    StructFrom(PingReplyFields, b + (l + st.rest), [3, 4], st.rest, NEW_REFS, map[3 := v, 4 := w], st2);
  }

  /** A file that holds one ping with one reply, which carries a TTL and a size. */
  lemma PingFile(n: Bytes, l: Bytes, ttl: Bytes, size: Bytes)
    requires |n| == 4 && |l| == 2 && |ttl| == 1 && |size| == 2
    ensures Parse({7}, [], [0x12, 0x05] + ([0, 7] + (n + ([0] + ([0, 1] + ([0x0C] + (l + (ttl + (size + []))))))))) ==
      Ok([Ping(Struct([], map[]), [Struct([3, 4], map[3 := Num(Number(ttl)), 4 := Num(Number(size))])])])
  {
    var reply := [0x0C] + (l + (ttl + (size + [])));
    var x := Struct([3, 4], map[3 := Num(Number(ttl)), 4 := Num(Number(size))]);
    TtlReply(l, ttl, size, []);
    OneCounted(PingReplyFields, reply, NEW_REFS, x, State([], NEW_REFS));
    NoFlags(PingFields, [0, 1] + reply, NEW_REFS);
    PingOf([0] + ([0, 1] + reply), Struct([], map[]), State([0, 1] + reply, NEW_REFS), [x], State([], NEW_REFS));
    RecordBytes([0x12, 0x05], [0, 7], n, [0] + ([0, 1] + reply));
    ParseOne({7}, [0x12, 0x05] + ([0, 7] + (n + ([0] + ([0, 1] + reply)))), Ping(Struct([], map[]), [x]));
  }
}
