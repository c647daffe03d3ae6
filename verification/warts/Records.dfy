/** Records, the file parser, and the theorem that it undoes the reference encoding. */
module WartsRecords {
  import Seqs
  import opened Common
  import opened WartsWire
  import opened WartsFlags
  import opened WartsAddress
  import opened WartsFields
  import opened WartsFrame

  datatype Record =
    | List(listId: uint32, cListId: uint32, name: Bytes, pLength: uint16, description: Bytes, monitor: Bytes)
    | CycleStart(cycleId: uint32, listOfCycle: uint32, cCycleId: uint32, startTime: uint32, pLength: uint16,
                 stopTime: uint32, hostname: Bytes)
    | CycleStop(cycleId: uint32, stopTime: uint32)
    | Ping(pingFlags: Struct, replies: seq<Struct>)
    | Traceroute(traceFlags: Struct, hops: seq<Struct>)
    | Header(typ: uint16, length: uint32)   // a record of another type: its body is not skipped

  /** getWartsT */
  function TypeOf(r: Record): uint32 {
    match r
    case List(_, _, _, _, _, _) => 1
    case CycleStart(_, _, _, _, _, _, _) => 2
    case CycleStop(_, _) => 4
    case Ping(_, _) => 7
    case Traceroute(_, _) => 6
    case Header(_, _) => 0
  }

  // ---------- reading ----------

  function ReadHeader(s: Bytes): (r: Res<(Record, Bytes)>)
    ensures r.Ok? ==> r.value.0.Header? && |r.value.1| + 8 == |s|
  {
    var (b, s1) :- ReadBytes(s, 8);
    if GetUint16(b[..2]) != 0x1205 then Err(Malformed)
    else Ok((Header(GetUint16(b[2..4]), GetUint32(b[4..8])), s1))
  }

  function StringIf(present: bool, s: Bytes): Res<(Bytes, Bytes)> {
    if present then GetString(s, []) else Ok(([], s))
  }

  function Uint32If(present: bool, s: Bytes): Res<(uint32, Bytes)> {
    if present then ReadUint32(s) else Ok((0, s))
  }

  /** readListFlags: an unterminated string ends the list without an error and leaves nothing to read. */
  function ReadListFlags(s: Bytes): Res<((uint16, Bytes, Bytes), Bytes)> {
    var (flag, s1) :- Wrapped(ReadOne(s));
    var hasDescription, hasMonitor := IsSet(flag as nat, 1), IsSet(flag as nat, 2);
    if !hasDescription && !hasMonitor then Ok(((0, [], []), s1))
    else
      var (length, s2) :- ReadUint16(s1);
      var description := StringIf(hasDescription, s2);
      if description.Err? then Ok(((length, [], []), []))
      else
        var monitor := StringIf(hasMonitor, description.value.1);
        if monitor.Err? then Ok(((length, description.value.0, []), []))
        else Ok(((length, description.value.0, monitor.value.0), monitor.value.1))
  }

  function ReadList(s: Bytes): Res<(Record, Bytes)> {
    var (ids, s1) :- ReadBytes(s, 8);
    var (name, s2) :- GetString(s1, []);
    var (f, s3) :- ReadListFlags(s2);
    Ok((List(GetUint32(ids[..4]), GetUint32(ids[4..]), name, f.0, f.1, f.2), s3))
  }

  function ReadCycleStartFlags(s: Bytes): Res<((uint16, uint32, Bytes), Bytes)> {
    var (flag, s1) :- Wrapped(ReadOne(s));
    var hasStop, hasHost := IsSet(flag as nat, 1), IsSet(flag as nat, 2);
    if !hasStop && !hasHost then Ok(((0, 0, []), s1))
    else
      var (length, s2) :- ReadUint16(s1);
      var (stop, s3) :- Uint32If(hasStop, s2);
      var (host, s4) :- StringIf(hasHost, s3);
      Ok(((length, stop, host), s4))
  }

  function ReadCycle(s: Bytes): Res<(Record, Bytes)> {
    var (b, s1) :- ReadBytes(s, 16);
    var (f, s2) :- ReadCycleStartFlags(s1);
    Ok((CycleStart(GetUint32(b[..4]), GetUint32(b[4..8]), GetUint32(b[8..12]), GetUint32(b[12..]), f.0, f.1, f.2), s2))
  }

  function ReadCycleStop(s: Bytes): Res<(Record, Bytes)> {
    var (b, s1) :- ReadBytes(s, 8);
    var (_, s2) :- ReadOne(s1);
    Ok((CycleStop(GetUint32(b[..4]), GetUint32(b[4..])), s2))
  }

  /** A count and that many structures. */
  function ReadCounted(t: Table, st: State): Res<(seq<Struct>, State)> {
    var (count, s1) :- ReadUint16(st.rest);
    ReadStructs(t, count, st.(rest := s1))
  }

  /** The flags of a ping or traceroute, and the counted structures behind them. */
  function ReadItems(flags: Res<(Struct, State)>, t: Table): Res<((Struct, seq<Struct>), State)> {
    var (x, st1) :- flags;
    var (xs, st2) :- ReadCounted(t, st1);
    Ok(((x, xs), st2))
  }

  function ReadPing(s: Bytes): Res<(Record, Bytes)> {
    var (p, st1) :- ReadItems(ReadStruct(PingFields, State(s, NEW_REFS)), PingReplyFields);
    Ok((Ping(p.0, p.1), st1.rest))
  }

  /** readTracerouteFlags: when nothing is left it reports no error and no flags. */
  function ReadTracerouteFlags(st: State): Res<(Struct, State)> {
    if st.rest == [] then Ok((Struct([], map[]), st)) else ReadStruct(TracerouteFields, st)
  }

  function ReadTraceroute(s: Bytes): Res<(Record, Bytes)> {
    var (p, st1) :- ReadItems(ReadTracerouteFlags(State(s, NEW_REFS)), HopFields);
    var (_, s2) :- ReadUint16(st1.rest);
    Ok((Traceroute(p.0, p.1), s2))
  }

  function ReadBody(h: Record, s: Bytes): Res<(Record, Bytes)>
    requires h.Header?
  {
    if h.typ == 1 then ReadList(s)
    else if h.typ == 2 || h.typ == 3 then ReadCycle(s)
    else if h.typ == 4 then ReadCycleStop(s)
    else if h.typ == 6 then ReadTraceroute(s)
    else if h.typ == 7 then ReadPing(s)
    else Ok((h, s))
  }

  /** parseNext */
  function ReadRecord(s: Bytes): Res<(Record, Bytes)> {
    var (h, s1) :- ReadHeader(s);
    ReadBody(h, s1)
  }

  // ---------- a record depends only on its own bytes ----------

  lemma StringIfFrame(present: bool, s: Bytes, u: Bytes)
    requires StringIf(present, s).Ok?
    ensures var (b, s1) := StringIf(present, s).value; Behind(s, s1) && StringIf(present, Used(s, s1) + u) == Ok((b, u))
  {
    if present {
      StringFrame(s, [], u);
    } else {
      UsedNone(s, u);
    }
  }

  lemma Uint32IfFrame(present: bool, s: Bytes, u: Bytes)
    requires Uint32If(present, s).Ok?
    ensures var (n, s1) := Uint32If(present, s).value; Behind(s, s1) && Uint32If(present, Used(s, s1) + u) == Ok((n, u))
  {
    if present {
      Uint32Frame(s, u);
    } else {
      UsedNone(s, u);
    }
  }

  /** A string that the flags of a list announce has no end: the list is read without it all the same. */
  predicate OpenStrings(s: Bytes) {
    && s != [] && (IsSet(s[0] as nat, 1) || IsSet(s[0] as nat, 2)) && ReadUint16(s[1..]).Ok?
    && var d := StringIf(IsSet(s[0] as nat, 1), ReadUint16(s[1..]).value.1);
       d.Err? || StringIf(IsSet(s[0] as nat, 2), d.value.1).Err?
  }

  lemma ListFlagsFrame(s: Bytes, u: Bytes)
    requires ReadListFlags(s).Ok? && !OpenStrings(s)
    ensures var (f, s1) := ReadListFlags(s).value;
      Behind(s, s1) && ReadListFlags(Used(s, s1) + u) == Ok((f, u)) && !OpenStrings(Used(s, s1) + u)
  {
    var (flag, s1) := ReadOne(s).value;
    var d, m := IsSet(flag as nat, 1), IsSet(flag as nat, 2);
    if !d && !m {
      OneFrame(s, u);
    } else {
      var s2 := ReadUint16(s1).value.1;
      var s3 := StringIf(d, s2).value.1;
      var s4 := StringIf(m, s3).value.1;
      StringIfFrame(m, s3, u);
      StringIfFrame(d, s2, Used(s3, s4) + u);
      UsedOnce(s2, s3, s4, u);
      Uint16Frame(s1, Used(s2, s4) + u);
      UsedOnce(s1, s2, s4, u);
      OneFrame(s, Used(s1, s4) + u);
      UsedOnce(s, s1, s4, u);
    }
  }

  predicate OpenList(s: Bytes) {
    && ReadBytes(s, 8).Ok? && GetString(ReadBytes(s, 8).value.1, []).Ok?
    && OpenStrings(GetString(ReadBytes(s, 8).value.1, []).value.1)
  }

  lemma ListFrame(s: Bytes, u: Bytes)
    requires ReadList(s).Ok? && !OpenList(s)
    ensures var (r, s1) := ReadList(s).value;
      Behind(s, s1) && ReadList(Used(s, s1) + u) == Ok((r, u)) && !OpenList(Used(s, s1) + u)
  {
    var s1 := ReadBytes(s, 8).value.1;
    var s2 := GetString(s1, []).value.1;
    var s3 := ReadListFlags(s2).value.1;
    ListFlagsFrame(s2, u);
    StringFrame(s1, [], Used(s2, s3) + u);
    UsedOnce(s1, s2, s3, u);
    BytesFrame(s, 8, Used(s1, s3) + u);
    UsedOnce(s, s1, s3, u);
  }

  lemma CycleStartFlagsFrame(s: Bytes, u: Bytes)
    requires ReadCycleStartFlags(s).Ok?
    ensures var (f, s1) := ReadCycleStartFlags(s).value; Behind(s, s1) && ReadCycleStartFlags(Used(s, s1) + u) == Ok((f, u))
  {
    var (flag, s1) := ReadOne(s).value;
    var d, m := IsSet(flag as nat, 1), IsSet(flag as nat, 2);
    if !d && !m {
      OneFrame(s, u);
    } else {
      var s2 := ReadUint16(s1).value.1;
      var s3 := Uint32If(d, s2).value.1;
      var s4 := StringIf(m, s3).value.1;
      StringIfFrame(m, s3, u);
      Uint32IfFrame(d, s2, Used(s3, s4) + u);
      UsedOnce(s2, s3, s4, u);
      Uint16Frame(s1, Used(s2, s4) + u);
      UsedOnce(s1, s2, s4, u);
      OneFrame(s, Used(s1, s4) + u);
      UsedOnce(s, s1, s4, u);
    }
  }

  lemma CycleFrame(s: Bytes, u: Bytes)
    requires ReadCycle(s).Ok?
    ensures var (r, s1) := ReadCycle(s).value; Behind(s, s1) && ReadCycle(Used(s, s1) + u) == Ok((r, u))
  {
    var s1 := ReadBytes(s, 16).value.1;
    var s2 := ReadCycleStartFlags(s1).value.1;
    CycleStartFlagsFrame(s1, u);
    BytesFrame(s, 16, Used(s1, s2) + u);
    UsedOnce(s, s1, s2, u);
  }

  lemma CycleStopFrame(s: Bytes, u: Bytes)
    requires ReadCycleStop(s).Ok?
    ensures var (r, s1) := ReadCycleStop(s).value; Behind(s, s1) && ReadCycleStop(Used(s, s1) + u) == Ok((r, u))
  {
    var s1 := ReadBytes(s, 8).value.1;
    var s2 := ReadOne(s1).value.1;
    OneFrame(s1, u);
    BytesFrame(s, 8, Used(s1, s2) + u);
    UsedOnce(s, s1, s2, u);
  }

  lemma CountedFrame(t: Table, st: State, u: Bytes)
    requires ReadCounted(t, st).Ok?
    ensures var (xs, st1) := ReadCounted(t, st).value;
      Behind(st.rest, st1.rest) && ReadCounted(t, Ahead(st, st1, u)) == Ok((xs, State(u, st1.refs)))
  {
    var (count, s1) := ReadUint16(st.rest).value;
    var st2 := ReadStructs(t, count, st.(rest := s1)).value.1;
    StructsFrame(t, count, st.(rest := s1), u);
    Uint16Frame(st.rest, Used(s1, st2.rest) + u);
    UsedOnce(st.rest, s1, st2.rest, u);
  }

  lemma ItemsFrame(t: Table, v: Table, st: State, u: Bytes)
    requires ReadItems(ReadStruct(t, st), v).Ok?
    ensures var (p, st1) := ReadItems(ReadStruct(t, st), v).value;
      && Behind(st.rest, st1.rest)
      && ReadItems(ReadStruct(t, Ahead(st, st1, u)), v) == Ok((p, State(u, st1.refs)))
  {
    var (x, st1) := ReadStruct(t, st).value;
    var st2 := ReadCounted(v, st1).value.1;
    CountedFrame(v, st1, u);
    StructFrame(t, st, Used(st1.rest, st2.rest) + u);
    UsedOnce(st.rest, st1.rest, st2.rest, u);
  }

  lemma PingFrame(s: Bytes, u: Bytes)
    requires ReadPing(s).Ok?
    ensures var (r, s1) := ReadPing(s).value; Behind(s, s1) && ReadPing(Used(s, s1) + u) == Ok((r, u))
  {
    ItemsFrame(PingFields, PingReplyFields, State(s, NEW_REFS), u);
  }

  lemma TracerouteFrame(s: Bytes, u: Bytes)
    requires ReadTraceroute(s).Ok?
    ensures var (r, s1) := ReadTraceroute(s).value; Behind(s, s1) && ReadTraceroute(Used(s, s1) + u) == Ok((r, u))
  {
    var st := State(s, NEW_REFS);
    var s1 := ReadItems(ReadStruct(TracerouteFields, st), HopFields).value.1.rest;
    var s2 := ReadUint16(s1).value.1;
    Uint16Frame(s1, u);
    ItemsFrame(TracerouteFields, HopFields, st, Used(s1, s2) + u);
    UsedOnce(s, s1, s2, u);
  }

  predicate OpenRecord(s: Bytes) {
    ReadHeader(s).Ok? && ReadHeader(s).value.0.typ == 1 && OpenList(ReadHeader(s).value.1)
  }

  lemma BodyFrame(h: Record, s: Bytes, u: Bytes)
    requires h.Header? && ReadBody(h, s).Ok? && !(h.typ == 1 && OpenList(s))
    ensures var (r, s1) := ReadBody(h, s).value;
      Behind(s, s1) && ReadBody(h, Used(s, s1) + u) == Ok((r, u)) && !(h.typ == 1 && OpenList(Used(s, s1) + u))
  {
    if h.typ == 1 {
      ListFrame(s, u);
    } else if h.typ == 2 || h.typ == 3 {
      CycleFrame(s, u);
    } else if h.typ == 4 {
      CycleStopFrame(s, u);
    } else if h.typ == 6 {
      TracerouteFrame(s, u);
    } else if h.typ == 7 {
      PingFrame(s, u);
    } else {
      UsedNone(s, u);
    }
  }

  lemma HeaderFrame(s: Bytes, u: Bytes)
    requires ReadHeader(s).Ok?
    ensures var (h, s1) := ReadHeader(s).value; Behind(s, s1) && ReadHeader(Used(s, s1) + u) == Ok((h, u))
  {
    BytesFrame(s, 8, u);
  }

  /** A record is read from its own bytes alone: whatever follows them may be replaced. Only a list whose
      strings have no end is different. */
  lemma RecordFrame(s: Bytes, u: Bytes)
    requires ReadRecord(s).Ok? && !OpenRecord(s)
    ensures var (r, s1) := ReadRecord(s).value;
      Behind(s, s1) && ReadRecord(Used(s, s1) + u) == Ok((r, u)) && !OpenRecord(Used(s, s1) + u)
  {
    var (h, s1) := ReadHeader(s).value;
    var s2 := ReadBody(h, s1).value.1;
    BodyFrame(h, s1, u);
    HeaderFrame(s, Used(s1, s2) + u);
    UsedOnce(s, s1, s2, u);
  }

  /** Such a list takes everything there is. */
  lemma OpenTakesAll(s: Bytes)
    requires OpenRecord(s)
    ensures ReadRecord(s).Ok? && ReadRecord(s).value.0.List? && ReadRecord(s).value.1 == []
  {
  }

  /** Every successful parseNext takes at least the eight bytes of the header. */
  lemma RecordTakesHeader(s: Bytes)
    ensures ReadRecord(s).Ok? ==> |ReadRecord(s).value.1| + 8 <= |s|
  {
    if OpenRecord(s) {
      OpenTakesAll(s);
    } else if ReadRecord(s).Ok? {
      var (h, s1) := ReadHeader(s).value;
      BodyFrame(h, s1, []);
    }
  }

  /** Parse, with the records kept so far. A record cut off by the end of the data can end the parse without
      an error: that is how io.EOF is passed on. */
  function Parse(types: set<uint32>, kept: seq<Record>, s: Bytes): Res<seq<Record>>
    decreases |s|
  {
    RecordTakesHeader(s);
    var r := ReadRecord(s);
    if r.Err? then (if r.error == Eof then Ok(kept) else Err(Malformed))
    else
      var (x, s1) := r.value;
      Parse(types, if TypeOf(x) in types then kept + [x] else kept, s1)
  }

  // ---------- the reference encoding ----------

  ghost predicate ItemsFit(t: Table, x: Struct, u: Table, xs: seq<Struct>, pen: Pen) {
    |xs| < 0x1_0000 && StructFits(t, x, pen) && StructsFit(u, xs, PenAfterStruct(t, x, pen))
  }

  ghost function PutItems(t: Table, x: Struct, u: Table, xs: seq<Struct>, pen: Pen, rest: Bytes): Bytes {
    PutStruct(t, x, pen, PutUint16(ToUint16(|xs|), PutStructs(u, xs, PenAfterStruct(t, x, pen), rest)))
  }

  /** The pen behind the header of a record. */
  function BodyPen(plan: Plan): Pen {
    Pen(NEW_REFS, plan).Then(NEW_REFS)
  }

  function FlagByte(a: bool, b: bool): uint8 {
    (if a then 1 else 0) + if b then 2 else 0
  }

  predicate Announces(flag: uint8, a: bool, b: bool) {
    (a ==> IsSet(flag as nat, 1)) && (b ==> IsSet(flag as nat, 2))
  }

  /** The flags byte of a list or a cycle start: any that announces what is there, by default nothing else. */
  function FlagFor(choice: Choice, a: bool, b: bool): uint8 {
    var flag := (choice.number % 0x100) as uint8;
    if Announces(flag, a, b) then flag else FlagByte(a, b)
  }

  predicate IsPlainFlag(flag: uint8) {
    !IsSet(flag as nat, 1) && !IsSet(flag as nat, 2)
  }

  function ListFlag(r: Record, choice: Choice): uint8
    requires r.List?
  {
    FlagFor(choice, r.description != [], r.monitor != [])
  }

  function CycleFlag(r: Record, choice: Choice): uint8
    requires r.CycleStart?
  {
    FlagFor(choice, r.stopTime != 0, r.hostname != [])
  }

  /** A record that can be written by the plan. */
  ghost predicate WellFormed(r: Record, plan: Plan) {
    var pen := BodyPen(plan);
    match r
    case List(_, _, name, pLength, description, monitor) =>
      && ZeroFree(name) && ZeroFree(description) && ZeroFree(monitor)
      && (IsPlainFlag(ListFlag(r, pen.Next())) ==> pLength == 0)
    case CycleStart(_, _, _, _, pLength, _, hostname) =>
      ZeroFree(hostname) && (IsPlainFlag(CycleFlag(r, pen.Next())) ==> pLength == 0)
    case CycleStop(_, _) => true
    case Ping(flags, replies) => ItemsFit(PingFields, flags, PingReplyFields, replies, pen)
    case Traceroute(flags, hops) => ItemsFit(TracerouteFields, flags, HopFields, hops, pen)
    case Header(_, _) => false
  }

  function PutStringIf(present: bool, b: Bytes, rest: Bytes): Bytes {
    if present then PutString(b, rest) else rest
  }

  function PutListFlags(flag: uint8, pLength: uint16, description: Bytes, monitor: Bytes, rest: Bytes): Bytes {
    [flag]
    + if IsPlainFlag(flag) then rest
      else PutUint16(pLength, PutStringIf(IsSet(flag as nat, 1), description, PutStringIf(IsSet(flag as nat, 2), monitor, rest)))
  }

  function PutCycleStartFlags(flag: uint8, pLength: uint16, stopTime: uint32, hostname: Bytes, rest: Bytes): Bytes {
    [flag]
    + if IsPlainFlag(flag) then rest
      else
        var host := PutStringIf(IsSet(flag as nat, 2), hostname, rest);
        PutUint16(pLength, if IsSet(flag as nat, 1) then PutUint32(stopTime, host) else host)
  }

  ghost function PutBody(r: Record, pen: Pen, rest: Bytes): Bytes {
    match r
    case List(id, cid, name, pLength, description, monitor) =>
      PutUint32(id, PutUint32(cid, PutString(name, PutListFlags(ListFlag(r, pen.Next()), pLength, description, monitor, rest))))
    case CycleStart(id, lid, cid, start, pLength, stop, host) =>
      var flags := PutCycleStartFlags(CycleFlag(r, pen.Next()), pLength, stop, host, rest);
      PutUint32(id, PutUint32(lid, PutUint32(cid, PutUint32(start, flags))))
    case CycleStop(id, stop) => PutUint32(id, PutUint32(stop, [(pen.Next().number % 0x100) as uint8] + rest))
    case Ping(flags, replies) => PutItems(PingFields, flags, PingReplyFields, replies, pen, rest)
    case Traceroute(flags, hops) => PutItems(TracerouteFields, flags, HopFields, hops, pen, PutUint16(pen.Next().number % 0x1_0000, rest))
    case Header(_, _) => rest
  }

  function PutHeader(typ: uint16, length: uint32, rest: Bytes): Bytes {
    PutUint16(0x1205, PutUint16(typ, PutUint32(length, rest)))
  }

  /** The start of a cycle has two types. */
  function WrittenType(r: Record, plan: Plan): uint16 {
    if r.CycleStart? && Pen(NEW_REFS, plan).Next().number == 3 then 3 else TypeOf(r)
  }

  ghost function WrittenLength(r: Record, plan: Plan): uint32 {
    Pen(NEW_REFS, plan).Length(|PutBody(r, BodyPen(plan), [])|)
  }

  /** A record in front of `rest`: the header, by default with the body's length, and the body. */
  ghost function PutRecord(r: Record, plan: Plan, rest: Bytes): Bytes {
    PutHeader(WrittenType(r, plan), WrittenLength(r, plan), PutBody(r, BodyPen(plan), rest))
  }

  ghost predicate AllWellFormed(rs: seq<Record>, plans: seq<Plan>) {
    |plans| == |rs| && forall i :: 0 <= i < |rs| ==> WellFormed(rs[i], plans[i])
  }

  /** A file: its records one after the other, each written by its own plan. */
  ghost function PutAll(rs: seq<Record>, plans: seq<Plan>): Bytes
    requires |plans| == |rs|
  {
    if rs == [] then [] else PutRecord(rs[0], plans[0], PutAll(rs[1..], plans[1..]))
  }

  function Selected(types: set<uint32>, rs: seq<Record>): seq<Record> {
    if rs == [] then []
    else if TypeOf(rs[0]) in types then [rs[0]] + Selected(types, rs[1..])
    else Selected(types, rs[1..])
  }

  // ---------- the encoding is undone ----------

  lemma TwoWords(a: uint32, b: uint32, rest: Bytes)
    ensures var s := PutUint32(a, PutUint32(b, rest));
      |s| == 8 + |rest| && s[8..] == rest && GetUint32(s[..8][..4]) == a && GetUint32(s[..8][4..]) == b
  {
    var s1 := PutUint32(b, rest);
    var s := PutUint32(a, s1);
    PutUint32Splits(b, rest);
    PutUint32Splits(a, s1);
    assert s[..8][..4] == s[..4] && s[..8][4..] == s1[..4] && s[8..] == s1[4..];
  }

  lemma HeaderRoundTrip(typ: uint16, length: uint32, rest: Bytes)
    ensures ReadHeader(PutHeader(typ, length, rest)) == Ok((Header(typ, length), rest))
  {
    var s := PutHeader(typ, length, rest);
    PutUint32Splits(length, rest);
    var w := PutUint32(length, rest);
    assert s == [0x12, 0x05] + ([(typ / 0x100) as uint8, (typ % 0x100) as uint8] + w);
    var b := s[..8];
    assert b[..2] == [0x12, 0x05] && b[2..4] == [(typ / 0x100) as uint8, (typ % 0x100) as uint8];
    assert b[4..8] == w[..4] && s[8..] == w[4..];
  }

  lemma FlagAnnounces(choice: Choice, a: bool, b: bool)
    ensures Announces(FlagFor(choice, a, b), a, b)
  {
  }

  lemma StringIfRoundTrip(present: bool, b: Bytes, rest: Bytes)
    requires ZeroFree(b) && (present || b == [])
    ensures StringIf(present, PutStringIf(present, b, rest)) == Ok((b, rest))
  {
    StringRoundTrip(b, [], rest);
    Seqs.NoneLeft(b);
  }

  lemma ListFlagsRoundTrip(flag: uint8, pLength: uint16, description: Bytes, monitor: Bytes, rest: Bytes)
    requires ZeroFree(description) && ZeroFree(monitor)
    requires Announces(flag, description != [], monitor != []) && (IsPlainFlag(flag) ==> pLength == 0)
    ensures var s := PutListFlags(flag, pLength, description, monitor, rest);
      ReadListFlags(s) == Ok(((pLength, description, monitor), rest)) && !OpenStrings(s)
  {
    var m := PutStringIf(IsSet(flag as nat, 2), monitor, rest);
    var d := PutStringIf(IsSet(flag as nat, 1), description, m);
    Seqs.Cons(flag, if IsPlainFlag(flag) then rest else PutUint16(pLength, d));
    Uint16RoundTrip(pLength, d);
    StringIfRoundTrip(IsSet(flag as nat, 1), description, m);
    StringIfRoundTrip(IsSet(flag as nat, 2), monitor, rest);
  }

  /** The bytes of a written list behind its ids. */
  function BehindIds(r: Record, flag: uint8, rest: Bytes): Bytes
    requires r.List?
  {
    PutString(r.name, PutListFlags(flag, r.pLength, r.description, r.monitor, rest))
  }

  /** A written string is read from a part of it exactly when its end is there. */
  lemma StringReadIff(c: Bytes, t: Bytes, b: Bytes, f: Bytes)
    requires ZeroFree(b) && c + t == PutString(b, f)
    ensures GetString(c, []).Ok? <==> |b| < |c|
  {
    GetStringExact(c, []);
    if |b| < |c| {
      assert c[|b|] == (c + t)[|b|] == 0;
    } else {
      forall i | 0 <= i < |c| ensures c[i] != 0 {
        assert c[i] == (c + t)[i] == b[i];
      }
    }
  }

  lemma BodyIds(r: Record, pen: Pen, rest: Bytes)
    requires r.List?
    ensures var s := PutBody(r, pen, rest);
      && |s| >= 8 && s[8..] == BehindIds(r, ListFlag(r, pen.Next()), rest)
      && GetUint32(s[..8][..4]) == r.listId && GetUint32(s[..8][4..]) == r.cListId
  {
    TwoWords(r.listId, r.cListId, BehindIds(r, ListFlag(r, pen.Next()), rest));
  }

  lemma ListRoundTrip(r: Record, plan: Plan, rest: Bytes)
    requires r.List? && WellFormed(r, plan)
    ensures var s := PutBody(r, BodyPen(plan), rest); ReadList(s) == Ok((r, rest)) && !OpenList(s)
  {
    var flag := ListFlag(r, BodyPen(plan).Next());
    var s2 := PutListFlags(flag, r.pLength, r.description, r.monitor, rest);
    TwoWords(r.listId, r.cListId, BehindIds(r, flag, rest));
    StringRoundTrip(r.name, [], s2);
    Seqs.NoneLeft(r.name);
    FlagAnnounces(BodyPen(plan).Next(), r.description != [], r.monitor != []);
    ListFlagsRoundTrip(flag, r.pLength, r.description, r.monitor, rest);
  }

  lemma CycleStartFlagsRoundTrip(flag: uint8, pLength: uint16, stopTime: uint32, hostname: Bytes, rest: Bytes)
    requires ZeroFree(hostname)
    requires Announces(flag, stopTime != 0, hostname != []) && (IsPlainFlag(flag) ==> pLength == 0)
    ensures ReadCycleStartFlags(PutCycleStartFlags(flag, pLength, stopTime, hostname, rest))
         == Ok(((pLength, stopTime, hostname), rest))
  {
    var h := PutStringIf(IsSet(flag as nat, 2), hostname, rest);
    var t := if IsSet(flag as nat, 1) then PutUint32(stopTime, h) else h;
    Seqs.Cons(flag, if IsPlainFlag(flag) then rest else PutUint16(pLength, t));
    Uint16RoundTrip(pLength, t);
    Uint32RoundTrip(stopTime, h);
    StringIfRoundTrip(IsSet(flag as nat, 2), hostname, rest);
  }

  lemma FourWords(a: uint32, b: uint32, c: uint32, d: uint32, rest: Bytes)
    ensures var s := PutUint32(a, PutUint32(b, PutUint32(c, PutUint32(d, rest))));
      |s| == 16 + |rest| && s[16..] == rest
      && GetUint32(s[..16][..4]) == a && GetUint32(s[..16][4..8]) == b
      && GetUint32(s[..16][8..12]) == c && GetUint32(s[..16][12..]) == d
  {
    var s2 := PutUint32(c, PutUint32(d, rest));
    var s := PutUint32(a, PutUint32(b, s2));
    TwoWords(c, d, rest);
    TwoWords(a, b, s2);
    assert s[..16][..4] == s[..8][..4] && s[..16][4..8] == s[..8][4..];
    assert s[..16][8..12] == s[8..][..8][..4] && s[..16][12..] == s[8..][..8][4..] && s[16..] == s[8..][8..];
  }

  lemma CycleRoundTrip(r: Record, plan: Plan, rest: Bytes)
    requires r.CycleStart? && WellFormed(r, plan)
    ensures ReadCycle(PutBody(r, BodyPen(plan), rest)) == Ok((r, rest))
  {
    var flag := CycleFlag(r, BodyPen(plan).Next());
    var s1 := PutCycleStartFlags(flag, r.pLength, r.stopTime, r.hostname, rest);
    FourWords(r.cycleId, r.listOfCycle, r.cCycleId, r.startTime, s1);
    FlagAnnounces(BodyPen(plan).Next(), r.stopTime != 0, r.hostname != []);
    CycleStartFlagsRoundTrip(flag, r.pLength, r.stopTime, r.hostname, rest);
  }

  lemma CycleStopRoundTrip(r: Record, plan: Plan, rest: Bytes)
    requires r.CycleStop?
    ensures ReadCycleStop(PutBody(r, BodyPen(plan), rest)) == Ok((r, rest))
  {
    var end := (BodyPen(plan).Next().number % 0x100) as uint8;
    TwoWords(r.cycleId, r.stopTime, [end] + rest);
    Seqs.Cons(end, rest);
  }

  lemma TablesInOrder()
    ensures LengthsFirst(PingFields) && LengthsFirst(PingReplyFields)
    ensures LengthsFirst(TracerouteFields) && LengthsFirst(HopFields)
  {
  }

  lemma ItemsRoundTrip(t: Table, x: Struct, u: Table, xs: seq<Struct>, pen: Pen, rest: Bytes)
    requires ItemsFit(t, x, u, xs, pen) && LengthsFirst(t) && LengthsFirst(u)
    ensures var s := PutItems(t, x, u, xs, pen, rest);
      s != [] && ReadItems(ReadStruct(t, State(s, pen.refs)), u)
              == Ok(((x, xs), State(rest, PenAfterStructs(u, xs, PenAfterStruct(t, x, pen)).refs)))
  {
    var pen1 := PenAfterStruct(t, x, pen);
    var s2 := PutStructs(u, xs, pen1, rest);
    StructRoundTrip(t, x, pen, PutUint16(|xs|, s2));
    Uint16RoundTrip(|xs|, s2);
    StructsRoundTrip(u, xs, pen1, rest);
  }

  lemma PingRoundTrip(r: Record, plan: Plan, rest: Bytes)
    requires r.Ping? && WellFormed(r, plan)
    ensures ReadPing(PutBody(r, BodyPen(plan), rest)) == Ok((r, rest))
  {
    TablesInOrder();
    ItemsRoundTrip(PingFields, r.pingFlags, PingReplyFields, r.replies, BodyPen(plan), rest);
  }

  lemma TracerouteRoundTrip(r: Record, plan: Plan, rest: Bytes)
    requires r.Traceroute? && WellFormed(r, plan)
    ensures ReadTraceroute(PutBody(r, BodyPen(plan), rest)) == Ok((r, rest))
  {
    var pen := BodyPen(plan);
    var end: uint16 := pen.Next().number % 0x1_0000;
    TablesInOrder();
    ItemsRoundTrip(TracerouteFields, r.traceFlags, HopFields, r.hops, pen, PutUint16(end, rest));
    Uint16RoundTrip(end, rest);
  }

  /** What every body reader returns on the body of a well-formed record of its type. */
  lemma BodyRoundTrip(r: Record, plan: Plan, rest: Bytes, b: Bytes)
    requires WellFormed(r, plan) && b == PutBody(r, BodyPen(plan), rest)
    ensures r.List? ==> ReadList(b) == Ok((r, rest))
    ensures r.CycleStart? ==> ReadCycle(b) == Ok((r, rest))
    ensures r.CycleStop? ==> ReadCycleStop(b) == Ok((r, rest))
    ensures r.Ping? ==> ReadPing(b) == Ok((r, rest))
    ensures r.Traceroute? ==> ReadTraceroute(b) == Ok((r, rest))
  {
    if r.List? { ListRoundTrip(r, plan, rest); }
    if r.CycleStart? { CycleRoundTrip(r, plan, rest); }
    if r.CycleStop? { CycleStopRoundTrip(r, plan, rest); }
    if r.Ping? { PingRoundTrip(r, plan, rest); }
    if r.Traceroute? { TracerouteRoundTrip(r, plan, rest); }
  }

  lemma BehindHeader(r: Record, typ: uint16, length: uint32, b: Bytes, rest: Bytes)
    requires !r.Header? && (typ == TypeOf(r) || (r.CycleStart? && typ == 3))
    requires r.List? ==> ReadList(b) == Ok((r, rest))
    requires r.CycleStart? ==> ReadCycle(b) == Ok((r, rest))
    requires r.CycleStop? ==> ReadCycleStop(b) == Ok((r, rest))
    requires r.Ping? ==> ReadPing(b) == Ok((r, rest))
    requires r.Traceroute? ==> ReadTraceroute(b) == Ok((r, rest))
    ensures ReadRecord(PutHeader(typ, length, b)) == Ok((r, rest))
  {
    HeaderRoundTrip(typ, length, b);
  }

  /** parseNext reads back one record, written by any plan, and consumes exactly its encoding. */
  lemma RecordRoundTrip(r: Record, plan: Plan, rest: Bytes)
    requires WellFormed(r, plan)
    ensures ReadRecord(PutRecord(r, plan, rest)) == Ok((r, rest))
  {
    BodyRoundTrip(r, plan, rest, PutBody(r, BodyPen(plan), rest));
    BehindHeader(r, WrittenType(r, plan), WrittenLength(r, plan), PutBody(r, BodyPen(plan), rest), rest);
  }

  lemma {:induction false} ParseFrom(types: set<uint32>, kept: seq<Record>, rs: seq<Record>, plans: seq<Plan>)
    requires AllWellFormed(rs, plans)
    ensures Parse(types, kept, PutAll(rs, plans)) == Ok(kept + Selected(types, rs))
    decreases |rs|
  {
    if rs == [] {
      Seqs.NoneLeft(kept);
    } else {
      var r := rs[0];
      RecordRoundTrip(r, plans[0], PutAll(rs[1..], plans[1..]));
      ParseFrom(types, if TypeOf(r) in types then kept + [r] else kept, rs[1..], plans[1..]);
      if TypeOf(r) in types {
        Seqs.Assoc(kept, [r], Selected(types, rs[1..]));
      }
    }
  }

  /** However a file of records is written, Parse returns exactly those of the wanted types, in order. */
  lemma ParseRoundTrip(types: set<uint32>, rs: seq<Record>, plans: seq<Plan>)
    requires AllWellFormed(rs, plans)
    ensures Parse(types, [], PutAll(rs, plans)) == Ok(Selected(types, rs))
  {
    ParseFrom(types, [], rs, plans);
    Seqs.NoneLeft(Selected(types, rs));
  }
}
