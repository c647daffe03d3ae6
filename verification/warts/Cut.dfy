/** Files put together and files cut off: what parsing one part says about parsing the whole. */
module WartsCut {
  import Seqs
  import opened Common
  import opened WartsWire
  import opened WartsFlags
  import opened WartsAddress
  import opened WartsFields
  import opened WartsFrame
  import opened WartsRecords
  import opened WartsSilent

  /** The records of any byte string, one after the other, up to the first read that fails. */
  function Records(s: Bytes): seq<Record>
    decreases |s|
  {
    RecordTakesHeader(s);
    if ReadRecord(s).Err? then [] else [ReadRecord(s).value.0] + Records(ReadRecord(s).value.1)
  }

  /** How that first failing read fails. */
  function Stop(s: Bytes): Error
    decreases |s|
  {
    RecordTakesHeader(s);
    if ReadRecord(s).Err? then ReadRecord(s).error else Stop(ReadRecord(s).value.1)
  }

  /** The last record read is a list with a string that has no end. */
  predicate EndsOpen(s: Bytes)
    decreases |s|
  {
    RecordTakesHeader(s);
    ReadRecord(s).Ok? && (OpenRecord(s) || EndsOpen(ReadRecord(s).value.1))
  }

  lemma {:induction false} ParseFromIs(types: set<uint32>, kept: seq<Record>, s: Bytes)
    ensures Parse(types, kept, s) == if Stop(s) == Eof then Ok(kept + Selected(types, Records(s))) else Err(Malformed)
    decreases |s|
  {
    if ReadRecord(s).Err? {
      Seqs.NoneLeft(kept);
    } else {
      var (x, s1) := ReadRecord(s).value;
      RecordTakesHeader(s);
      ParseFromIs(types, if TypeOf(x) in types then kept + [x] else kept, s1);
      Seqs.Cons(x, Records(s1));
      Seqs.Assoc(kept, [x], Selected(types, Records(s1)));
    }
  }

  function Result(types: set<uint32>, rs: seq<Record>, stop: Error): Res<seq<Record>> {
    if stop == Eof then Ok(Selected(types, rs)) else Err(Malformed)
  }

  /** Parse in terms of the records read and of how the reading ends. */
  lemma ParseIs(types: set<uint32>, s: Bytes)
    ensures Parse(types, [], s) == Result(types, Records(s), Stop(s))
  {
    ParseFromIs(types, [], s);
    Seqs.NoneLeft(Selected(types, Records(s)));
  }

  /** More bytes behind a record do not change it. */
  lemma Extended(c: Bytes, t: Bytes)
    requires ReadRecord(c).Ok? && !OpenRecord(c)
    ensures ReadRecord(c + t) == Ok((ReadRecord(c).value.0, ReadRecord(c).value.1 + t))
  {
    var c1 := ReadRecord(c).value.1;
    RecordFrame(c, c1 + t);
    UsedAll(c, c1, t);
  }

  /** The records of any byte string are the first records of every longer one, unless it ends within the
      strings of a list; then all but that list are. */
  lemma {:induction false} FrontRecords(c: Bytes, t: Bytes)
    ensures !EndsOpen(c) ==> Records(c) <= Records(c + t)
    ensures EndsOpen(c) ==> Records(c) != [] && Records(c)[..|Records(c)| - 1] <= Records(c + t)
    decreases |c|
  {
    if ReadRecord(c).Ok? {
      var (r, c1) := ReadRecord(c).value;
      RecordTakesHeader(c);
      if OpenRecord(c) {
        OpenTakesAll(c);
        assert ReadRecord([]).Err?;
      } else {
        Extended(c, t);
        FrontRecords(c1, t);
      }
    }
  }

  /** The bytes behind the last record that can be read. */
  function Left(s: Bytes): Bytes
    decreases |s|
  {
    RecordTakesHeader(s);
    if ReadRecord(s).Err? then s else Left(ReadRecord(s).value.1)
  }

  /** A byte string that is read to its end may be followed by anything: the parts are read one after the other. */
  lemma {:induction false} Concatenated(c: Bytes, t: Bytes)
    requires Left(c) == [] && !EndsOpen(c)
    ensures Records(c + t) == Records(c) + Records(t) && Stop(c + t) == Stop(t)
    decreases |c|
  {
    if ReadRecord(c).Err? {
      assert c + t == t;
    } else {
      var (r, c1) := ReadRecord(c).value;
      RecordTakesHeader(c);
      Extended(c, t);
      Concatenated(c1, t);
      Seqs.Assoc([r], Records(c1), Records(t));
    }
  }

  lemma {:induction false} SelectedConcat(types: set<uint32>, a: seq<Record>, b: seq<Record>)
    ensures Selected(types, a + b) == Selected(types, a) + Selected(types, b)
  {
    if a == [] {
      assert a + b == b;
    } else {
      assert (a + b)[1..] == a[1..] + b;
      SelectedConcat(types, a[1..], b);
    }
  }

  lemma {:induction false} EmptyStop(c: Bytes)
    requires Left(c) == []
    ensures Stop(c) == Eof
    decreases |c|
  {
    if ReadRecord(c).Ok? {
      RecordTakesHeader(c);
      EmptyStop(ReadRecord(c).value.1);
    }
  }

  ghost predicate InTurn(a: Res<seq<Record>>, b: Res<seq<Record>>, both: Res<seq<Record>>) {
    if b.Ok? then a.Ok? && both == Ok(a.value + b.value) else both == b
  }

  lemma ResultsInTurn(types: set<uint32>, xs: seq<Record>, ys: seq<Record>, stop: Error)
    ensures InTurn(Result(types, xs, Eof), Result(types, ys, stop), Result(types, xs + ys, stop))
  {
    SelectedConcat(types, xs, ys);
  }

  /** Parsing two files one behind the other: whatever encoding the first one uses, if it is read to its end and no
      string is left open, the result is its records followed by those of the second. */
  lemma ParseConcat(types: set<uint32>, c: Bytes, t: Bytes)
    requires Left(c) == [] && !EndsOpen(c)
    ensures InTurn(Parse(types, [], c), Parse(types, [], t), Parse(types, [], c + t))
  {
    ParseIs(types, c);
    ParseIs(types, t);
    ParseIs(types, c + t);
    EmptyStop(c);
    Concatenated(c, t);
    ResultsInTurn(types, Records(c), Records(t), Stop(t));
  }

  // ---------- a written file, cut off ----------

  /** The first k records are complete, and m bytes of the next. */
  datatype Place = Place(k: nat, m: int)

  /** The ends of a file that start with its records, one by one, and the empty one. */
  ghost function Tails(rs: seq<Record>, plans: seq<Plan>): (tails: seq<Bytes>)
    requires |plans| == |rs|
    ensures |tails| == |rs| + 1 && tails[0] == PutAll(rs, plans) && tails[|rs|] == []
  {
    if rs == [] then [[]]
    else
      var tails := Tails(rs[1..], plans[1..]);
      [PutRecord(rs[0], plans[0], tails[0])] + tails
  }

  /** The place behind n bytes, for given ends. */
  function PlaceIn(tails: seq<Bytes>, n: int): (p: Place)
    requires tails != []
    ensures p.k < |tails|
  {
    if |tails| == 1 || n < |tails[0]| - |tails[1]| then Place(0, n)
    else
      var p := PlaceIn(tails[1..], n - (|tails[0]| - |tails[1]|));
      Place(p.k + 1, p.m)
  }

  /** Where a file is cut that is cut off behind n bytes. */
  ghost function PlaceOf(rs: seq<Record>, plans: seq<Plan>, n: int): (p: Place)
    requires |plans| == |rs|
    ensures p.k <= |rs|
  {
    PlaceIn(Tails(rs, plans), n)
  }

  /** n bytes of a list with strings reach behind the flags byte: header, ids, name and its end, flags and a length. */
  predicate IntoStrings(r: Record, plan: Plan, n: int) {
    r.List? && !IsPlainFlag(ListFlag(r, BodyPen(plan).Next())) && 8 + 8 + (|r.name| + 1) + 1 + 2 <= n
  }

  /** The end of the description is not within n bytes. */
  predicate InDescription(r: Record, plan: Plan, n: int)
    requires r.List?
  {
    IsSet(ListFlag(r, BodyPen(plan).Next()) as nat, 1) && n <= 20 + |r.name| + |r.description|
  }

  /** What is read of a list cut off within its strings: the one that is cut is missing, and so is the one behind it. */
  function WithoutCut(r: Record, plan: Plan, n: int): Record
    requires r.List?
  {
    if InDescription(r, plan, n) then r.(description := [], monitor := []) else r.(monitor := [])
  }

  /** What is read of the record that the cut falls into: nothing unless it is a list cut within its strings. */
  function CutRest(rs: seq<Record>, plans: seq<Plan>, p: Place): seq<Record>
    requires |plans| == |rs|
  {
    if p.k < |rs| && IntoStrings(rs[p.k], plans[p.k], p.m) then [WithoutCut(rs[p.k], plans[p.k], p.m)] else []
  }

  /** The cut takes the monitor of a list, or its description, and that is not empty. */
  predicate TakesString(rs: seq<Record>, plans: seq<Plan>, p: Place)
    requires |plans| == |rs|
  {
    && p.k < |rs| && IntoStrings(rs[p.k], plans[p.k], p.m)
    && (rs[p.k].monitor != [] || (rs[p.k].description != [] && InDescription(rs[p.k], plans[p.k], p.m)))
  }

  /** The records read of a file cut there. */
  function ReadOf(rs: seq<Record>, plans: seq<Plan>, p: Place): seq<Record>
    requires |plans| == |rs| && p.k <= |rs|
  {
    rs[..p.k] + CutRest(rs, plans, p)
  }

  // ---------- the list that is cut ----------

  /** A written string is read from any part of it that has its end. */
  lemma CutBehindString(c: Bytes, t: Bytes, b: Bytes, f: Bytes)
    requires GetString(c, []).Ok? && ZeroFree(b) && c + t == PutString(b, f)
    ensures GetString(c, []).value.0 == b
    ensures var c1 := GetString(c, []).value.1; c1 + t == f && |c| == |b| + 1 + |c1|
  {
    var c1 := GetString(c, []).value.1;
    GetStringExact(c, []);
    StringFrame(c, [], c1 + t);
    UsedAll(c, c1, t);
    StringRoundTrip(b, [], f);
    Seqs.NoneLeft(b);
  }

  /** Behind the length: which strings are read. */
  lemma CutStrings(c: Bytes, t: Bytes, d: bool, m: bool, description: Bytes, monitor: Bytes, rest: Bytes)
    requires ZeroFree(description) && (d || description == []) && c + t == PutStringIf(d, description, PutStringIf(m, monitor, rest))
    requires StringIf(d, c).Err? || StringIf(m, StringIf(d, c).value.1).Err?
    ensures StringIf(d, c).Err? <==> d && |c| <= |description|
    ensures StringIf(d, c).Ok? ==> StringIf(d, c).value.0 == description
  {
    if d {
      StringReadIff(c, t, description, PutStringIf(m, monitor, rest));
      if |description| < |c| {
        CutBehindString(c, t, description, PutStringIf(m, monitor, rest));
      }
    }
  }

  lemma CutLength(c: Bytes, t: Bytes, flag: uint8, n: uint16, f: Bytes)
    requires c + t == [flag] + PutUint16(n, f) && |c| >= 3
    ensures c[0] == flag && ReadUint16(c[1..]) == Ok((n, c[3..])) && c[3..] + t == f
  {
    Uint16RoundTrip(n, f);
    Seqs.Cons(flag, PutUint16(n, f));
    assert (c + t)[1..] == c[1..] + t;
    Uint16Frame(c[1..], c[3..] + t);
    UsedAll(c[1..], c[3..], t);
  }

  lemma OpenStringsAre(c: Bytes, t: Bytes, r: Record, flag: uint8, rest: Bytes)
    requires OpenStrings(c) && r.List? && ZeroFree(r.description) && Announces(flag, r.description != [], r.monitor != [])
    requires c + t == PutListFlags(flag, r.pLength, r.description, r.monitor, rest)
    ensures |c| >= 3 && !IsPlainFlag(flag) && ReadListFlags(c).Ok?
    ensures ReadListFlags(c).value.0 ==
      if IsSet(flag as nat, 1) && |c| <= 3 + |r.description| then (r.pLength, [], []) else (r.pLength, r.description, [])
  {
    Seqs.Front(c, t);
    assert c[0] == (c + t)[0] == flag;
    var d, m := IsSet(flag as nat, 1), IsSet(flag as nat, 2);
    CutLength(c, t, flag, r.pLength, PutStringIf(d, r.description, PutStringIf(m, r.monitor, rest)));
    CutStrings(c[3..], t, d, m, r.description, r.monitor, rest);
  }

  lemma ListParts(c: Bytes, name: Bytes, c2: Bytes, f: (uint16, Bytes, Bytes), rest: Bytes)
    requires |c| >= 8 && GetString(c[8..], []) == Ok((name, c2)) && ReadListFlags(c2) == Ok((f, rest))
    ensures ReadList(c) == Ok((List(GetUint32(c[..8][..4]), GetUint32(c[..8][4..]), name, f.0, f.1, f.2), rest))
  {
  }

  lemma OpenListIs(c: Bytes, t: Bytes, r: Record, plan: Plan, rest: Bytes)
    requires OpenList(c) && r.List? && WellFormed(r, plan)
    requires (c + t)[8..] == BehindIds(r, ListFlag(r, BodyPen(plan).Next()), rest)
    requires GetUint32((c + t)[..8][..4]) == r.listId && GetUint32((c + t)[..8][4..]) == r.cListId
    ensures ReadList(c).Ok? && ReadList(c).value.0 == WithoutCut(r, plan, 8 + |c|) && IntoStrings(r, plan, 8 + |c|)
  {
    var flag := ListFlag(r, BodyPen(plan).Next());
    assert (c + t)[..8] == c[..8] && (c + t)[8..] == c[8..] + t;
    var c2 := GetString(c[8..], []).value.1;
    CutBehindString(c[8..], t, r.name, PutListFlags(flag, r.pLength, r.description, r.monitor, rest));
    FlagAnnounces(BodyPen(plan).Next(), r.description != [], r.monitor != []);
    OpenStringsAre(c2, t, r, flag, rest);
    ListParts(c, r.name, c2, ReadListFlags(c2).value.0, ReadListFlags(c2).value.1);
  }

  lemma OpenRecordIs(c: Bytes, t: Bytes, r: Record, plan: Plan, rest: Bytes)
    requires OpenRecord(c) && WellFormed(r, plan) && c + t == PutRecord(r, plan, rest)
    ensures r.List? && ReadRecord(c).Ok? && ReadRecord(c).value.0 == WithoutCut(r, plan, |c|) && IntoStrings(r, plan, |c|)
  {
    var (h, c1) := ReadHeader(c).value;
    HeaderFrame(c, c1 + t);
    UsedAll(c, c1, t);
    HeaderRoundTrip(WrittenType(r, plan), WrittenLength(r, plan), PutBody(r, BodyPen(plan), rest));
    BodyIds(r, BodyPen(plan), rest);
    OpenListIs(c1, t, r, plan, rest);
  }

  lemma ListFlagsRead(s: Bytes)
    requires |s| >= 3
    ensures ReadListFlags(s).Ok?
  {
  }

  lemma NameAndFlagsRead(c: Bytes, t: Bytes, b: Bytes, f: Bytes)
    requires ZeroFree(b) && c + t == PutString(b, f) && |b| + 4 <= |c|
    ensures GetString(c, []).Ok? && ReadListFlags(GetString(c, []).value.1).Ok?
  {
    StringReadIff(c, t, b, f);
    CutBehindString(c, t, b, f);
    ListFlagsRead(GetString(c, []).value.1);
  }

  lemma ListReads(c: Bytes)
    requires |c| >= 8 && GetString(c[8..], []).Ok? && ReadListFlags(GetString(c[8..], []).value.1).Ok?
    ensures ReadList(c).Ok?
  {
  }

  lemma IntoListReads(c: Bytes, t: Bytes, r: Record, pen: Pen, rest: Bytes)
    requires r.List? && ZeroFree(r.name) && c + t == PutBody(r, pen, rest) && |r.name| + 12 <= |c|
    ensures ReadList(c).Ok?
  {
    BodyIds(r, pen, rest);
    assert (c + t)[8..] == c[8..] + t;
    NameAndFlagsRead(c[8..], t, r.name, PutListFlags(ListFlag(r, pen.Next()), r.pLength, r.description, r.monitor, rest));
    ListReads(c);
  }

  lemma HeaderReads(c: Bytes, t: Bytes, typ: uint16, length: uint32, b: Bytes)
    requires c + t == PutHeader(typ, length, b) && 8 <= |c|
    ensures ReadHeader(c) == Ok((Header(typ, length), c[8..])) && c[8..] + t == b
  {
    HeaderRoundTrip(typ, length, b);
    assert (c + t)[..8] == c[..8] && (c + t)[8..] == c[8..] + t;
  }

  lemma ListRecordReads(s: Bytes, length: uint32, c: Bytes)
    requires ReadHeader(s) == Ok((Header(1, length), c)) && ReadList(c).Ok?
    ensures ReadRecord(s).Ok?
  {
  }

  lemma IntoStringsReads(c: Bytes, t: Bytes, r: Record, plan: Plan, rest: Bytes)
    requires WellFormed(r, plan) && c + t == PutRecord(r, plan, rest) && IntoStrings(r, plan, |c|)
    ensures ReadRecord(c).Ok?
  {
    var length := WrittenLength(r, plan);
    HeaderReads(c, t, 1, length, PutBody(r, BodyPen(plan), rest));
    IntoListReads(c[8..], t, r, BodyPen(plan), rest);
    ListRecordReads(c, length, c[8..]);
  }

  /** What is read of c when the record r is cut behind it. */
  predicate OnlyOpen(r: Record, plan: Plan, c: Bytes, fault: Error) {
    if IntoStrings(r, plan, |c|)
    then OpenRecord(c) && ReadRecord(c) == Ok((WithoutCut(r, plan, |c|), []))
    else ReadRecord(c) == Err(fault)
  }

  /** What is read of c when r is complete in it, and so is `rest` in c and t. */
  predicate TakesWhole(r: Record, c: Bytes, t: Bytes, rest: Bytes) {
    && |t| <= |rest| <= |c| + |t|
    && var c1 := c[|c| + |t| - |rest|..];
       c1 + t == rest && !OpenRecord(c) && ReadRecord(c) == Ok((r, c1))
  }

  /** A cut within the first record: nothing is read, or it is a list with a string left open. */
  lemma FirstCut(c: Bytes, t: Bytes, r: Record, plan: Plan, rest: Bytes)
    requires WellFormed(r, plan) && c + t == PutRecord(r, plan, rest) && |rest| < |t|
    ensures ReadRecord(c).Ok? <==> OpenRecord(c)
    ensures OpenRecord(c) <==> IntoStrings(r, plan, |c|)
  {
    RecordRoundTrip(r, plan, rest);
    if OpenRecord(c) {
      OpenTakesAll(c);
      OpenRecordIs(c, t, r, plan, rest);
    } else if ReadRecord(c).Ok? {
      Extended(c, t);
    } else if IntoStrings(r, plan, |c|) {
      IntoStringsReads(c, t, r, plan, rest);
    }
  }

  lemma WrittenIsClosed(r: Record, plan: Plan, rest: Bytes)
    requires WellFormed(r, plan)
    ensures !OpenRecord(PutRecord(r, plan, rest))
  {
    HeaderRoundTrip(WrittenType(r, plan), WrittenLength(r, plan), PutBody(r, BodyPen(plan), rest));
    if r.List? {
      ListRoundTrip(r, plan, rest);
    }
  }

  lemma SplitBehind(c: Bytes, t: Bytes, rest: Bytes)
    requires Behind(c + t, rest) && |t| <= |rest|
    ensures var c1 := c[|c| + |t| - |rest|..]; c1 + t == rest && Used(c + t, rest) + c1 == c
  {
  }

  /** A cut behind the first record. */
  lemma FirstKept(c: Bytes, t: Bytes, r: Record, plan: Plan, rest: Bytes)
    requires WellFormed(r, plan) && c + t == PutRecord(r, plan, rest) && |t| <= |rest|
    ensures TakesWhole(r, c, t, rest)
  {
    RecordRoundTrip(r, plan, rest);
    WrittenIsClosed(r, plan, rest);
    RecordFrame(c + t, []);
    SplitBehind(c, t, rest);
    RecordFrame(c + t, c[|c| + |t| - |rest|..]);
  }

  // ---------- the whole file ----------

  lemma FrontCons<T>(s: seq<T>, k: nat, t: seq<T>)
    requires k < |s|
    ensures s[..k + 1] + t == [s[0]] + (s[1..][..k] + t)
  {
    assert s[..k + 1] == [s[0]] + s[1..][..k];
    Seqs.Assoc([s[0]], s[1..][..k], t);
  }

  /** What is read in front of a record that is not open, in terms of what is read behind it. */
  lemma BehindRecord(c: Bytes, r: Record, c1: Bytes)
    requires ReadRecord(c) == Ok((r, c1)) && !OpenRecord(c)
    ensures |c1| < |c| && Records(c) == [r] + Records(c1) && (EndsOpen(c) <==> EndsOpen(c1))
  {
    RecordTakesHeader(c);
  }

  /** `silent` says for any number of missing bytes whether they are missed silently. */
  ghost predicate CutAs(r: Record, plan: Plan, rest: Bytes, silent: nat -> bool, c: Bytes, t: Bytes) {
    if |rest| < |t| then OnlyOpen(r, plan, c, Fault(silent(|t|))) else TakesWhole(r, c, t, rest)
  }

  /** Wherever s is cut, r is read or not as it should be. */
  ghost predicate CutsAs(r: Record, plan: Plan, s: Bytes, rest: Bytes, silent: nat -> bool) {
    forall c: Bytes, t: Bytes {:trigger CutAs(r, plan, rest, silent, c, t)} :: c + t == s ==> CutAs(r, plan, rest, silent, c, t)
  }

  lemma RecordCut(r: Record, plan: Plan, rest: Bytes, c: Bytes, t: Bytes)
    requires WellFormed(r, plan) && c + t == PutRecord(r, plan, rest) && |rest| < |t|
    ensures OnlyOpen(r, plan, c, Fault(SilentRecord(r, plan, rest, |t|)))
  {
    FirstCut(c, t, r, plan, rest);
    if OpenRecord(c) {
      OpenRecordIs(c, t, r, plan, rest);
      OpenTakesAll(c);
    } else {
      assert c == Short(PutRecord(r, plan, rest), |t|);
      RecordShort(r, plan, rest, |t|);
    }
  }

  lemma RecordCuts(r: Record, plan: Plan, s: Bytes, rest: Bytes, silent: nat -> bool)
    requires WellFormed(r, plan) && s == PutRecord(r, plan, rest) && forall n: nat :: silent(n) == SilentRecord(r, plan, rest, n)
    ensures CutsAs(r, plan, s, rest, silent)
  {
    forall c: Bytes, t: Bytes | c + t == s ensures CutAs(r, plan, rest, silent, c, t) {
      if |rest| < |t| {
        RecordCut(r, plan, rest, c, t);
      } else {
        FirstKept(c, t, r, plan, rest);
      }
    }
  }

  ghost predicate AllCut(rs: seq<Record>, plans: seq<Plan>, tails: seq<Bytes>, silents: seq<nat -> bool>) {
    && |silents| == |plans| == |rs| && |tails| == |rs| + 1 && tails[|rs|] == []
    && forall i :: 0 <= i < |rs| ==> CutsAs(rs[i], plans[i], tails[i], tails[i + 1], silents[i])
  }

  /** Which missing bytes are missed silently, for each record of a file. */
  ghost function Silents(rs: seq<Record>, plans: seq<Plan>, tails: seq<Bytes>): seq<nat -> bool>
    requires |plans| == |rs| && |tails| == |rs| + 1
  {
    seq(|rs|, i requires 0 <= i < |rs| => (n: nat) => SilentRecord(rs[i], plans[i], tails[i + 1], n))
  }

  lemma TailsStep(rs: seq<Record>, plans: seq<Plan>)
    requires |plans| == |rs| && rs != []
    ensures var tails, behind := Tails(rs, plans), Tails(rs[1..], plans[1..]);
      tails[1..] == behind && tails[0] == PutRecord(rs[0], plans[0], behind[0])
  {
  }

  lemma {:induction false} TailIs(rs: seq<Record>, plans: seq<Plan>, i: nat)
    requires |plans| == |rs| && i < |rs|
    ensures Tails(rs, plans)[i] == PutRecord(rs[i], plans[i], Tails(rs, plans)[i + 1])
  {
    TailsStep(rs, plans);
    var tails, behind := Tails(rs, plans), Tails(rs[1..], plans[1..]);
    assert tails[i + 1] == tails[1..][i] == behind[i];
    if i > 0 {
      TailIs(rs[1..], plans[1..], i - 1);
      assert tails[i] == tails[1..][i - 1] == behind[i - 1];
    }
  }

  lemma TailsCut(rs: seq<Record>, plans: seq<Plan>, tails: seq<Bytes>)
    requires AllWellFormed(rs, plans) && tails == Tails(rs, plans)
    ensures AllCut(rs, plans, tails, Silents(rs, plans, tails))
  {
    var silents := Silents(rs, plans, tails);
    forall i | 0 <= i < |rs| ensures CutsAs(rs[i], plans[i], tails[i], tails[i + 1], silents[i]) {
      TailIs(rs, plans, i);
      RecordCuts(rs[i], plans[i], tails[i], tails[i + 1], silents[i]);
    }
  }

  /** At p, with n bytes missing, the parse ends without an error. */
  ghost predicate SilentAt(rs: seq<Record>, plans: seq<Plan>, silents: seq<nat -> bool>, p: Place, n: nat)
    requires |silents| == |plans| == |rs| && p.k <= |rs|
  {
    p.k == |rs| || IntoStrings(rs[p.k], plans[p.k], p.m) || silents[p.k](n)
  }

  /** What is read of c, n bytes short of the whole, is what there is at p. */
  ghost predicate ReadsAt(rs: seq<Record>, plans: seq<Plan>, silents: seq<nat -> bool>, c: Bytes, p: Place, n: nat)
    requires |silents| == |plans| == |rs| && p.k <= |rs|
  {
    Records(c) == ReadOf(rs, plans, p) && Stop(c) == Fault(SilentAt(rs, plans, silents, p, n))
  }

  lemma ReadsNone(c: Bytes)
    requires ReadRecord(c).Err?
    ensures Records(c) == [] && Stop(c) == ReadRecord(c).error
  {
  }

  lemma ReadsOpen(c: Bytes, x: Record)
    requires OpenRecord(c) && ReadRecord(c) == Ok((x, []))
    ensures Records(c) == [x] && Stop(c) == Eof
  {
    RecordTakesHeader(c);
    assert ReadRecord([]).Err?;
  }

  lemma ReadsFirst(rs: seq<Record>, plans: seq<Plan>, silents: seq<nat -> bool>, c: Bytes, n: nat)
    requires |silents| == |plans| == |rs|
    requires if rs == [] then c == [] else OnlyOpen(rs[0], plans[0], c, Fault(silents[0](n)))
    ensures ReadsAt(rs, plans, silents, c, Place(0, |c|), n)
  {
    Seqs.NoneLeft(CutRest(rs, plans, Place(0, |c|)));
    if rs != [] && IntoStrings(rs[0], plans[0], |c|) {
      ReadsOpen(c, WithoutCut(rs[0], plans[0], |c|));
    } else {
      ReadsNone(c);
    }
  }

  lemma ReadOfBehind(rs: seq<Record>, plans: seq<Plan>, p: Place)
    requires |plans| == |rs| && rs != [] && p.k < |rs|
    ensures CutRest(rs, plans, Place(p.k + 1, p.m)) == CutRest(rs[1..], plans[1..], p)
    ensures ReadOf(rs, plans, Place(p.k + 1, p.m)) == [rs[0]] + ReadOf(rs[1..], plans[1..], p)
  {
    FrontCons(rs, p.k, CutRest(rs[1..], plans[1..], p));
  }

  lemma ReadsBehind(rs: seq<Record>, plans: seq<Plan>, silents: seq<nat -> bool>, c: Bytes, c1: Bytes, p: Place, n: nat)
    requires |silents| == |plans| == |rs| && rs != [] && p.k < |rs|
    requires ReadRecord(c) == Ok((rs[0], c1)) && !OpenRecord(c) && ReadsAt(rs[1..], plans[1..], silents[1..], c1, p, n)
    ensures ReadsAt(rs, plans, silents, c, Place(p.k + 1, p.m), n)
  {
    BehindRecord(c, rs[0], c1);
    ReadOfBehind(rs, plans, p);
  }

  /** The records read of the first n bytes are those complete in them, and behind them the list cut within its
      strings, if it is one; and the reading ends silently or not as the place of the cut says. */
  lemma {:induction false} CutRecords(rs: seq<Record>, plans: seq<Plan>, tails: seq<Bytes>, silents: seq<nat -> bool>, c: Bytes, t: Bytes)
    requires AllCut(rs, plans, tails, silents) && c + t == tails[0]
    ensures ReadsAt(rs, plans, silents, c, PlaceIn(tails, |c|), |t|)
    decreases |rs|
  {
    assert rs != [] ==> CutAs(rs[0], plans[0], tails[1], silents[0], c, t);
    if rs == [] || |tails[1]| < |t| {
      ReadsFirst(rs, plans, silents, c, |t|);
    } else {
      var c1 := c[|c| + |t| - |tails[1]|..];
      CutRecords(rs[1..], plans[1..], tails[1..], silents[1..], c1, t);
      ReadsBehind(rs, plans, silents, c, c1, PlaceIn(tails[1..], |c1|), |t|);
    }
  }

  /** The parse of the first n bytes of a file with these ends ends without an error: no record is cut, a list is cut
      within its strings, or the bytes that its record misses are missed silently. */
  ghost predicate SilentIn(rs: seq<Record>, plans: seq<Plan>, tails: seq<Bytes>, n: nat)
    requires |plans| == |rs| && |tails| == |rs| + 1 && n <= |tails[0]| && PlaceIn(tails, n).k <= |rs|
  {
    SilentAt(rs, plans, Silents(rs, plans, tails), PlaceIn(tails, n), |tails[0]| - n)
  }

  ghost predicate EndsSilently(rs: seq<Record>, plans: seq<Plan>, n: nat)
    requires |plans| == |rs| && n <= |PutAll(rs, plans)|
  {
    SilentIn(rs, plans, Tails(rs, plans), n)
  }

  function Outcome(types: set<uint32>, read: seq<Record>, silent: bool): Res<seq<Record>> {
    if silent then Ok(Selected(types, read)) else Err(Malformed)
  }

  lemma CutBytes(types: set<uint32>, rs: seq<Record>, plans: seq<Plan>, tails: seq<Bytes>, silents: seq<nat -> bool>, s: Bytes, n: nat)
    requires AllCut(rs, plans, tails, silents) && s == tails[0] && n <= |s|
    ensures var p := PlaceIn(tails, n);
      && p.k <= |rs|
      && Parse(types, [], s[..n]) == Outcome(types, ReadOf(rs, plans, p), SilentAt(rs, plans, silents, p, |s| - n))
  {
    assert s[..n] + s[n..] == s;
    ParseIs(types, s[..n]);
    CutRecords(rs, plans, tails, silents, s[..n], s[n..]);
  }

  lemma CutIn(types: set<uint32>, rs: seq<Record>, plans: seq<Plan>, tails: seq<Bytes>, n: nat)
    requires |plans| == |rs| && |tails| == |rs| + 1 && AllCut(rs, plans, tails, Silents(rs, plans, tails)) && n <= |tails[0]|
    ensures PlaceIn(tails, n).k <= |rs|
    ensures Parse(types, [], tails[0][..n]) == Outcome(types, ReadOf(rs, plans, PlaceIn(tails, n)), SilentIn(rs, plans, tails, n))
  {
    CutBytes(types, rs, plans, tails, Silents(rs, plans, tails), tails[0], n);
  }

  lemma PlaceIs(rs: seq<Record>, plans: seq<Plan>, tails: seq<Bytes>, n: nat)
    requires |plans| == |rs| && tails == Tails(rs, plans) && n <= |tails[0]|
    ensures PutAll(rs, plans) == tails[0] && PlaceOf(rs, plans, n) == PlaceIn(tails, n)
    ensures EndsSilently(rs, plans, n) == SilentIn(rs, plans, tails, n)
  {
  }

  /** Parse of the first n bytes of a written file, exactly: an error, or the wanted records among those complete in
      them and the list cut within its strings, if it is one. */
  lemma CutFile(types: set<uint32>, rs: seq<Record>, plans: seq<Plan>, n: nat)
    requires AllWellFormed(rs, plans) && n <= |PutAll(rs, plans)|
    ensures Parse(types, [], PutAll(rs, plans)[..n])
         == Outcome(types, ReadOf(rs, plans, PlaceOf(rs, plans, n)), EndsSilently(rs, plans, n))
  {
    var tails := Tails(rs, plans);
    PlaceIs(rs, plans, tails, n);
    TailsCut(rs, plans, tails);
    CutIn(types, rs, plans, tails, n);
  }

  lemma WithoutCutDiffers(r: Record, plan: Plan, n: int)
    requires r.List?
    ensures WithoutCut(r, plan, n) != r <==> r.monitor != [] || (r.description != [] && InDescription(r, plan, n))
  {
  }

  lemma SelectedFront(types: set<uint32>, rs: seq<Record>, k: nat)
    requires k <= |rs|
    ensures Selected(types, rs[..k]) <= Selected(types, rs)
  {
    assert rs == rs[..k] + rs[k..];
    SelectedConcat(types, rs[..k], rs[k..]);
  }

  lemma NotInFront<T>(front: seq<T>, x: T, y: T, rest: seq<T>)
    ensures front + [x] <= front + ([y] + rest) <==> x == y
  {
    assert (front + [x])[|front|] == x && (front + ([y] + rest))[|front|] == y;
  }

  /** A record x in the place of record k, of the same type. */
  lemma SelectedInPlace(types: set<uint32>, rs: seq<Record>, k: nat, x: Record)
    requires k < |rs| && TypeOf(x) == TypeOf(rs[k])
    ensures Selected(types, rs[..k] + [x]) <= Selected(types, rs) <==> TypeOf(x) !in types || x == rs[k]
  {
    assert rs == rs[..k] + ([rs[k]] + rs[k + 1..]);
    SelectedConcat(types, rs[..k], [rs[k]] + rs[k + 1..]);
    SelectedConcat(types, rs[..k], [x]);
    Seqs.Cons(rs[k], rs[k + 1..]);
    if TypeOf(x) in types {
      NotInFront(Selected(types, rs[..k]), x, rs[k], Selected(types, rs[k + 1..]));
    } else {
      Seqs.NoneLeft(Selected(types, rs[..k]));
    }
  }

  lemma ReadOfIff(types: set<uint32>, rs: seq<Record>, plans: seq<Plan>, p: Place)
    requires |plans| == |rs| && p.k <= |rs|
    ensures Selected(types, ReadOf(rs, plans, p)) <= Selected(types, rs) <==> 1 !in types || !TakesString(rs, plans, p)
  {
    if CutRest(rs, plans, p) == [] {
      Seqs.NoneLeft(rs[..p.k]);
      SelectedFront(types, rs, p.k);
    } else {
      var x := WithoutCut(rs[p.k], plans[p.k], p.m);
      WithoutCutDiffers(rs[p.k], plans[p.k], p.m);
      SelectedInPlace(types, rs, p.k, x);
    }
  }

  lemma TakesStringIsSilent(rs: seq<Record>, plans: seq<Plan>, n: nat)
    requires |plans| == |rs| && n <= |PutAll(rs, plans)| && TakesString(rs, plans, PlaceOf(rs, plans, n))
    ensures EndsSilently(rs, plans, n)
  {
  }

  /** A cut file gives an error or the first of the wanted records if and only if lists are not wanted or the cut
      does not take a string of a list. */
  lemma CutFileIff(types: set<uint32>, rs: seq<Record>, plans: seq<Plan>, n: nat)
    requires AllWellFormed(rs, plans) && n <= |PutAll(rs, plans)|
    ensures var r := Parse(types, [], PutAll(rs, plans)[..n]);
      (r.Ok? ==> r.value <= Selected(types, rs)) <==> 1 !in types || !TakesString(rs, plans, PlaceOf(rs, plans, n))
  {
    CutFile(types, rs, plans, n);
    ReadOfIff(types, rs, plans, PlaceOf(rs, plans, n));
    if TakesString(rs, plans, PlaceOf(rs, plans, n)) {
      TakesStringIsSilent(rs, plans, n);
    }
  }

  lemma ListSize(r: Record, plan: Plan, rest: Bytes)
    requires r.List?
    ensures |PutRecord(r, plan, rest)| == 16 + |BehindIds(r, ListFlag(r, BodyPen(plan).Next()), rest)|
  {
    var body := PutBody(r, BodyPen(plan), rest);
    assert |PutRecord(r, plan, rest)| == 8 + |body|;
    BodyIds(r, BodyPen(plan), rest);
    assert |body| == 8 + |body[8..]|;
  }

  lemma OneRecord(rs: seq<Record>, plans: seq<Plan>, n: int)
    requires |rs| == |plans| == 1 && n < |PutRecord(rs[0], plans[0], [])|
    ensures PutAll(rs, plans) == PutRecord(rs[0], plans[0], []) && PlaceOf(rs, plans, n) == Place(0, n)
  {
    assert rs[1..] == [] && Tails(rs[1..], plans[1..]) == [[]];
  }

  /** A list that has only a description, written by default and cut in front of it. */
  lemma DescriptionCut(r: Record, plan: Plan, n: int)
    requires r.List? && r.description != [] && r.monitor == [] && plan == [] && n == 20 + |r.name|
    ensures IntoStrings(r, plan, n) && WithoutCut(r, plan, n) == r.(description := [])
    ensures |BehindIds(r, ListFlag(r, BodyPen(plan).Next()), [])| == |r.name| + |r.description| + 5
  {
    assert ListFlag(r, BodyPen(plan).Next()) == 1;
  }

  lemma OneRead(types: set<uint32>, rs: seq<Record>, plans: seq<Plan>, n: int)
    requires 1 in types && |rs| == |plans| == 1 && IntoStrings(rs[0], plans[0], n)
    ensures var p, x := Place(0, n), WithoutCut(rs[0], plans[0], n);
      CutRest(rs, plans, p) == [x] && Selected(types, ReadOf(rs, plans, p)) == [x]
  {
    var x := WithoutCut(rs[0], plans[0], n);
    Seqs.NoneLeft([x]);
    assert Selected(types, [x]) == [x] + Selected(types, []);
  }

  /** It is read as a list without a description, and that is the result. */
  lemma DescriptionLost(types: set<uint32>, rs: seq<Record>, plans: seq<Plan>, n: nat)
    requires 1 in types && |rs| == 1 && plans == [[]] && AllWellFormed(rs, plans)
    requires rs[0].List? && rs[0].description != [] && rs[0].monitor == [] && n == 20 + |rs[0].name|
    ensures n < |PutAll(rs, plans)| && Parse(types, [], PutAll(rs, plans)[..n]) == Ok([rs[0].(description := [])])
  {
    DescriptionCut(rs[0], plans[0], n);
    ListSize(rs[0], plans[0], []);
    OneRecord(rs, plans, n);
    OneRead(types, rs, plans, n);
    CutFile(types, rs, plans, n);
  }

  lemma DefaultFits(r: Record, plan: Plan)
    requires r == List(1, 1, [], 2, [65], []) && plan == []
    ensures WellFormed(r, plan)
  {
    assert ListFlag(r, BodyPen(plan).Next()) == 1;
  }

  /** A list with the description "A". */
  lemma CutListExample(types: set<uint32>) returns (rs: seq<Record>, plans: seq<Plan>, n: nat)
    requires 1 in types
    ensures |rs| == 1 && AllWellFormed(rs, plans) && n < |PutAll(rs, plans)| && rs[0].List? && rs[0].description == [65]
    ensures Parse(types, [], PutAll(rs, plans)[..n]) == Ok([rs[0].(description := [])])
  {
    var r, plan: Plan := List(1, 1, [], 2, [65], []), [];
    DefaultFits(r, plan);
    rs, plans, n := [r], [plan], 20;
    DescriptionLost(types, rs, plans, n);
  }
}
