/** The atlas server's use of the hop index: when it is rebuilt, and what the gate in front of the queries lets by. */
module AtlasServer {
  import opened AtlasHopIndex
  import opened Common

  // ---------- the slow queries ----------

  /** The window is in minutes. */
  datatype Query = Query(dst: uint32, addr: uint32, src: uint32, window: int,
                         ignoreSource: bool, ignoreSourceAS: bool, useRR: bool, platforms: set<string>)

  predicate Usable(t: Trace, q: Query, now: int) {
    !t.stale && t.dest == q.dst && t.platform in q.platforms && t.date >= now - q.window * 60
  }

  // The variants that leave out the source's network find nothing: their arguments do not match their text.

  /** findIntersecting and findIntersectingIgnoreSource: a usable traceroute through addr or an alias of it. */
  ghost predicate FindsHop(db: Db, now: int, q: Query) {
    !q.ignoreSourceAS &&
    exists t, h :: t in db.traces && h in db.hops && h.traceId == t.id && Usable(t, q, now)
      && (q.ignoreSource ==> t.src != q.src) && (h.hop == q.addr || Aliased(db, q.addr, h.hop))
  }

  /** findIntersectingRR and findIntersectingRRIgnoreSource: addr itself was recorded for a usable traceroute. */
  ghost predicate FindsRR(db: Db, now: int, q: Query) {
    q.useRR && !q.ignoreSourceAS &&
    exists t, r :: t in db.traces && r in db.rrs && r.traceId == t.id && Usable(t, q, now)
      && r.rrHop == q.addr && (q.ignoreSource ==> t.src != q.src)
  }

  /** What a query finds in a table of one traceroute with one hop and one recorded address. */
  lemma OneTraceFound(t: Trace, h: Hop, r: RRHop, now: int, q: Query)
    ensures var db, wanted := Db({t}, {h}, {r}, {}),
        (!q.ignoreSourceAS && !t.stale && t.dest == q.dst && t.platform in q.platforms
         && now - t.date <= 60 * q.window && (q.ignoreSource ==> t.src != q.src));
      && (FindsHop(db, now, q) <==> wanted && h.traceId == t.id && h.hop == q.addr)
      && (FindsRR(db, now, q) <==> wanted && q.useRR && r.traceId == t.id && r.rrHop == q.addr)
  {
    var db := Db({t}, {h}, {r}, {});
    assert t in db.traces && h in db.hops && r in db.rrs;
  }

  lemma FoundIsCovered(db: Db, now: int, q: Query)
    requires q.window <= 1440
    requires FindsHop(db, now, q) || FindsRR(db, now, q)
    ensures Covered(db, now, q.dst, q.addr)
  {
    if FindsHop(db, now, q) {
      var t, h :| t in db.traces && h in db.hops && h.traceId == t.id && Usable(t, q, now)
        && (h.hop == q.addr || Aliased(db, q.addr, h.hop));
      if h.hop != q.addr {
        AliasedBothWays(db, q.addr, h.hop);
      }
      assert Through(db, t.id, h.hop) && Shares(db, h.hop, q.addr);
    } else {
      var t, r :| t in db.traces && r in db.rrs && r.traceId == t.id && Usable(t, q, now) && r.rrHop == q.addr;
      assert Through(db, t.id, q.addr) && Shares(db, q.addr, q.addr);
    }
  }

  /** The index against the queries themselves: when nothing is stale and no platform is left out, an address is covered
      exactly when the query of one day finds it among the hops, or finds it or an alias of it among what was recorded. */
  lemma CoveredIsFound(db: Db, now: int, q: Query)
    requires q.window == 1440 && q.useRR && !q.ignoreSource && !q.ignoreSourceAS
    requires forall t :: t in db.traces ==> !t.stale && t.platform in q.platforms
    ensures Covered(db, now, q.dst, q.addr) <==>
      || FindsHop(db, now, q)
      || FindsRR(db, now, q)
      || exists a :: Aliased(db, a, q.addr) && FindsRR(db, now, q.(addr := a))
  {
    if Covered(db, now, q.dst, q.addr) {
      var t, hop :| t in db.traces && t.dest == q.dst && now - t.date <= 24 * 3600 && Through(db, t.id, hop)
        && Shares(db, hop, q.addr);
      assert Usable(t, q, now) && Usable(t, q.(addr := hop), now);
      if exists h :: h in db.hops && h.traceId == t.id && h.hop == hop {
        if hop != q.addr {
          AliasedBothWays(db, hop, q.addr);
        }
        assert FindsHop(db, now, q);
      } else {
        var r :| r in db.rrs && r.traceId == t.id && r.rrHop == hop;
        assert FindsRR(db, now, q.(addr := hop));
        assert hop == q.addr ==> q.(addr := hop) == q;
      }
    }
    if FindsHop(db, now, q) || FindsRR(db, now, q) {
      FoundIsCovered(db, now, q);
    }
    if a :| Aliased(db, a, q.addr) && FindsRR(db, now, q.(addr := a)) {
      var t, r :| t in db.traces && r in db.rrs && r.traceId == t.id && Usable(t, q.(addr := a), now) && r.rrHop == a;
      assert Through(db, t.id, a) && Shares(db, a, q.addr);
    }
  }

  ghost predicate Finds(s: State, q: Query) {
    FindsHop(s.db, s.now, q) || FindsRR(s.db, s.now, q)
  }

  // ---------- runs ----------

  datatype State = State(db: Db, now: int, index: Index)

  /** An insertion brings any rows, and ends with a load unless a chunk failed or the load did. The alias table is
      replaced from outside. */
  datatype Step =
    | Insert(traces: set<Trace>, hops: set<Hop>, rrs: set<RRHop>, loaded: bool)
    | Reload(loaded: bool)
    | SetAliases(aliases: set<Alias>)
    | MarkStale(ids: set<int>)
    | MoveRRs(target: int, source: int)
    | Wait(seconds: nat)

  function Marked(traces: set<Trace>, ids: set<int>): set<Trace> {
    set t | t in traces :: if t.id in ids then t.(stale := true) else t
  }

  /** The record-route hops of traceroute `source` become those of `target`. */
  function Moved(rrs: set<RRHop>, target: int, source: int): set<RRHop> {
    set r | r in rrs :: if r.traceId == source then r.(traceId := target) else r
  }

  /** The marked traceroutes differ in the mark alone, and the others not at all. */
  lemma MarkedIs(traces: set<Trace>, ids: set<int>)
    ensures forall t: Trace :: t in Marked(traces, ids) <==>
      || (t in traces && t.id !in ids)
      || (t.id in ids && t.stale && exists b :: t.(stale := b) in traces)
  {
    forall t: Trace | t.id in ids && t.stale && exists b :: t.(stale := b) in traces ensures t in Marked(traces, ids) {
      var b :| t.(stale := b) in traces;
      assert t == t.(stale := b).(stale := true);
    }
    forall t | t in Marked(traces, ids) && t.id in ids ensures exists b :: t.(stale := b) in traces {
      var u :| u in traces && t == if u.id in ids then u.(stale := true) else u;
      assert t.(stale := u.stale) == u;
    }
  }

  /** Every row of the source is one of the target afterwards, and the rows of others stay. */
  lemma MovedIs(rrs: set<RRHop>, target: int, source: int)
    ensures forall r: RRHop :: r in Moved(rrs, target, source) <==>
      || (r in rrs && r.traceId != source)
      || (r.traceId == target && r.(traceId := source) in rrs)
  {
    forall r: RRHop | r.traceId == target && r.(traceId := source) in rrs ensures r in Moved(rrs, target, source) {
      assert r == r.(traceId := source).(traceId := target);
    }
    forall r | r in Moved(rrs, target, source) && !(r in rrs && r.traceId != source)
      ensures r.traceId == target && r.(traceId := source) in rrs
    {
      var u :| u in rrs && r == if u.traceId == source then u.(traceId := target) else u;
      assert r.(traceId := source) == u;
    }
  }

  /** The index is replaced as a whole or kept. */
  ghost predicate Loads(s: State, s': State, loaded: bool) {
    if loaded then IsClosure(s'.index, s'.db, s'.now) else s'.index == s.index
  }

  ghost predicate Next(s: State, step: Step, s': State) {
    match step
    case Insert(traces, hops, rrs, loaded) =>
      && s'.db == s.db.(traces := s.db.traces + traces, hops := s.db.hops + hops, rrs := s.db.rrs + rrs)
      && s'.now == s.now && Loads(s, s', loaded)
    case Reload(loaded) => s'.db == s.db && s'.now == s.now && Loads(s, s', loaded)
    case SetAliases(aliases) => s' == s.(db := s.db.(aliases := aliases))
    case MarkStale(ids) => s' == s.(db := s.db.(traces := Marked(s.db.traces, ids)))
    case MoveRRs(target, source) => s' == s.(db := s.db.(rrs := Moved(s.db.rrs, target, source)))
    case Wait(seconds) => s' == s.(now := s.now + seconds)
  }

  /** A run starts with an empty index; the server's first step is a load. */
  ghost predicate IsRun(states: seq<State>, steps: seq<Step>) {
    && |states| == |steps| + 1 && states[0].index == map[]
    && forall k :: 0 <= k < |steps| ==> Next(states[k], steps[k], states[k + 1])
  }

  predicate LoadsIndex(step: Step) {
    (step.Insert? || step.Reload?) && step.loaded
  }

  /** The number of the state right after the last load that succeeded, or 0. */
  function LastLoad(steps: seq<Step>, k: nat): (l: nat)
    requires k <= |steps|
    ensures l <= k
    ensures forall i :: l <= i < k ==> !LoadsIndex(steps[i])
    ensures l > 0 ==> LoadsIndex(steps[l - 1])
  {
    if k == 0 then 0 else if LoadsIndex(steps[k - 1]) then k else LastLoad(steps, k - 1)
  }

  /** Over all runs, failed loads included: the index is exactly the closure at the last load that succeeded. */
  lemma {:induction false} IndexIsLastLoad(states: seq<State>, steps: seq<Step>, k: nat, dst: uint32, addr: uint32)
    requires IsRun(states, steps) && k < |states|
    ensures var l := LastLoad(steps, k);
      InIndex(states[k].index, dst, addr) <==> l > 0 && Covered(states[l].db, states[l].now, dst, addr)
  {
    if k > 0 {
      assert Next(states[k - 1], steps[k - 1], states[k]);
      if !LoadsIndex(steps[k - 1]) {
        IndexIsLastLoad(states, steps, k - 1, dst, addr);
      }
    }
  }

  /** What the queries would find is turned away exactly when its pair was not covered at the last successful load. */
  lemma TurnedAwayIff(states: seq<State>, steps: seq<Step>, k: nat, q: Query)
    requires IsRun(states, steps) && k < |states| && Finds(states[k], q)
    ensures var l := LastLoad(steps, k);
      !InIndex(states[k].index, q.dst, q.addr) <==> l == 0 || !Covered(states[l].db, states[l].now, q.dst, q.addr)
  {
    IndexIsLastLoad(states, steps, k, q.dst, q.addr);
  }

  // ---------- runs without false negatives ----------

  /** Steps that may bring something into the closure without a load that succeeds. */
  predicate MayCover(step: Step) {
    step.Insert? || step.SetAliases? || step.MoveRRs?
  }

  /** A load succeeded, and since then rows and aliases only went stale or aged. */
  predicate Settled(steps: seq<Step>, k: nat)
    requires k <= |steps|
  {
    LastLoad(steps, k) > 0 && Quiet(steps, LastLoad(steps, k), k)
  }

  predicate Quiet(steps: seq<Step>, l: nat, k: nat)
    requires k <= |steps|
  {
    forall i :: l <= i < k ==> !MayCover(steps[i])
  }

  /** Every traceroute of `ts` is one of `us`, up to its stale mark. */
  ghost predicate SameTraces(ts: set<Trace>, us: set<Trace>) {
    forall t :: t in ts ==> exists u :: u in us && u.id == t.id && u.date == t.date && u.dest == t.dest
  }

  lemma CoveredEarlier(db: Db, db': Db, now: int, now': int, dst: uint32, addr: uint32)
    requires Covered(db', now', dst, addr) && now <= now'
    requires db'.hops == db.hops && db'.rrs == db.rrs && db'.aliases == db.aliases && SameTraces(db'.traces, db.traces)
    ensures Covered(db, now, dst, addr)
  {
    var t, hop :| t in db'.traces && t.dest == dst && now' - t.date <= 24 * 3600 && Through(db', t.id, hop)
      && Shares(db', hop, addr);
    var u :| u in db.traces && u.id == t.id && u.date == t.date && u.dest == t.dest;
    assert Through(db, u.id, hop);
    assert Shares(db, hop, addr);
  }

  lemma MarkedSame(traces: set<Trace>, ids: set<int>)
    ensures SameTraces(Marked(traces, ids), traces)
  {
  }

  lemma SameSelf(traces: set<Trace>)
    ensures SameTraces(traces, traces)
  {
  }

  /** The rows after step are those before it, up to stale marks. */
  ghost predicate SameRows(s: State, s': State) {
    && s.now <= s'.now && SameTraces(s'.db.traces, s.db.traces)
    && s'.db.hops == s.db.hops && s'.db.rrs == s.db.rrs && s'.db.aliases == s.db.aliases
  }

  lemma StepKeepsRows(s: State, step: Step, s': State)
    requires Next(s, step, s') && !MayCover(step)
    ensures SameRows(s, s')
  {
    SameSelf(s.db.traces);
    if step.MarkStale? {
      MarkedSame(s.db.traces, step.ids);
    }
  }

  /** Stale marks, failed loads and time cover nothing new. */
  lemma StepCoversNoMore(s: State, step: Step, s': State)
    requires Next(s, step, s') && !MayCover(step)
    ensures forall dst, addr :: Covered(s'.db, s'.now, dst, addr) ==> Covered(s.db, s.now, dst, addr)
  {
    StepKeepsRows(s, step, s');
    forall dst, addr | Covered(s'.db, s'.now, dst, addr) ensures Covered(s.db, s.now, dst, addr) {
      CoveredEarlier(s.db, s'.db, s.now, s'.now, dst, addr);
    }
  }

  lemma CoveredBefore(states: seq<State>, steps: seq<Step>, k: nat, dst: uint32, addr: uint32)
    requires IsRun(states, steps) && k < |steps| && !MayCover(steps[k])
    requires Covered(states[k + 1].db, states[k + 1].now, dst, addr)
    ensures Covered(states[k].db, states[k].now, dst, addr)
  {
    assert Next(states[k], steps[k], states[k + 1]);
    StepCoversNoMore(states[k], steps[k], states[k + 1]);
  }

  lemma {:induction false} CoveredSince(states: seq<State>, steps: seq<Step>, l: nat, k: nat, dst: uint32, addr: uint32)
    requires IsRun(states, steps) && l <= k < |states| && Quiet(steps, l, k)
    requires Covered(states[k].db, states[k].now, dst, addr)
    ensures Covered(states[l].db, states[l].now, dst, addr)
    decreases k
  {
    if l < k {
      CoveredBefore(states, steps, k - 1, dst, addr);
      CoveredSince(states, steps, l, k - 1, dst, addr);
    }
  }

  /** No false negatives: with nothing inserted since the last load, whatever a query with a window of at most a day
      would find, the index knows. */
  lemma NoFalseNegatives(states: seq<State>, steps: seq<Step>, k: nat, q: Query)
    requires IsRun(states, steps) && k < |states| && Settled(steps, k) && q.window <= 1440 && Finds(states[k], q)
    ensures InIndex(states[k].index, q.dst, q.addr)
  {
    FoundIsCovered(states[k].db, states[k].now, q);
    CoveredSince(states, steps, LastLoad(steps, k), k, q.dst, q.addr);
    IndexIsLastLoad(states, steps, k, q.dst, q.addr);
  }

  /** In settled states no query with window w is ever turned away from what it would find. */
  ghost predicate NeverTurnsAway(w: int) {
    forall states: seq<State>, steps: seq<Step>, k: nat, q: Query ::
      IsRun(states, steps) && k < |states| && Settled(steps, k) && q.window == w && Finds(states[k], q)
      ==> InIndex(states[k].index, q.dst, q.addr)
  }

  /** A longer window finds traceroutes older than a day, which no load puts in the index: the gate turns them away
      right after a load. */
  lemma LongWindowMisses(w: int) returns (states: seq<State>, steps: seq<Step>, q: Query)
    requires w > 1440
    ensures |states| == 2 && IsRun(states, steps) && Settled(steps, 1) && q.window == w
    ensures FindsHop(states[1].db, states[1].now, q) && FindsRR(states[1].db, states[1].now, q)
    ensures !InIndex(states[1].index, q.dst, q.addr)
  {
    var t := Trace(1, -DAY - 60, 1, 2, 0, "mlab", false);
    var db := Db({t}, {Hop(1, 3, 1)}, {RRHop(1, 3, 1, 1)}, {});
    var s := State(db, 0, map[]);
    states, steps := [s, s], [Reload(true)];
    q := Query(2, 3, 1, w, false, false, true, {"mlab"});
    assert t in db.traces && Hop(1, 3, 1) in db.hops && RRHop(1, 3, 1, 1) in db.rrs && Usable(t, q, 0);
    assert IsClosure(s.index, db, 0);
  }

  /** The windows of at most a day are exactly those for which the gate has no false negatives. */
  lemma WindowIff(w: int)
    ensures NeverTurnsAway(w) <==> w <= 1440
  {
    if w <= 1440 {
      forall states: seq<State>, steps: seq<Step>, k: nat, q: Query
        | IsRun(states, steps) && k < |states| && Settled(steps, k) && q.window == w && Finds(states[k], q)
        ensures InIndex(states[k].index, q.dst, q.addr)
      {
        NoFalseNegatives(states, steps, k, q);
      }
    } else {
      var states, steps, q := LongWindowMisses(w);
      assert Finds(states[1], q);
    }
  }

  /** A server whose load after an insertion failed, silently, turns away what it just stored. */
  lemma FailedLoadMisses() returns (states: seq<State>, steps: seq<Step>, q: Query)
    ensures |states| == 3 && IsRun(states, steps) && LastLoad(steps, 2) == 1 && q.window == 60
    ensures Finds(states[2], q) && !InIndex(states[2].index, q.dst, q.addr)
  {
    var t, h := Trace(1, 0, 1, 2, 0, "mlab", false), Hop(1, 3, 1);
    var s0 := State(Db({}, {}, {}, {}), 0, map[]);
    var s2 := State(Db({t}, {h}, {}, {}), 0, map[]);
    states, steps := [s0, s0, s2], [Reload(true), Insert({t}, {h}, {}, false)];
    q := Query(2, 3, 1, 60, false, false, true, {"mlab"});
    assert t in s2.db.traces && h in s2.db.hops && Usable(t, q, 0);
    assert Next(s0, steps[0], s0);
    assert s2.db == s0.db.(traces := {t}, hops := {h}, rrs := {});
    assert Next(s0, steps[1], s2);
  }

  // ---------- the server ----------

  /** A measured traceroute; `date` is the clock when its row is written. */
  datatype NewTrace = NewTrace(src: uint32, dest: uint32, asn: int, platform: string, date: int, hops: set<(uint32, nat)>)

  const CHUNK := 5000

  function TraceOf(tr: NewTrace, id: int): Trace {
    Trace(id, tr.date, tr.src, tr.dest, tr.asn, tr.platform, false)
  }

  /** The rows and the ids of a bulk insert whose first id is `first`. */
  function TraceRows(trs: seq<NewTrace>, first: int): set<Trace> {
    set i | 0 <= i < |trs| :: TraceOf(trs[i], first + i)
  }

  function HopRows(trs: seq<NewTrace>, first: int): set<Hop> {
    set i, h | 0 <= i < |trs| && h in trs[i].hops :: Hop(first + i, h.0, h.1)
  }

  /** The database after a bulk insert. */
  function Stored(db: Db, trs: seq<NewTrace>, first: int): Db {
    db.(traces := db.traces + TraceRows(trs, first), hops := db.hops + HopRows(trs, first))
  }

  function Ids(first: int, n: nat): (ids: seq<int>)
    ensures |ids| == n && forall i :: 0 <= i < n ==> ids[i] == first + i
  {
    seq(n, i => first + i)
  }

  lemma TraceRowsConcat(a: seq<NewTrace>, b: seq<NewTrace>, first: int)
    ensures TraceRows(a + b, first) == TraceRows(a, first) + TraceRows(b, first + |a|)
  {
    forall i | 0 <= i < |b| ensures TraceOf(b[i], first + |a| + i) in TraceRows(a + b, first) {
      assert (a + b)[|a| + i] == b[i] && first + (|a| + i) == first + |a| + i;
    }
    forall i | 0 <= i < |a| ensures TraceOf(a[i], first + i) in TraceRows(a + b, first) {
      assert (a + b)[i] == a[i];
    }
  }

  lemma HopRowsConcat(a: seq<NewTrace>, b: seq<NewTrace>, first: int)
    ensures HopRows(a + b, first) == HopRows(a, first) + HopRows(b, first + |a|)
  {
    forall i, h | 0 <= i < |b| && h in b[i].hops ensures Hop(first + |a| + i, h.0, h.1) in HopRows(a + b, first) {
      assert h in (a + b)[|a| + i].hops;
      assert first + |a| + i == first + (|a| + i);
    }
    forall i, h | 0 <= i < |a| && h in a[i].hops ensures Hop(first + i, h.0, h.1) in HopRows(a + b, first) {
      assert h in (a + b)[i].hops;
    }
  }

  lemma StoredConcat(db: Db, a: seq<NewTrace>, b: seq<NewTrace>, first: int)
    ensures Stored(Stored(db, a, first), b, first + |a|) == Stored(db, a + b, first)
  {
    TraceRowsConcat(a, b, first);
    HopRowsConcat(a, b, first);
    UnionAssoc(db.traces, TraceRows(a, first), TraceRows(b, first + |a|));
    UnionAssoc(db.hops, HopRows(a, first), HopRows(b, first + |a|));
  }

  lemma UnionAssoc<T>(a: set<T>, b: set<T>, c: set<T>)
    ensures (a + b) + c == a + (b + c)
  {
  }

  lemma IdsConcat(first: int, n: nat, m: nat)
    ensures Ids(first, n) + Ids(first + n, m) == Ids(first, n + m)
  {
  }

  /** Storing one more chunk behind the first k traceroutes is storing all up to its end at once. */
  lemma ChunkRows(db: Db, trs: seq<NewTrace>, k: nat, end: nat, first: int)
    requires k <= end <= |trs|
    ensures Stored(Stored(db, trs[..k], first), trs[k..end], first + k) == Stored(db, trs[..end], first)
    ensures Ids(first, k) + Ids(first + k, end - k) == Ids(first, end)
  {
    var a, b := trs[..k], trs[k..end];
    assert a + b == trs[..end];
    StoredConcat(db, a, b, first);
    IdsConcat(first, k, end - k);
  }

  // ---------- what an insertion stores ----------

  /** Each traceroute is stored under its own id with its own source, destination and hops. */
  ghost predicate HasRows(db: Db, trs: seq<NewTrace>, ids: seq<int>)
    requires |ids| == |trs|
  {
    forall i :: 0 <= i < |trs| ==>
      && Trace(ids[i], trs[i].date, trs[i].src, trs[i].dest, trs[i].asn, trs[i].platform, false) in db.traces
      && forall h :: h in trs[i].hops ==> Hop(ids[i], h.0, h.1) in db.hops
  }

  /** Nothing else is stored. */
  ghost predicate AllFrom(was: Db, rrs: set<RRHop>, db: Db, trs: seq<NewTrace>, ids: seq<int>)
    requires |ids| == |trs|
  {
    && db.aliases == was.aliases && db.rrs == was.rrs + rrs
    && was.traces <= db.traces && was.hops <= db.hops
    && (forall t :: t in db.traces - was.traces ==> exists i :: 0 <= i < |trs| && t.id == ids[i])
    && (forall h :: h in db.hops - was.hops ==>
         exists i :: 0 <= i < |trs| && h.traceId == ids[i] && (h.hop, h.ttl) in trs[i].hops)
  }

  /** Every fresh traceroute that was stored has its own hops, and what was recorded for it, under its own destination. */
  ghost predicate IndexHas(index: Index, db: Db, now: int, trs: seq<NewTrace>, ids: seq<int>)
    requires |ids| == |trs|
  {
    forall i :: 0 <= i < |trs| && now - trs[i].date <= 24 * 3600 ==>
      && (forall h :: h in trs[i].hops ==> InIndex(index, trs[i].dest, h.0))
      && (forall r :: r in db.rrs && r.traceId == ids[i] ==> InIndex(index, trs[i].dest, r.rrHop))
  }

  lemma RowsStored(was: Db, rrs: set<RRHop>, db: Db, trs: seq<NewTrace>, first: int)
    requires db == Stored(was, trs, first).(rrs := was.rrs + rrs)
    ensures HasRows(db, trs, Ids(first, |trs|)) && AllFrom(was, rrs, db, trs, Ids(first, |trs|))
  {
    forall i | 0 <= i < |trs| ensures TraceOf(trs[i], first + i) in db.traces {
    }
  }

  lemma StoredIsIndexed(index: Index, db: Db, now: int, trs: seq<NewTrace>, ids: seq<int>)
    requires |ids| == |trs| && HasRows(db, trs, ids) && IsClosure(index, db, now)
    ensures IndexHas(index, db, now, trs, ids)
  {
    forall i | 0 <= i < |trs| && now - trs[i].date <= 24 * 3600
      ensures forall h :: h in trs[i].hops ==> InIndex(index, trs[i].dest, h.0)
      ensures forall r :: r in db.rrs && r.traceId == ids[i] ==> InIndex(index, trs[i].dest, r.rrHop)
    {
      var t := Trace(ids[i], trs[i].date, trs[i].src, trs[i].dest, trs[i].asn, trs[i].platform, false);
      forall h | h in trs[i].hops ensures InIndex(index, trs[i].dest, h.0) {
        assert Hop(ids[i], h.0, h.1) in db.hops;
        assert Through(db, t.id, h.0) && Shares(db, h.0, h.0);
        assert Covered(db, now, t.dest, h.0);
      }
      forall r | r in db.rrs && r.traceId == ids[i] ensures InIndex(index, trs[i].dest, r.rrHop) {
        assert Through(db, t.id, r.rrHop) && Shares(db, r.rrHop, r.rrHop);
        assert Covered(db, now, t.dest, r.rrHop);
      }
    }
  }

  class Server {
    var db: Db
    var nextId: int
    var now: int
    var index: Index

    ghost function Value(): State
      reads this
    {
      State(db, now, index)
    }

    /** The server starts with one load, whose failure is ignored. */
    constructor (db: Db, nextId: int, now: int, rowsFail: bool, aliasesFail: bool)
      ensures Next(State(db, now, map[]), Reload(!rowsFail && !(aliasesFail && AnyCluster(db, now))), Value())
    {
      this.db, this.nextId, this.now, index := db, nextId, now, map[];
      new;
      var ok := Refresh(rowsFail, aliasesFail);
    }

    /** Rebuilds the index; a failed load leaves the old one in place. */
    method Refresh(rowsFail: bool, aliasesFail: bool) returns (ok: bool)
      modifies this`index
      ensures Next(old(Value()), Reload(ok), Value())
      ensures ok <==> !rowsFail && !(aliasesFail && AnyCluster(db, now))
    {
      var r := Load(db, now, rowsFail, aliasesFail);
      if r.Ok? {
        index := r.value;
      }
      return r.Ok?;
    }

    method StoreBulk(trs: seq<NewTrace>) returns (ids: seq<int>)
      modifies this`db, this`nextId
      ensures db == Stored(old(db), trs, old(nextId))
      ensures nextId == old(nextId) + |trs| && ids == Ids(old(nextId), |trs|)
    {
      db := db.(traces := db.traces + TraceRows(trs, nextId), hops := db.hops + HopRows(trs, nextId));
      ids := Ids(nextId, |trs|);
      nextId := nextId + |trs|;
    }

    /** The chunk loop: at most CHUNK traceroutes at a time, ids in order, stopping at the first failure. */
    method StoreAll(trs: seq<NewTrace>, fails: set<nat>) returns (ok: bool, ids: seq<int>, stored: nat)
      modifies this`db, this`nextId
      ensures stored <= |trs| && (ok <==> forall k :: k in fails && k % CHUNK == 0 ==> k >= |trs|)
      ensures ok ==> stored == |trs|
      ensures db == Stored(old(db), trs[..stored], old(nextId)) && ids == Ids(old(nextId), stored)
    {
      ids, stored := [], 0;
      while stored < |trs|
        invariant stored <= |trs| && nextId == old(nextId) + stored
        invariant stored < |trs| ==> stored % CHUNK == 0
        invariant forall k :: k in fails && k % CHUNK == 0 ==> k >= stored
        invariant db == Stored(old(db), trs[..stored], old(nextId)) && ids == Ids(old(nextId), stored)
      {
        if stored in fails {
          return false, ids, stored;
        }
        var end := if stored + CHUNK > |trs| then |trs| else stored + CHUNK;
        var more := StoreBulk(trs[stored..end]);
        ChunkRows(old(db), trs, stored, end, old(nextId));
        ids, stored := ids + more, end;
      }
      ok := true;
    }

    /** InsertTraceroutes: a failed chunk returns at once, before the index is rebuilt; a failed rebuild is ignored.
        `rrs` is what the record-route pings of the new traceroutes store. */
    method InsertTraceroutes(trs: seq<NewTrace>, rrs: set<RRHop>, fails: set<nat>, rowsFail: bool, aliasesFail: bool)
      returns (r: Result<seq<int>>, ghost stored: nat, ghost loaded: bool)
      modifies this`db, this`nextId, this`index
      ensures stored <= |trs|
      ensures r.Ok? <==> forall k :: k in fails && k % 5000 == 0 ==> k >= |trs|
      ensures r.Ok? ==> stored == |trs| && r.value == Ids(old(nextId), |trs|)
      ensures Next(old(Value()), Insert(TraceRows(trs[..stored], old(nextId)),
        HopRows(trs[..stored], old(nextId)), if r.Ok? then rrs else {}, loaded), Value())
      ensures loaded <==> r.Ok? && !rowsFail && !(aliasesFail && AnyCluster(db, now))
      ensures r.Ok? ==> |r.value| == |trs| && HasRows(db, trs, r.value)
      ensures r.Ok? ==> AllFrom(old(db), rrs, db, trs, r.value)
      ensures loaded ==> IndexHas(index, db, now, trs, r.value)
    {
      var ok, ids, n := StoreAll(trs, fails);
      stored, loaded := n, false;
      if !ok {
        return Err, stored, loaded;
      }
      db := db.(rrs := db.rrs + rrs);
      loaded := Refresh(rowsFail, aliasesFail);
      r := Ok(ids);
      assert trs[..stored] == trs;
      RowsStored(old(db), rrs, db, trs, old(nextId));
      if loaded {
        StoredIsIndexed(index, db, now, trs, ids);
      }
    }

    /** MarkTracerouteStale and its variants: whichever rows they pick. */
    method MarkStaleIds(ids: set<int>)
      modifies this`db
      ensures Next(old(Value()), MarkStale(ids), Value())
      ensures forall t: Trace :: t in db.traces <==>
        || (t in old(db).traces && t.id !in ids)
        || (t.id in ids && t.stale && exists b :: t.(stale := b) in old(db).traces)
    {
      db := db.(traces := Marked(db.traces, ids));
      MarkedIs(old(db).traces, ids);
    }

    /** UpdateRRIntersectionTracerouteNonStale(oldId, newId). Its statement names the new traceroute as the one whose
        rows are moved; the index is not rebuilt. */
    method MoveRRIntersections(oldId: int, newId: int)
      modifies this`db
      ensures Next(old(Value()), MoveRRs(oldId, newId), Value())
      ensures forall r: RRHop :: r in db.rrs <==>
        || (r in old(db).rrs && r.traceId != newId)
        || (r.traceId == oldId && r.(traceId := newId) in old(db).rrs)
    {
      db := db.(rrs := Moved(db.rrs, oldId, newId));
      MovedIs(old(db).rrs, oldId, newId);
    }

    /** The start of GetIntersectingPath: the default window, and whether the database is asked. */
    method Gate(q: Query) returns (ask: bool, q': Query)
      ensures q' == q.(window := if q.window == 0 then 60 else q.window)
      ensures ask <==> InIndex(index, q.dst, q.addr)
    {
      q' := q;
      if q.window == 0 {
        q' := q.(window := 60);
      }
      if q.dst !in index {
        return false, q';
      }
      if q.addr !in index[q.dst] {
        return false, q';
      }
      ask := true;
    }
  }
}
