/** Database insertion in batches: what is received is launched in order, and flushes share a fixed set of tokens. */
module InsertBatcher {
  const PING_BATCH := 20000
  const TRACEROUTE_BATCH := 1000
  const TOKENS := 500

  datatype Status = Waiting | Running | Done

  /** A launched flush goroutine: it waits for a token, stores its batch, and gives the token back. */
  datatype Flush<T> = Flush(batch: seq<T>, status: Status)

  /** One of the two queues: everything received, what is pending, and the flushes in launch order. */
  datatype Queue<T> = Queue(received: seq<T>, pending: seq<T>, flushes: seq<Flush<T>>)

  datatype State<P, R> = State(pings: Queue<P>, traceroutes: Queue<R>, free: nat)

  datatype Step<P, R> =
    | Tick
    | Ping(p: P)
    | Traceroute(r: R)
    | StartPing(k: nat)          // flush k gets a token
    | EndPing(k: nat)            // flush k gives it back
    | StartTraceroute(k: nat)
    | EndTraceroute(k: nat)

  // ---------- one queue ----------

  function Launch<T>(q: Queue<T>): Queue<T> {
    q.(pending := [], flushes := q.flushes + [Flush(q.pending, Waiting)])
  }

  function OnTick<T>(q: Queue<T>): Queue<T> {
    if |q.pending| > 0 then Launch(q) else q
  }

  function OnItem<T>(q: Queue<T>, x: T, limit: nat): Queue<T> {
    var q' := q.(received := q.received + [x], pending := q.pending + [x]);
    if |q'.pending| == limit then Launch(q') else q'
  }

  function SetStatus<T>(q: Queue<T>, k: nat, status: Status): Queue<T>
    requires k < |q.flushes|
  {
    q.(flushes := q.flushes[k := q.flushes[k].(status := status)])
  }

  predicate CanStart<T>(q: Queue<T>, k: nat) {
    k < |q.flushes| && q.flushes[k].status.Waiting?
  }

  predicate CanEnd<T>(q: Queue<T>, k: nat) {
    k < |q.flushes| && q.flushes[k].status.Running?
  }

  /** The launched batches one after the other. */
  function Launched<T>(flushes: seq<Flush<T>>): seq<T> {
    if flushes == [] then [] else Launched(flushes[..|flushes| - 1]) + flushes[|flushes| - 1].batch
  }

  function RunningIn<T>(flushes: seq<Flush<T>>): nat {
    if flushes == [] then 0
    else RunningIn(flushes[..|flushes| - 1]) + (if flushes[|flushes| - 1].status.Running? then 1 else 0)
  }

  // ---------- the inserter ----------

  function Next<P, R>(s: State<P, R>, step: Step<P, R>): State<P, R> {
    match step
    case Tick => s.(pings := OnTick(s.pings), traceroutes := OnTick(s.traceroutes))
    case Ping(p) => s.(pings := OnItem(s.pings, p, PING_BATCH))
    case Traceroute(r) => s.(traceroutes := OnItem(s.traceroutes, r, TRACEROUTE_BATCH))
    case StartPing(k) =>
      if CanStart(s.pings, k) && s.free > 0 then s.(pings := SetStatus(s.pings, k, Running), free := s.free - 1) else s
    case EndPing(k) =>
      if CanEnd(s.pings, k) then s.(pings := SetStatus(s.pings, k, Done), free := s.free + 1) else s
    case StartTraceroute(k) =>
      if CanStart(s.traceroutes, k) && s.free > 0
      then s.(traceroutes := SetStatus(s.traceroutes, k, Running), free := s.free - 1) else s
    case EndTraceroute(k) =>
      if CanEnd(s.traceroutes, k) then s.(traceroutes := SetStatus(s.traceroutes, k, Done), free := s.free + 1) else s
  }

  function Start<P, R>(): State<P, R> {
    State(Queue([], [], []), Queue([], [], []), TOKENS)
  }

  function Run<P, R>(steps: seq<Step<P, R>>): State<P, R> {
    if steps == [] then Start() else Next(Run(steps[..|steps| - 1]), steps[|steps| - 1])
  }

  // ---------- what a queue keeps ----------

  ghost predicate BatchesOk<T>(flushes: seq<Flush<T>>, limit: nat) {
    forall k :: 0 <= k < |flushes| ==> 0 < |flushes[k].batch| <= limit
  }

  /** Nothing is lost, repeated or reordered; batches are non-empty and within the limit; less than a batch waits. */
  ghost predicate QueueInv<T>(q: Queue<T>, limit: nat) {
    Launched(q.flushes) + q.pending == q.received && BatchesOk(q.flushes, limit) && |q.pending| < limit
  }

  lemma LaunchedOne<T>(flushes: seq<Flush<T>>, f: Flush<T>)
    ensures Launched(flushes + [f]) == Launched(flushes) + f.batch
    ensures RunningIn(flushes + [f]) == RunningIn(flushes) + if f.status.Running? then 1 else 0
  {
    assert (flushes + [f])[..|flushes|] == flushes;
  }

  lemma LaunchKeeps<T>(q: Queue<T>, limit: nat)
    requires Launched(q.flushes) + q.pending == q.received && BatchesOk(q.flushes, limit)
    requires 0 < |q.pending| <= limit
    ensures QueueInv(Launch(q), limit) && RunningIn(Launch(q).flushes) == RunningIn(q.flushes)
  {
    var f := Flush(q.pending, Waiting);
    LaunchedOne(q.flushes, f);
    BatchesOne(q.flushes, f, limit);
    assert Launched(Launch(q).flushes) + [] == Launched(Launch(q).flushes);
  }

  lemma BatchesOne<T>(flushes: seq<Flush<T>>, f: Flush<T>, limit: nat)
    requires BatchesOk(flushes, limit) && 0 < |f.batch| <= limit
    ensures BatchesOk(flushes + [f], limit)
  {
  }

  lemma TickKeeps<T>(q: Queue<T>, limit: nat)
    requires QueueInv(q, limit)
    ensures QueueInv(OnTick(q), limit) && RunningIn(OnTick(q).flushes) == RunningIn(q.flushes)
  {
    if |q.pending| > 0 {
      LaunchKeeps(q, limit);
    }
  }

  lemma ItemKeeps<T>(q: Queue<T>, x: T, limit: nat)
    requires QueueInv(q, limit)
    ensures QueueInv(OnItem(q, x, limit), limit) && RunningIn(OnItem(q, x, limit).flushes) == RunningIn(q.flushes)
  {
    var q' := q.(received := q.received + [x], pending := q.pending + [x]);
    assert Launched(q'.flushes) + q'.pending == q'.received;
    if |q'.pending| == limit {
      LaunchKeeps(q', limit);
    }
  }

  lemma {:induction false} StatusKeeps<T>(flushes: seq<Flush<T>>, k: nat, status: Status)
    requires k < |flushes|
    ensures var flushes' := flushes[k := flushes[k].(status := status)];
      && Launched(flushes') == Launched(flushes)
      && RunningIn(flushes') + (if flushes[k].status.Running? then 1 else 0)
         == RunningIn(flushes) + if status.Running? then 1 else 0
  {
    var n := |flushes| - 1;
    var flushes' := flushes[k := flushes[k].(status := status)];
    if k < n {
      StatusKeeps(flushes[..n], k, status);
      assert flushes'[..n] == flushes[..n][k := flushes[k].(status := status)];
    } else {
      assert flushes'[..n] == flushes[..n];
    }
  }

  // ---------- what the inserter keeps ----------

  ghost predicate TokensInv<P, R>(s: State<P, R>) {
    s.free + RunningIn(s.pings.flushes) + RunningIn(s.traceroutes.flushes) == TOKENS
  }

  ghost predicate Inv<P, R>(s: State<P, R>) {
    QueueInv(s.pings, PING_BATCH) && QueueInv(s.traceroutes, TRACEROUTE_BATCH) && TokensInv(s)
  }

  lemma StepKeeps<P, R>(s: State<P, R>, step: Step<P, R>)
    requires Inv(s)
    ensures Inv(Next(s, step))
  {
    match step
    case Tick => TickKeeps(s.pings, PING_BATCH); TickKeeps(s.traceroutes, TRACEROUTE_BATCH);
    case Ping(p) => ItemKeeps(s.pings, p, PING_BATCH);
    case Traceroute(r) => ItemKeeps(s.traceroutes, r, TRACEROUTE_BATCH);
    case StartPing(k) => if CanStart(s.pings, k) { StatusKeeps(s.pings.flushes, k, Running); }
    case EndPing(k) => if CanEnd(s.pings, k) { StatusKeeps(s.pings.flushes, k, Done); }
    case StartTraceroute(k) => if CanStart(s.traceroutes, k) { StatusKeeps(s.traceroutes.flushes, k, Running); }
    case EndTraceroute(k) => if CanEnd(s.traceroutes, k) { StatusKeeps(s.traceroutes.flushes, k, Done); }
  }

  /** Over every run: for each queue the batches in launch order followed by what is pending are what was received,
      and the free tokens and the running flushes are always as many as the tokens there were. */
  lemma {:induction false} RunKeeps<P, R>(steps: seq<Step<P, R>>)
    ensures Inv(Run(steps))
  {
    if steps != [] {
      RunKeeps(steps[..|steps| - 1]);
      StepKeeps(Run(steps[..|steps| - 1]), steps[|steps| - 1]);
    }
  }

  /** No more than 500 flushes ever run at once, and giving a token back never finds the channel full. */
  lemma TokensNeverOverflow<P, R>(steps: seq<Step<P, R>>)
    ensures var s := Run(steps);
      && s.free + RunningIn(s.pings.flushes) + RunningIn(s.traceroutes.flushes) == 500
      && forall k :: CanEnd(s.pings, k) || CanEnd(s.traceroutes, k) ==> s.free < 500
  {
    RunKeeps(steps);
    var s := Run(steps);
    forall k | CanEnd(s.pings, k) ensures RunningIn(s.pings.flushes) > 0 {
      StatusKeeps(s.pings.flushes, k, Done);
    }
    forall k | CanEnd(s.traceroutes, k) ensures RunningIn(s.traceroutes.flushes) > 0 {
      StatusKeeps(s.traceroutes.flushes, k, Done);
    }
  }

  lemma TickEmpties<T>(q: Queue<T>, limit: nat)
    requires QueueInv(q, limit)
    ensures Launched(OnTick(q).flushes) == OnTick(q).received
  {
    if |q.pending| > 0 {
      LaunchedOne(q.flushes, Flush(q.pending, Waiting));
    } else {
      assert Launched(q.flushes) + q.pending == Launched(q.flushes);
    }
  }

  /** After a tick nothing is left pending: all that was received is launched. */
  lemma TickLaunchesAll<P, R>(steps: seq<Step<P, R>>)
    ensures var s := Next(Run(steps), Tick);
      Launched(s.pings.flushes) == s.pings.received && Launched(s.traceroutes.flushes) == s.traceroutes.received
  {
    RunKeeps(steps);
    TickEmpties(Run(steps).pings, PING_BATCH);
    TickEmpties(Run(steps).traceroutes, TRACEROUTE_BATCH);
  }

  /** Flush k of a queue was launched by step i, a tick. */
  ghost predicate ByTick<P, R>(steps: seq<Step<P, R>>, i: nat, k: nat, pings: bool) {
    && i < |steps| && steps[i].Tick?
    && (if pings then |Run(steps[..i]).pings.flushes| == k < |Run(steps[..i + 1]).pings.flushes|
        else |Run(steps[..i]).traceroutes.flushes| == k < |Run(steps[..i + 1]).traceroutes.flushes|)
  }

  lemma ByTickLater<P, R>(steps: seq<Step<P, R>>, i: nat, k: nat, pings: bool)
    requires steps != [] && ByTick(steps[..|steps| - 1], i, k, pings)
    ensures ByTick(steps, i, k, pings)
  {
    assert steps[..|steps| - 1][..i] == steps[..i] && steps[..|steps| - 1][..i + 1] == steps[..i + 1];
  }

  /** One step launches at most one batch of pings, and only a tick launches one that is not full. */
  lemma StepLaunches<P, R>(s: State<P, R>, step: Step<P, R>)
    ensures var f, f' := s.pings.flushes, Next(s, step).pings.flushes;
      && |f| <= |f'| <= |f| + 1 && (forall k :: 0 <= k < |f| ==> f'[k].batch == f[k].batch)
      && (|f'| > |f| ==> step.Tick? || |f'[|f|].batch| == 20000)
    ensures var f, f' := s.traceroutes.flushes, Next(s, step).traceroutes.flushes;
      && |f| <= |f'| <= |f| + 1 && (forall k :: 0 <= k < |f| ==> f'[k].batch == f[k].batch)
      && (|f'| > |f| ==> step.Tick? || |f'[|f|].batch| == 1000)
  {
  }

  /** Over every run: a batch that was not launched by a tick is full. */
  lemma {:induction false} FullOrByTick<P, R>(steps: seq<Step<P, R>>, k: nat, pings: bool)
    requires k < if pings then |Run(steps).pings.flushes| else |Run(steps).traceroutes.flushes|
    ensures || (exists i :: ByTick(steps, i, k, pings))
            || (pings && |Run(steps).pings.flushes[k].batch| == 20000)
            || (!pings && |Run(steps).traceroutes.flushes[k].batch| == 1000)
  {
    var before, step := steps[..|steps| - 1], steps[|steps| - 1];
    var s := Run(before);
    StepLaunches(s, step);
    if k < if pings then |s.pings.flushes| else |s.traceroutes.flushes| {
      FullOrByTick(before, k, pings);
      if i :| ByTick(before, i, k, pings) {
        ByTickLater(steps, i, k, pings);
      }
    } else if step.Tick? {
      assert steps[..|before| + 1] == steps;
      assert ByTick(steps, |before|, k, pings);
    }
  }

  // ---------- the loop ----------

  /** The variables of insertIntoDB and the token channel. */
  class Inserter<P, R> {
    var pings: seq<P>
    var traceroutes: seq<R>
    var pingFlushes: seq<Flush<P>>
    var tracerouteFlushes: seq<Flush<R>>
    var tokens: nat
    ghost var pingsIn: seq<P>
    ghost var traceroutesIn: seq<R>

    ghost function Value(): State<P, R>
      reads this
    {
      State(Queue(pingsIn, pings, pingFlushes), Queue(traceroutesIn, traceroutes, tracerouteFlushes), tokens)
    }

    /** Fills the token channel, which holds as many as there are. */
    constructor ()
      ensures Value() == Start()
    {
      pings, traceroutes, pingFlushes, tracerouteFlushes, tokens := [], [], [], [], 0;
      pingsIn, traceroutesIn := [], [];
      new;
      for i := 0 to TOKENS
        invariant tokens == i
        invariant Value() == Start<P, R>().(free := i)
      {
        tokens := tokens + 1;
      }
    }

    method OnTicker()
      modifies this
      ensures Value() == Next(old(Value()), Tick)
    {
      if |pings| > 0 {
        pingFlushes := pingFlushes + [Flush(pings, Waiting)];
        pings := [];
      }
      if |traceroutes| > 0 {
        tracerouteFlushes := tracerouteFlushes + [Flush(traceroutes, Waiting)];
        traceroutes := [];
      }
    }

    method OnPing(p: P)
      modifies this
      ensures Value() == Next(old(Value()), Ping(p))
    {
      pings, pingsIn := pings + [p], pingsIn + [p];
      if |pings| == PING_BATCH {
        pingFlushes := pingFlushes + [Flush(pings, Waiting)];
        pings := [];
      }
    }

    method OnTraceroute(r: R)
      modifies this
      ensures Value() == Next(old(Value()), Traceroute(r))
    {
      traceroutes, traceroutesIn := traceroutes + [r], traceroutesIn + [r];
      if |traceroutes| == TRACEROUTE_BATCH {
        tracerouteFlushes := tracerouteFlushes + [Flush(traceroutes, Waiting)];
        traceroutes := [];
      }
    }

    /** flushPingBatch up to the point where it has its token; it waits while there is none. */
    method BeginPingFlush(k: nat)
      requires CanStart(Value().pings, k) && tokens > 0
      modifies this
      ensures Value() == Next(old(Value()), StartPing(k))
    {
      tokens := tokens - 1;
      pingFlushes := pingFlushes[k := pingFlushes[k].(status := Running)];
    }

    /** The rest of flushPingBatch; a failed insertion is only logged. */
    method EndPingFlush(k: nat)
      requires CanEnd(Value().pings, k)
      modifies this
      ensures Value() == Next(old(Value()), EndPing(k))
    {
      pingFlushes := pingFlushes[k := pingFlushes[k].(status := Done)];
      tokens := tokens + 1;
    }

    method BeginTracerouteFlush(k: nat)
      requires CanStart(Value().traceroutes, k) && tokens > 0
      modifies this
      ensures Value() == Next(old(Value()), StartTraceroute(k))
    {
      tokens := tokens - 1;
      tracerouteFlushes := tracerouteFlushes[k := tracerouteFlushes[k].(status := Running)];
    }

    method EndTracerouteFlush(k: nat)
      requires CanEnd(Value().traceroutes, k)
      modifies this
      ensures Value() == Next(old(Value()), EndTraceroute(k))
    {
      tracerouteFlushes := tracerouteFlushes[k := tracerouteFlushes[k].(status := Done)];
      tokens := tokens + 1;
    }
  }
}
