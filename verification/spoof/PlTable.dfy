/** The plcontroller's table of registered spoofs: a reply is held until the next tick, handed to the sender's
    transport in one batch per sender, and registrations that stay unanswered are cleaned out. */
module PlTable {
  import opened Common
  import opened SpoofTypes

  /** Ages in nanoseconds. */
  const REUSE_AFTER := 60_000_000_000
  const EXPIRE_AFTER := 120_000_000_000

  /** `reg` numbers the registrations in the order they were accepted. */
  datatype Entry = Entry(reg: nat, t: int, probe: Option<Probe>)

  datatype Item = Item(reg: nat, probe: Probe)

  /** How registrations leave the table: in a batch, by age, or by a new registration of the same id. */
  datatype Event =
    | Sent(ip: uint32, items: seq<Item>, ok: bool)
    | Expired(reg: nat, age: int)
    | Replaced(reg: nat, age: int)

  /** regs[n] is the id of registration n; `log` is everything that ever left, `rx` every probe ever received. */
  datatype State = State(spoofs: map<uint32, Entry>, regs: seq<uint32>, log: seq<Event>, rx: set<Probe>)

  datatype Step =
    | Register(id: uint32, now: int)
    | Receive(p: Probe)
    | Tick(order: seq<uint32>, ips: seq<uint32>, fails: set<uint32>)
    | Clean(order: seq<uint32>, clock: map<uint32, int>)

  // ---------- the lock regions ----------

  predicate IdInUse(s: State, id: uint32, now: int) {
    id in s.spoofs && now - s.spoofs[id].t <= REUSE_AFTER
  }

  function DoRegister(s: State, id: uint32, now: int): State {
    if IdInUse(s, id, now) then s
    else
      var log := if id in s.spoofs then s.log + [Replaced(s.spoofs[id].reg, now - s.spoofs[id].t)] else s.log;
      s.(spoofs := s.spoofs[id := Entry(|s.regs|, now, None)], regs := s.regs + [id], log := log)
  }

  function DoReceive(s: State, p: Probe): State {
    if p.id !in s.spoofs then s
    else s.(spoofs := s.spoofs[p.id := s.spoofs[p.id].(probe := Some(p))], rx := s.rx + {p})
  }

  /** The answered entries, in the order the table is walked. */
  function Collected(spoofs: map<uint32, Entry>, order: seq<uint32>): seq<Item> {
    if order == [] then []
    else
      var before, id := Collected(spoofs, order[..|order| - 1]), order[|order| - 1];
      if id in spoofs && spoofs[id].probe.Some? then before + [Item(spoofs[id].reg, spoofs[id].probe.value)] else before
  }

  /** What of `hs` goes to the sender `ip`. */
  function Bucket(hs: seq<Item>, ip: uint32): seq<Item> {
    if hs == [] then []
    else
      var before, h := Bucket(hs[..|hs| - 1], ip), hs[|hs| - 1];
      if h.probe.sender == ip then before + [h] else before
  }

  function Batches(hs: seq<Item>, ips: seq<uint32>, fails: set<uint32>): seq<Event> {
    if ips == [] then []
    else
      var ip := ips[|ips| - 1];
      Batches(hs, ips[..|ips| - 1], fails) + [Sent(ip, Bucket(hs, ip), ip !in fails)]
  }

  /** A walk of the whole table, and of every sender with something to send, once each, in any order. */
  ghost predicate Walk(order: seq<uint32>, keys: set<uint32>) {
    NoDup(order) && Elems(order) == keys
  }

  ghost function Senders(hs: seq<Item>): set<uint32> {
    set h | h in hs :: h.probe.sender
  }

  function DoTick(s: State, order: seq<uint32>, ips: seq<uint32>, fails: set<uint32>): State {
    s.(spoofs := map id | id in s.spoofs && s.spoofs[id].probe.None? :: s.spoofs[id],
       log := s.log + Batches(Collected(s.spoofs, order), ips, fails))
  }

  /** `clock` is the time read when the walk reaches each entry. */
  predicate IsOverdue(spoofs: map<uint32, Entry>, id: uint32, clock: map<uint32, int>) {
    id in spoofs && id in clock && clock[id] - spoofs[id].t > EXPIRE_AFTER
  }

  function Overdue(spoofs: map<uint32, Entry>, order: seq<uint32>, clock: map<uint32, int>): seq<Event> {
    if order == [] then []
    else
      var before, id := Overdue(spoofs, order[..|order| - 1], clock), order[|order| - 1];
      if IsOverdue(spoofs, id, clock) then before + [Expired(spoofs[id].reg, clock[id] - spoofs[id].t)] else before
  }

  function DoClean(s: State, order: seq<uint32>, clock: map<uint32, int>): State {
    s.(spoofs := map id | id in s.spoofs && !IsOverdue(s.spoofs, id, clock) :: s.spoofs[id],
       log := s.log + Overdue(s.spoofs, order, clock))
  }

  // ---------- runs ----------

  const START := State(map[], [], [], {})

  ghost function Next(s: State, step: Step): State {
    match step
    case Register(id, now) => DoRegister(s, id, now)
    case Receive(p) => DoReceive(s, p)
    case Tick(order, ips, fails) =>
      if Walk(order, s.spoofs.Keys) && Walk(ips, Senders(Collected(s.spoofs, order))) then DoTick(s, order, ips, fails)
      else s
    case Clean(order, clock) => if Walk(order, s.spoofs.Keys) then DoClean(s, order, clock) else s
  }

  ghost function Run(s: State, steps: seq<Step>): State {
    if steps == [] then s else Next(Run(s, steps[..|steps| - 1]), steps[|steps| - 1])
  }

  // ---------- counting fates ----------

  function Times(items: seq<Item>, n: nat): nat {
    if items == [] then 0 else Times(items[..|items| - 1], n) + (if items[|items| - 1].reg == n then 1 else 0)
  }

  function Here(e: Event, n: nat): nat {
    if e.Sent? then Times(e.items, n) else if e.reg == n then 1 else 0
  }

  /** How often registration n left the table. */
  function Fates(log: seq<Event>, n: nat): nat {
    if log == [] then 0 else Fates(log[..|log| - 1], n) + Here(log[|log| - 1], n)
  }

  lemma FatesOne(log: seq<Event>, e: Event, n: nat)
    ensures Fates(log + [e], n) == Fates(log, n) + Here(e, n)
  {
    assert (log + [e])[..|log|] == log;
  }

  lemma {:induction false} FatesConcat(a: seq<Event>, b: seq<Event>, n: nat)
    ensures Fates(a + b, n) == Fates(a, n) + Fates(b, n)
  {
    if b == [] {
      assert a + b == a;
    } else {
      var b', e := b[..|b| - 1], b[|b| - 1];
      FatesConcat(a, b', n);
      assert a + b == (a + b') + [e];
      FatesOne(a + b', e, n);
    }
  }

  lemma BucketOne(hs: seq<Item>, h: Item, ip: uint32, n: nat)
    ensures Times(Bucket(hs + [h], ip), n)
         == Times(Bucket(hs, ip), n) + if h.probe.sender == ip && h.reg == n then 1 else 0
  {
    assert (hs + [h])[..|hs|] == hs;
    var before := Bucket(hs, ip);
    assert (before + [h])[..|before|] == before;
  }

  /** One more answered entry adds one item over all the batches. */
  lemma {:induction false} BatchesOne(hs: seq<Item>, h: Item, ips: seq<uint32>, fails: set<uint32>, n: nat)
    requires NoDup(ips)
    ensures Fates(Batches(hs + [h], ips, fails), n)
         == Fates(Batches(hs, ips, fails), n) + if h.probe.sender in ips && h.reg == n then 1 else 0
  {
    if ips != [] {
      var ips', ip := ips[..|ips| - 1], ips[|ips| - 1];
      BatchesOne(hs, h, ips', fails, n);
      BucketOne(hs, h, ip, n);
      FatesOne(Batches(hs, ips', fails), Sent(ip, Bucket(hs, ip), ip !in fails), n);
      FatesOne(Batches(hs + [h], ips', fails), Sent(ip, Bucket(hs + [h], ip), ip !in fails), n);
    }
  }

  lemma {:induction false} NoBatches(ips: seq<uint32>, fails: set<uint32>, n: nat)
    ensures Fates(Batches([], ips, fails), n) == 0
  {
    if ips != [] {
      var ips', ip := ips[..|ips| - 1], ips[|ips| - 1];
      NoBatches(ips', fails, n);
      FatesOne(Batches([], ips', fails), Sent(ip, Bucket([], ip), ip !in fails), n);
    }
  }

  /** The batches of one tick hold every answered entry exactly once. */
  lemma {:induction false} BatchesAreCollected(hs: seq<Item>, ips: seq<uint32>, fails: set<uint32>, n: nat)
    requires NoDup(ips) && forall h :: h in hs ==> h.probe.sender in ips
    ensures Fates(Batches(hs, ips, fails), n) == Times(hs, n)
  {
    if hs == [] {
      NoBatches(ips, fails, n);
    } else {
      var hs', h := hs[..|hs| - 1], hs[|hs| - 1];
      BatchesAreCollected(hs', ips, fails, n);
      assert hs == hs' + [h];
      BatchesOne(hs', h, ips, fails, n);
    }
  }

  // ---------- the invariant ----------

  predicate Live(s: State, n: nat) {
    n < |s.regs| && s.regs[n] in s.spoofs && s.spoofs[s.regs[n]].reg == n
  }

  predicate TableInv(s: State) {
    forall id :: id in s.spoofs ==> s.spoofs[id].reg < |s.regs| && s.regs[s.spoofs[id].reg] == id
  }

  /** Whatever answer an entry holds was received and carries the entry's id. */
  predicate ProbeInv(s: State) {
    forall id :: id in s.spoofs && s.spoofs[id].probe.Some? ==>
      s.spoofs[id].probe.value.id == id && s.spoofs[id].probe.value in s.rx
  }

  /** Every registration is in the table or left it exactly once. */
  predicate FateInv(s: State, n: nat) {
    (if Live(s, n) then 1 else 0) + Fates(s.log, n) == if n < |s.regs| then 1 else 0
  }

  predicate ItemOk(regs: seq<uint32>, rx: set<Probe>, ip: uint32, item: Item) {
    && item.reg < |regs| && regs[item.reg] == item.probe.id
    && item.probe.sender == ip && item.probe in rx
  }

  predicate EventOk(regs: seq<uint32>, rx: set<Probe>, e: Event) {
    match e
    case Sent(ip, items, _) => forall i :: 0 <= i < |items| ==> ItemOk(regs, rx, ip, items[i])
    case Expired(reg, age) => reg < |regs| && age > EXPIRE_AFTER
    case Replaced(reg, age) => reg < |regs| && age > REUSE_AFTER
  }

  predicate LogOk(regs: seq<uint32>, rx: set<Probe>, log: seq<Event>) {
    forall k :: 0 <= k < |log| ==> EventOk(regs, rx, log[k])
  }

  predicate LogInv(s: State) {
    LogOk(s.regs, s.rx, s.log)
  }

  lemma LogOkConcat(regs: seq<uint32>, rx: set<Probe>, a: seq<Event>, b: seq<Event>)
    requires LogOk(regs, rx, a) && LogOk(regs, rx, b)
    ensures LogOk(regs, rx, a + b)
  {
    forall k | 0 <= k < |a + b| ensures EventOk(regs, rx, (a + b)[k]) {
      if k >= |a| {
        assert (a + b)[k] == b[k - |a|];
      }
    }
  }

  // ---------- every step keeps it ----------

  lemma StepKeepsTable(s: State, step: Step)
    requires TableInv(s) && ProbeInv(s)
    ensures TableInv(Next(s, step)) && ProbeInv(Next(s, step))
  {
  }

  lemma RegisterLive(s: State, id: uint32, now: int, n: nat)
    requires TableInv(s) && !IdInUse(s, id, now)
    ensures Live(DoRegister(s, id, now), n) <==> n == |s.regs| || (Live(s, n) && s.regs[n] != id)
  {
  }

  lemma RegisterFates(s: State, id: uint32, now: int, n: nat)
    requires !IdInUse(s, id, now)
    ensures Fates(DoRegister(s, id, now).log, n)
         == Fates(s.log, n) + if id in s.spoofs && s.spoofs[id].reg == n then 1 else 0
  {
    if id in s.spoofs {
      FatesOne(s.log, Replaced(s.spoofs[id].reg, now - s.spoofs[id].t), n);
    }
  }

  lemma RegisterKeepsFate(s: State, id: uint32, now: int, n: nat)
    requires TableInv(s) && FateInv(s, n)
    ensures FateInv(DoRegister(s, id, now), n)
  {
    if !IdInUse(s, id, now) {
      RegisterLive(s, id, now, n);
      RegisterFates(s, id, now, n);
    }
  }

  lemma {:induction false} CollectedCount(s: State, order: seq<uint32>, n: nat)
    requires TableInv(s) && NoDup(order)
    ensures Times(Collected(s.spoofs, order), n)
         == if Live(s, n) && s.regs[n] in order && s.spoofs[s.regs[n]].probe.Some? then 1 else 0
  {
    if order != [] {
      var order', id := order[..|order| - 1], order[|order| - 1];
      CollectedCount(s, order', n);
      if id in s.spoofs && s.spoofs[id].probe.Some? {
        var before, h := Collected(s.spoofs, order'), Item(s.spoofs[id].reg, s.spoofs[id].probe.value);
        assert (before + [h])[..|before|] == before;
      }
    }
  }

  lemma TickKeepsFate(s: State, order: seq<uint32>, ips: seq<uint32>, fails: set<uint32>, n: nat)
    requires TableInv(s) && FateInv(s, n)
    requires Walk(order, s.spoofs.Keys) && Walk(ips, Senders(Collected(s.spoofs, order)))
    ensures FateInv(DoTick(s, order, ips, fails), n)
  {
    var hs := Collected(s.spoofs, order);
    forall h | h in hs ensures h.probe.sender in ips {
      assert h.probe.sender in Senders(hs) && h.probe.sender in Elems(ips);
    }
    FatesConcat(s.log, Batches(hs, ips, fails), n);
    BatchesAreCollected(hs, ips, fails, n);
    CollectedCount(s, order, n);
    assert Live(s, n) ==> s.regs[n] in Elems(order);
  }

  lemma {:induction false} OverdueCount(s: State, order: seq<uint32>, clock: map<uint32, int>, n: nat)
    requires TableInv(s) && NoDup(order)
    ensures Fates(Overdue(s.spoofs, order, clock), n)
         == if Live(s, n) && s.regs[n] in order && IsOverdue(s.spoofs, s.regs[n], clock) then 1 else 0
  {
    if order != [] {
      var order', id := order[..|order| - 1], order[|order| - 1];
      OverdueCount(s, order', clock, n);
      if IsOverdue(s.spoofs, id, clock) {
        FatesOne(Overdue(s.spoofs, order', clock), Expired(s.spoofs[id].reg, clock[id] - s.spoofs[id].t), n);
      }
    }
  }

  lemma CleanKeepsFate(s: State, order: seq<uint32>, clock: map<uint32, int>, n: nat)
    requires TableInv(s) && FateInv(s, n) && Walk(order, s.spoofs.Keys)
    ensures FateInv(DoClean(s, order, clock), n)
  {
    FatesConcat(s.log, Overdue(s.spoofs, order, clock), n);
    OverdueCount(s, order, clock, n);
    assert Live(s, n) ==> s.regs[n] in Elems(order);
  }

  lemma StepKeepsFate(s: State, step: Step, n: nat)
    requires TableInv(s) && FateInv(s, n)
    ensures FateInv(Next(s, step), n)
  {
    match step
    case Register(id, now) => RegisterKeepsFate(s, id, now, n);
    case Receive(p) =>
    case Tick(order, ips, fails) =>
      if Walk(order, s.spoofs.Keys) && Walk(ips, Senders(Collected(s.spoofs, order))) {
        TickKeepsFate(s, order, ips, fails, n);
      }
    case Clean(order, clock) =>
      if Walk(order, s.spoofs.Keys) {
        CleanKeepsFate(s, order, clock, n);
      }
  }

  lemma {:induction false} CollectedOk(s: State, order: seq<uint32>)
    requires TableInv(s) && ProbeInv(s)
    ensures forall h :: h in Collected(s.spoofs, order) ==> ItemOk(s.regs, s.rx, h.probe.sender, h)
  {
    if order != [] {
      CollectedOk(s, order[..|order| - 1]);
    }
  }

  /** A batch holds exactly the answers for its sender. */
  lemma {:induction false} BucketIs(hs: seq<Item>, ip: uint32)
    ensures forall h :: h in Bucket(hs, ip) <==> h in hs && h.probe.sender == ip
  {
    if hs != [] {
      BucketIs(hs[..|hs| - 1], ip);
    }
  }

  lemma {:induction false} BatchesOk(s: State, hs: seq<Item>, ips: seq<uint32>, fails: set<uint32>)
    requires forall h :: h in hs ==> ItemOk(s.regs, s.rx, h.probe.sender, h)
    ensures LogOk(s.regs, s.rx, Batches(hs, ips, fails))
  {
    if ips != [] {
      var ips', ip := ips[..|ips| - 1], ips[|ips| - 1];
      BatchesOk(s, hs, ips', fails);
      BucketIs(hs, ip);
      LogOkConcat(s.regs, s.rx, Batches(hs, ips', fails), [Sent(ip, Bucket(hs, ip), ip !in fails)]);
    }
  }

  lemma {:induction false} OverdueOk(s: State, order: seq<uint32>, clock: map<uint32, int>)
    requires TableInv(s)
    ensures LogOk(s.regs, s.rx, Overdue(s.spoofs, order, clock))
  {
    if order != [] {
      var order', id := order[..|order| - 1], order[|order| - 1];
      OverdueOk(s, order', clock);
      if IsOverdue(s.spoofs, id, clock) {
        LogOkConcat(s.regs, s.rx, Overdue(s.spoofs, order', clock), [Expired(s.spoofs[id].reg, clock[id] - s.spoofs[id].t)]);
      }
    }
  }

  lemma EventOkGrows(regs: seq<uint32>, rx: set<Probe>, regs': seq<uint32>, rx': set<Probe>, e: Event)
    requires EventOk(regs, rx, e) && regs <= regs' && rx <= rx'
    ensures EventOk(regs', rx', e)
  {
    if e.Sent? {
      forall i | 0 <= i < |e.items| ensures ItemOk(regs', rx', e.ip, e.items[i]) {
        assert ItemOk(regs, rx, e.ip, e.items[i]);
      }
    }
  }

  lemma LogOkGrows(regs: seq<uint32>, rx: set<Probe>, regs': seq<uint32>, rx': set<Probe>, log: seq<Event>)
    requires LogOk(regs, rx, log) && regs <= regs' && rx <= rx'
    ensures LogOk(regs', rx', log)
  {
    forall k | 0 <= k < |log| ensures EventOk(regs', rx', log[k]) {
      EventOkGrows(regs, rx, regs', rx', log[k]);
    }
  }

  lemma RegisterKeepsLog(s: State, id: uint32, now: int)
    requires TableInv(s) && LogInv(s)
    ensures LogInv(DoRegister(s, id, now))
  {
    var s' := DoRegister(s, id, now);
    LogOkGrows(s.regs, s.rx, s'.regs, s'.rx, s.log);
    if !IdInUse(s, id, now) && id in s.spoofs {
      LogOkConcat(s'.regs, s'.rx, s.log, [Replaced(s.spoofs[id].reg, now - s.spoofs[id].t)]);
    }
  }

  lemma StepKeepsLog(s: State, step: Step)
    requires TableInv(s) && ProbeInv(s) && LogInv(s)
    ensures LogInv(Next(s, step))
  {
    match step
    case Register(id, now) => RegisterKeepsLog(s, id, now);
    case Receive(p) => LogOkGrows(s.regs, s.rx, Next(s, step).regs, Next(s, step).rx, s.log);
    case Tick(order, ips, fails) =>
      CollectedOk(s, order);
      BatchesOk(s, Collected(s.spoofs, order), ips, fails);
      LogOkConcat(s.regs, s.rx, s.log, Batches(Collected(s.spoofs, order), ips, fails));
    case Clean(order, clock) =>
      OverdueOk(s, order, clock);
      LogOkConcat(s.regs, s.rx, s.log, Overdue(s.spoofs, order, clock));
  }

  lemma {:induction false} RunInv(steps: seq<Step>)
    ensures var s := Run(START, steps); TableInv(s) && ProbeInv(s) && LogInv(s)
  {
    if steps != [] {
      var s := Run(START, steps[..|steps| - 1]);
      RunInv(steps[..|steps| - 1]);
      StepKeepsTable(s, steps[|steps| - 1]);
      StepKeepsLog(s, steps[|steps| - 1]);
    }
  }

  // ---------- results ----------

  /** Every registration is still in the table or left it exactly once: handed over, expired or replaced. */
  lemma {:induction false} ExactlyOneFate(steps: seq<Step>, n: nat)
    ensures FateInv(Run(START, steps), n)
  {
    if steps != [] {
      var before := steps[..|steps| - 1];
      ExactlyOneFate(before, n);
      RunInv(before);
      StepKeepsFate(Run(START, before), steps[|steps| - 1], n);
    }
  }

  /** Whatever is handed to a transport was received for a registration of its id and has that batch's sender. */
  lemma ForwardedIsRegistered(steps: seq<Step>, k: nat, i: nat)
    requires var log := Run(START, steps).log; k < |log| && log[k].Sent? && i < |log[k].items|
    ensures var s := Run(START, steps); ItemOk(s.regs, s.rx, s.log[k].ip, s.log[k].items[i])
  {
    RunInv(steps);
    var s := Run(START, steps);
    assert EventOk(s.regs, s.rx, s.log[k]);
  }

  /** Nothing is expired before 120 seconds or replaced before 60. */
  lemma DroppedIsOld(steps: seq<Step>, k: nat)
    requires var log := Run(START, steps).log; k < |log| && !log[k].Sent?
    ensures var e := Run(START, steps).log[k]; e.age > if e.Expired? then EXPIRE_AFTER else REUSE_AFTER
  {
    RunInv(steps);
    var s := Run(START, steps);
    assert EventOk(s.regs, s.rx, s.log[k]);
  }
}
