/** The plcontroller's table told from the clocks of the steps: ages are measured between the step that registered an id
    and the step that ends the registration, not from what an entry says of itself. */
module PlHistory {
  import opened Common
  import opened SpoofTypes
  import opened PlTable

  const SECOND := 1_000_000_000

  /** The table before step k, and after the first k steps. */
  ghost function At(steps: seq<Step>, k: nat): State
    requires k <= |steps|
  {
    Run(START, steps[..k])
  }

  /** Step k is a registration that was accepted; it is the one numbered n. */
  ghost predicate Accepted(steps: seq<Step>, k: nat, n: nat) {
    && k < |steps| && steps[k].Register?
    && |At(steps, k).regs| == n && |At(steps, k + 1).regs| == n + 1
  }

  /** Step m brought an answer for the id after step k. */
  ghost predicate Answers(steps: seq<Step>, k: nat, m: nat, id: uint32) {
    k < m < |steps| && steps[m].Receive? && steps[m].p.id == id
  }

  /** Step m brought the latest one. */
  ghost predicate LastAt(steps: seq<Step>, k: nat, m: nat, id: uint32) {
    Answers(steps, k, m, id) && forall l: nat :: m < l ==> !Answers(steps, k, l, id)
  }

  lemma AtNext(steps: seq<Step>, k: nat)
    requires k < |steps|
    ensures At(steps, k + 1) == Next(At(steps, k), steps[k])
  {
    assert steps[..k + 1][..k] == steps[..k];
  }

  lemma AtFront(steps: seq<Step>, k: nat)
    requires k < |steps|
    ensures At(steps[..|steps| - 1], k) == At(steps, k)
  {
    assert steps[..|steps| - 1][..k] == steps[..k];
  }

  // ---------- what an entry holds ----------

  /** The latest answer that the steps behind step k brought for the id. */
  ghost function LastAnswer(steps: seq<Step>, k: nat, id: uint32): Option<Probe> {
    if |steps| <= k + 1 then None
    else
      var step := steps[|steps| - 1];
      if step.Receive? && step.p.id == id then Some(step.p) else LastAnswer(steps[..|steps| - 1], k, id)
  }

  lemma {:induction false} LastAnswerIs(steps: seq<Step>, k: nat, id: uint32)
    ensures LastAnswer(steps, k, id).None? ==> forall m: nat :: !Answers(steps, k, m, id)
    ensures LastAnswer(steps, k, id).Some? ==>
      exists m: nat :: LastAt(steps, k, m, id) && steps[m].p == LastAnswer(steps, k, id).value
    decreases |steps|
  {
    if |steps| > k + 1 {
      var before, m := steps[..|steps| - 1], |steps| - 1;
      if steps[m].Receive? && steps[m].p.id == id {
        assert LastAt(steps, k, m, id);
      } else {
        LastAnswerIs(before, k, id);
        assert forall l: nat :: Answers(steps, k, l, id) ==> Answers(before, k, l, id);
        if LastAnswer(before, k, id).Some? {
          var i: nat :| LastAt(before, k, i, id) && before[i].p == LastAnswer(before, k, id).value;
          assert LastAt(steps, k, i, id);
        }
      }
    }
  }

  lemma StepEntry(s: State, step: Step, n: nat)
    requires TableInv(s) && n < |s.regs| && Live(Next(s, step), n)
    ensures Live(s, n) && Next(s, step).regs[n] == s.regs[n]
    ensures var id := s.regs[n];
      var e := s.spoofs[id];
      Next(s, step).spoofs[id] == if step.Receive? && step.p.id == id then e.(probe := Some(step.p)) else e
  {
  }

  /** What a registration puts into the table. */
  lemma StepAccepts(s: State, step: Step)
    requires TableInv(s)
    ensures |s.regs| <= |Next(s, step).regs| <= |s.regs| + 1
    ensures |Next(s, step).regs| == |s.regs| + 1 ==>
      && step.Register? && Next(s, step).regs == s.regs + [step.id]
      && step.id in Next(s, step).spoofs && Next(s, step).spoofs[step.id] == Entry(|s.regs|, step.now, None)
    ensures |Next(s, step).regs| == |s.regs| ==> Next(s, step).regs == s.regs
  {
  }

  /** A live registration carries the clock of the step that made it and the latest answer to its id since then; a new
      registration holds no answer. */
  lemma {:induction false} EntryIs(steps: seq<Step>, k: nat, n: nat)
    requires Accepted(steps, k, n)
    ensures var s := Run(START, steps); n < |s.regs| && s.regs[n] == steps[k].id
    ensures var s := Run(START, steps);
      Live(s, n) ==> s.spoofs[steps[k].id] == Entry(n, steps[k].now, LastAnswer(steps, k, steps[k].id))
  {
    var before := steps[..|steps| - 1];
    if k == |before| {
      EntryNew(steps, n);
    } else {
      AtFront(steps, k);
      AtFront(steps, k + 1);
      EntryIs(before, k, n);
      EntryStays(Run(START, before), before, steps[|before|], k, n, steps[k].id);
    }
  }

  lemma EntryNew(steps: seq<Step>, n: nat)
    requires steps != [] && Accepted(steps, |steps| - 1, n)
    ensures var s, step := Run(START, steps), steps[|steps| - 1];
      && n < |s.regs| && s.regs[n] == step.id && step.id in s.spoofs && s.spoofs[step.id] == Entry(n, step.now, None)
  {
    var before := steps[..|steps| - 1];
    RunInv(before);
    StepAccepts(Run(START, before), steps[|before|]);
    assert steps[..|steps|] == steps;
  }

  lemma EntryStays(s: State, before: seq<Step>, step: Step, k: nat, n: nat, id: uint32)
    requires s == Run(START, before) && n < |s.regs| && s.regs[n] == id && k < |before|
    ensures var s' := Next(s, step);
      && n < |s'.regs| && s'.regs[n] == id
      && (Live(s', n) ==> Live(s, n))
      && (Live(s', n) ==>
            s'.spoofs[id] == if step.Receive? && step.p.id == id then s.spoofs[id].(probe := Some(step.p)) else s.spoofs[id])
  {
    RunInv(before);
    StepAccepts(s, step);
    if Live(Next(s, step), n) {
      StepEntry(s, step, n);
    }
  }

  lemma EntryAt(steps: seq<Step>, k: nat, n: nat, j: nat)
    requires Accepted(steps, k, n) && k < j <= |steps|
    ensures var s := At(steps, j); n < |s.regs| && s.regs[n] == steps[k].id
    ensures var s := At(steps, j);
      Live(s, n) ==> s.spoofs[steps[k].id] == Entry(n, steps[k].now, LastAnswer(steps[..j], k, steps[k].id))
  {
    assert steps[..j][..k] == steps[..k] && steps[..j][..k + 1] == steps[..k + 1];
    EntryIs(steps[..j], k, n);
  }

  lemma {:induction false} FindAccepted(steps: seq<Step>, n: nat) returns (k: nat)
    requires n < |Run(START, steps).regs|
    ensures Accepted(steps, k, n)
  {
    var before := steps[..|steps| - 1];
    RunInv(before);
    StepAccepts(Run(START, before), steps[|before|]);
    assert steps[..|steps|] == steps;
    if n < |Run(START, before).regs| {
      k := FindAccepted(before, n);
      AtFront(steps, k);
      AtFront(steps, k + 1);
    } else {
      k := |before|;
    }
  }

  // ---------- the clock bounds ----------

  /** A registration made at step k holds its id against step j. */
  ghost predicate Blocks(steps: seq<Step>, k: nat, n: nat, j: nat)
    requires j < |steps| && steps[j].Register?
  {
    && k < j && Accepted(steps, k, n) && Live(At(steps, j), n)
    && steps[k].id == steps[j].id && steps[j].now - steps[k].now <= 60 * SECOND
  }

  /** A registration is accepted exactly when no live one of the same id was made at most 60 seconds before it. A
      refused one changes nothing; an accepted one is in the table, next to every other that was. */
  lemma AcceptedIff(steps: seq<Step>, j: nat)
    requires j < |steps| && steps[j].Register?
    ensures (exists n :: Accepted(steps, j, n)) <==> !exists k, n :: Blocks(steps, k, n, j)
    ensures (exists k, n :: Blocks(steps, k, n, j)) ==> At(steps, j + 1) == At(steps, j)
    ensures forall n :: Accepted(steps, j, n) ==> Live(At(steps, j + 1), n)
  {
    var s, id, now := At(steps, j), steps[j].id, steps[j].now;
    AtNext(steps, j);
    RunInv(steps[..j]);
    StepAccepts(s, steps[j]);
    if IdInUse(s, id, now) {
      var n := s.spoofs[id].reg;
      var k := AcceptedBefore(steps, j, n);
      EntryAt(steps, k, n, j);
      assert Blocks(steps, k, n, j);
    } else {
      assert Accepted(steps, j, |s.regs|);
      forall k, n ensures !Blocks(steps, k, n, j) {
        if Blocks(steps, k, n, j) {
          EntryAt(steps, k, n, j);
        }
      }
    }
  }

  lemma AcceptedBefore(steps: seq<Step>, j: nat, n: nat) returns (k: nat)
    requires j <= |steps| && n < |At(steps, j).regs|
    ensures k < j && Accepted(steps, k, n)
  {
    k := FindAccepted(steps[..j], n);
    assert steps[..j][..k] == steps[..k] && steps[..j][..k + 1] == steps[..k + 1];
  }

  /** Whether step j leaves a registration alone that was made at step k. */
  ghost predicate Keeps(steps: seq<Step>, k: nat, j: nat)
    requires k < j < |steps| && steps[k].Register?
  {
    var s, id, made := At(steps, j), steps[k].id, steps[k].now;
    match steps[j]
    case Register(i, now) => i != id || now - made <= 60 * SECOND
    case Receive(_) => true
    case Tick(order, ips, _) =>
      Walk(order, s.spoofs.Keys) && Walk(ips, Senders(Collected(s.spoofs, order))) ==>
        forall m: nat :: m < j ==> !Answers(steps, k, m, id)
    case Clean(order, clock) =>
      Walk(order, s.spoofs.Keys) && id in clock ==> clock[id] - made <= 120 * SECOND
  }

  /** A registration leaves the table exactly in these ways: with a tick once an answer came, to a registration of the
      same id more than 60 seconds after it was made, or to a clean-up more than 120 seconds after it was made. */
  lemma LeavesIff(steps: seq<Step>, k: nat, n: nat, j: nat)
    requires Accepted(steps, k, n) && k < j < |steps| && Live(At(steps, j), n)
    ensures Live(At(steps, j + 1), n) <==> Keeps(steps, k, j)
  {
    var s := At(steps, j);
    AtNext(steps, j);
    RunInv(steps[..j]);
    EntryAt(steps, k, n, j);
    NoAnswer(steps, k, j, steps[k].id);
  }

  lemma NoAnswer(steps: seq<Step>, k: nat, j: nat, id: uint32)
    requires k < j <= |steps|
    ensures LastAnswer(steps[..j], k, id).None? <==> forall m: nat :: m < j ==> !Answers(steps, k, m, id)
  {
    LastAnswerIs(steps[..j], k, id);
    assert forall m: nat :: m < j ==> (Answers(steps, k, m, id) <==> Answers(steps[..j], k, m, id));
  }

  // ---------- what the log says of ages ----------

  /** Event e ends a registration at step j, made at step k, with the age between the two clocks. */
  ghost predicate Dropped(steps: seq<Step>, e: Event, k: nat, j: nat) {
    && !e.Sent? && k < j < |steps| && Accepted(steps, k, e.reg)
    && if e.Replaced? then
         steps[j].Register? && steps[j].id == steps[k].id && e.age == steps[j].now - steps[k].now > 60 * SECOND
       else
         && steps[j].Clean? && steps[k].id in steps[j].clock
         && e.age == steps[j].clock[steps[k].id] - steps[k].now > 120 * SECOND
  }

  lemma {:induction false} OverdueIs(spoofs: map<uint32, Entry>, order: seq<uint32>, clock: map<uint32, int>, i: nat)
      returns (id: uint32)
    requires i < |Overdue(spoofs, order, clock)|
    ensures IsOverdue(spoofs, id, clock)
    ensures Overdue(spoofs, order, clock)[i] == Expired(spoofs[id].reg, clock[id] - spoofs[id].t)
  {
    var before := Overdue(spoofs, order[..|order| - 1], clock);
    if i < |before| {
      id := OverdueIs(spoofs, order[..|order| - 1], clock, i);
    } else {
      id := order[|order| - 1];
    }
  }

  lemma {:induction false} AllBatches(hs: seq<Item>, ips: seq<uint32>, fails: set<uint32>)
    ensures forall e :: e in Batches(hs, ips, fails) ==> e.Sent?
  {
    if ips != [] {
      AllBatches(hs, ips[..|ips| - 1], fails);
    }
  }

  /** The entry an event of one step drops. */
  lemma StepDrops(s: State, step: Step, i: nat) returns (id: uint32)
    requires |s.log| <= i < |Next(s, step).log| && !Next(s, step).log[i].Sent?
    ensures id in s.spoofs
    ensures var e := Next(s, step).log[i];
      && e.reg == s.spoofs[id].reg
      && if e.Replaced? then step.Register? && step.id == id && e.age == step.now - s.spoofs[id].t > REUSE_AFTER
         else step.Clean? && id in step.clock && e.age == step.clock[id] - s.spoofs[id].t > EXPIRE_AFTER
  {
    match step
    case Register(id', now) => id := id';
    case Receive(p) => assert false;
    case Tick(order, ips, fails) =>
      AllBatches(Collected(s.spoofs, order), ips, fails);
      assert false;
    case Clean(order, clock) => id := OverdueIs(s.spoofs, order, clock, i - |s.log|);
  }

  /** Every expiry and every replacement comes from a step whose clock is more than 120, or 60, seconds behind the clock
      of the step that made the registration, and its age is the time between the two. */
  lemma {:induction false} DroppedByClock(steps: seq<Step>, i: nat) returns (k: nat, j: nat)
    requires i < |Run(START, steps).log| && !Run(START, steps).log[i].Sent?
    ensures Dropped(steps, Run(START, steps).log[i], k, j)
  {
    var before, step := steps[..|steps| - 1], steps[|steps| - 1];
    var s := Run(START, before);
    if i < |s.log| {
      k, j := DroppedByClock(before, i);
      AtFront(steps, k);
      AtFront(steps, k + 1);
    } else {
      var id := StepDrops(s, step, i);
      RunInv(before);
      j := |before|;
      assert steps[..j] == before;
      k := AcceptedBefore(steps, j, s.spoofs[id].reg);
      EntryAt(steps, k, s.spoofs[id].reg, j);
    }
  }
}
