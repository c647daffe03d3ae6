/** The controller's table told from the steps alone: which ids a request was given, which of them still lead to it,
    and when it was killed. Nothing here speaks of how the table is updated. */
module ControllerHistory {
  import opened Common
  import opened SpoofTypes
  import opened ControllerMap

  // ---------- what the steps say ----------

  /** The requests that ids were handed out to, in order: id n + 1 went to Asked(steps)[n]. A request that was added
      gets no further id, and the ids end below 2^32. */
  ghost function Asked(steps: seq<Step>): (a: seq<nat>)
    ensures |a| <= 0xFFFF_FFFF
  {
    if steps == [] then []
    else
      var before, step := steps[..|steps| - 1], steps[|steps| - 1];
      if step.DoAlloc? && DoAdd(step.r) !in before && |Asked(before)| < 0xFFFF_FFFF then Asked(before) + [step.r]
      else Asked(before)
  }

  /** Id `id` was handed out to request r. */
  ghost predicate GivenTo(steps: seq<Step>, id: uint32, r: nat) {
    1 <= id <= |Asked(steps)| && Asked(steps)[id - 1] == r
  }

  /** Step k added request r. */
  ghost predicate AddedAt(steps: seq<Step>, k: nat, r: nat) {
    k < |steps| && steps[k] == DoAdd(r) && DoAdd(r) !in steps[..k]
  }

  /** Step j ends the id of a request added by step k: its reply is notified, or the request was killed and is
      cleaned up. */
  ghost predicate EndsAt(steps: seq<Step>, k: nat, j: nat, id: uint32, r: nat) {
    && k < j < |steps|
    && ((steps[j].DoNotify? && steps[j].p.id == id) || (steps[j] == DoCleanup(r) && DoKill(r) in steps[k..j]))
  }

  // ---------- which ids a request has ----------

  /** The ids handed out to r, in order. */
  ghost function IdsOf(asked: seq<nat>, r: nat): seq<uint32>
    requires |asked| <= 0xFFFF_FFFF
  {
    if asked == [] then []
    else IdsOf(asked[..|asked| - 1], r) + if asked[|asked| - 1] == r then [|asked|] else []
  }

  lemma {:induction false} IdsOfIs(asked: seq<nat>, r: nat)
    requires |asked| <= 0xFFFF_FFFF
    ensures forall id :: id in IdsOf(asked, r) <==> 1 <= id <= |asked| && asked[id - 1] == r
    ensures var ids := IdsOf(asked, r); forall i, j :: 0 <= i < j < |ids| ==> ids[i] < ids[j]
  {
    if asked != [] {
      var front := asked[..|asked| - 1];
      IdsOfIs(front, r);
      var last: seq<uint32> := if asked[|asked| - 1] == r then [|asked|] else [];
      assert IdsOf(asked, r) == IdsOf(front, r) + last;
      forall id ensures id in IdsOf(asked, r) <==> 1 <= id <= |asked| && asked[id - 1] == r {
        assert id in IdsOf(front, r) + last <==> id in IdsOf(front, r) || id in last;
      }
      forall i, j | 0 <= i < j < |IdsOf(asked, r)| ensures IdsOf(asked, r)[i] < IdsOf(asked, r)[j] {
        assert IdsOf(asked, r)[i] == IdsOf(front, r)[i];
        assert IdsOf(front, r)[i] in IdsOf(front, r);
      }
    }
  }

  /** What the steps say of ids is what the state holds. */
  ghost predicate Told(steps: seq<Step>, s: State) {
    (forall r :: r in s.table.groups <==> DoAdd(r) in steps) && IdsTold(Asked(steps), s)
  }

  ghost predicate IdsTold(asked: seq<nat>, s: State)
    requires |asked| <= 0xFFFF_FFFF
  {
    && s.spoofId == |asked|
    && (forall r :: r in s.table.groups ==> s.table.groups[r].ids == IdsOf(asked, r))
    && (forall r :: r !in s.table.groups ==> (if r in s.pending then s.pending[r] else []) == IdsOf(asked, r))
    && (forall r :: r in s.pending ==> r !in s.table.groups)
  }

  lemma AskedOne(asked: seq<nat>, q: nat, r: nat)
    requires |asked| < 0xFFFF_FFFF
    ensures IdsOf(asked + [q], r) == IdsOf(asked, r) + if q == r then [|asked| + 1] else []
  {
    assert (asked + [q])[..|asked|] == asked;
  }

  lemma InFront(steps: seq<Step>, x: Step)
    requires steps != []
    ensures x in steps <==> x in steps[..|steps| - 1] || x == steps[|steps| - 1]
  {
    assert steps == steps[..|steps| - 1] + [steps[|steps| - 1]];
  }

  lemma SameAdded(steps: seq<Step>)
    requires steps != [] && !steps[|steps| - 1].DoAdd?
    ensures forall q :: DoAdd(q) in steps <==> DoAdd(q) in steps[..|steps| - 1]
  {
    forall q ensures DoAdd(q) in steps <==> DoAdd(q) in steps[..|steps| - 1] {
      InFront(steps, DoAdd(q));
    }
  }

  lemma AllocIds(asked: seq<nat>, s: State, r: nat)
    requires |asked| < 0xFFFF_FFFF && IdsTold(asked, s) && r !in s.table.groups
    ensures IdsTold(asked + [r], Next(s, DoAlloc(r)))
  {
    forall q ensures IdsOf(asked + [r], q) == IdsOf(asked, q) + if r == q then [s.spoofId + 1] else [] {
      AskedOne(asked, r, q);
    }
  }

  lemma AllocTold(steps: seq<Step>, s: State, r: nat)
    requires steps != [] && steps[|steps| - 1] == DoAlloc(r) && Told(steps[..|steps| - 1], s)
    ensures Told(steps, Next(s, DoAlloc(r)))
  {
    SameAdded(steps);
    if s.spoofId < 0xFFFF_FFFF && r !in s.table.groups {
      AllocIds(Asked(steps[..|steps| - 1]), s, r);
    }
  }

  /** A step that hands out no id and adds no request. */
  lemma OtherTold(steps: seq<Step>, s: State, s': State)
    requires steps != [] && !steps[|steps| - 1].DoAlloc? && !steps[|steps| - 1].DoAdd? && Told(steps[..|steps| - 1], s)
    requires s'.spoofId == s.spoofId && s'.pending == s.pending && SameIds(s.table, s'.table)
    ensures Told(steps, s')
  {
    SameAdded(steps);
  }

  lemma AddTold(steps: seq<Step>, s: State, r: nat)
    requires steps != [] && steps[|steps| - 1] == DoAdd(r) && Told(steps[..|steps| - 1], s)
    ensures Told(steps, Next(s, DoAdd(r)))
  {
    forall q ensures DoAdd(q) in steps <==> DoAdd(q) in steps[..|steps| - 1] || q == r {
      InFront(steps, DoAdd(q));
    }
  }

  lemma {:induction false} RunTold(steps: seq<Step>)
    ensures Told(steps, Run(START, steps))
  {
    if steps != [] {
      var before, step := steps[..|steps| - 1], steps[|steps| - 1];
      var s := Run(START, before);
      RunTold(before);
      match step
      case DoAlloc(r) => AllocTold(steps, s, r);
      case DoAdd(r) => AddTold(steps, s, r);
      case DoNotify(p, pickKill) =>
        NotifySameIds(s.table, p, pickKill);
        OtherTold(steps, s, Next(s, step));
      case _ => OtherTold(steps, s, Next(s, step));
    }
  }

  /** A request that was added has exactly the ids it was given, in the order it was given them. */
  lemma GroupIdsIff(steps: seq<Step>, r: nat)
    ensures r in Run(START, steps).table.groups <==> DoAdd(r) in steps
    ensures DoAdd(r) in steps ==>
      var ids := Run(START, steps).table.groups[r].ids;
      && (forall id :: id in ids <==> GivenTo(steps, id, r))
      && forall i, j :: 0 <= i < j < |ids| ==> ids[i] < ids[j]
  {
    RunTold(steps);
    IdsOfIs(Asked(steps), r);
    if DoAdd(r) in steps {
      assert Run(START, steps).table.groups[r].ids == IdsOf(Asked(steps), r);
    }
  }

  // ---------- how long an id leads to its request ----------

  lemma StepKilled(s: State, step: Step, r: nat)
    requires r in s.table.groups
    ensures r in Next(s, step).table.groups
    ensures Next(s, step).table.groups[r].killed <==> s.table.groups[r].killed || step == DoKill(r)
  {
  }

  /** One step ends exactly the ids it should. */
  lemma StepOpen(s: State, step: Step, id: uint32, r: nat)
    requires Inv(s) && r in s.table.groups && id in s.table.groups[r].ids
    requires step.DoNotify? && step.p.id in s.table.sm ==> GroupInv(s.table, s.table.sm[step.p.id])
    ensures id in Next(s, step).table.sm <==>
      && id in s.table.sm
      && !(step.DoNotify? && step.p.id == id)
      && !(step == DoCleanup(r) && s.table.groups[r].killed)
  {
    var t := s.table;
    assert OwnedBy(s, t.groups[r].ids, r);
    match step
    case DoAlloc(q) =>
    case DoAdd(q) =>
      if q !in t.groups {
        var ids := if q in s.pending then s.pending[q] else [];
        MapAllIs(t.sm, ids, q);
        IdsDisjoint(s, t.groups[r].ids, r, ids, q);
      }
    case DoNotify(p, pickKill) => NotifyIsSafe(t, p, pickKill);
    case DoTake(q) =>
    case DoKill(q) =>
    case DoCleanup(q) =>
      if q in t.groups && q != r {
        IdsDisjoint(s, t.groups[r].ids, r, t.groups[q].ids, q);
      }
  }

  /** One more step of a run in which request r was added before. */
  lemma RunStep(steps: seq<Step>, id: uint32, r: nat)
    requires steps != [] && DoAdd(r) in steps[..|steps| - 1] && GivenTo(steps[..|steps| - 1], id, r)
    ensures var t, t', step := Run(START, steps[..|steps| - 1]).table, Run(START, steps).table, steps[|steps| - 1];
      && r in t.groups && r in t'.groups
      && (t'.groups[r].killed <==> t.groups[r].killed || step == DoKill(r))
      && (id in t'.sm <==> id in t.sm && !(step.DoNotify? && step.p.id == id)
                           && !(step == DoCleanup(r) && t.groups[r].killed))
  {
    var before, step := steps[..|steps| - 1], steps[|steps| - 1];
    var s := Run(START, before);
    GroupIdsIff(before, r);
    RunInv(before);
    if step.DoNotify? && step.p.id in s.table.sm {
      RunGroup(before, s.table.sm[step.p.id]);
    }
    StepKilled(s, step, r);
    StepOpen(s, step, id, r);
  }

  ghost predicate Ended(steps: seq<Step>, k: nat, id: uint32, r: nat) {
    exists j :: EndsAt(steps, k, j, id, r)
  }

  ghost predicate Since(t: Table, steps: seq<Step>, k: nat, id: uint32, r: nat)
    requires k < |steps|
  {
    && r in t.groups && (t.groups[r].killed <==> DoKill(r) in steps[k..])
    && (id in t.sm <==> !Ended(steps, k, id, r))
  }

  lemma {:induction false} SinceAdded(steps: seq<Step>, k: nat, id: uint32, r: nat)
    requires AddedAt(steps, k, r) && GivenTo(steps, id, r)
    ensures Since(Run(START, steps).table, steps, k, id, r)
  {
    var before := steps[..|steps| - 1];
    if k == |before| {
      assert steps[k..] == [DoAdd(r)];
      AddedNow(before, id, r);
    } else {
      assert before[..k] == steps[..k] && before[k] == DoAdd(r);
      SinceAdded(before, k, id, r);
      RunStep(steps, id, r);
      EndsOne(steps, k, id, r);
    }
  }

  /** The step that adds a request maps its ids. */
  lemma AddedNow(before: seq<Step>, id: uint32, r: nat)
    requires DoAdd(r) !in before && GivenTo(before, id, r)
    ensures var t := Next(Run(START, before), DoAdd(r)).table; r in t.groups && !t.groups[r].killed && id in t.sm
  {
    var s := Run(START, before);
    RunTold(before);
    IdsOfIs(Asked(before), r);
    NextAdds(s, r, IdsOf(Asked(before), r));
    AddMaps(s.table, r, IdsOf(Asked(before), r));
  }

  lemma NextAdds(s: State, r: nat, ids: seq<uint32>)
    requires r !in s.table.groups && ids == if r in s.pending then s.pending[r] else []
    ensures Next(s, DoAdd(r)).table == Add(s.table, r, ids)
  {
  }

  lemma AddMaps(t: Table, r: nat, ids: seq<uint32>)
    ensures var t' := Add(t, r, ids);
      r in t'.groups && !t'.groups[r].killed && forall id :: id in ids ==> id in t'.sm
  {
    MapAllIs(t.sm, ids, r);
  }

  /** The last step ends an id or some step before it does. */
  lemma EndsOne(steps: seq<Step>, k: nat, id: uint32, r: nat)
    requires k < |steps| - 1
    ensures var before := steps[..|steps| - 1];
      && (DoKill(r) in steps[k..] <==> DoKill(r) in before[k..] || steps[|steps| - 1] == DoKill(r))
      && (Ended(steps, k, id, r) <==> Ended(before, k, id, r) || EndsAt(steps, k, |before|, id, r))
      && steps[k..|before|] == before[k..]
  {
    var before := steps[..|steps| - 1];
    assert steps[k..] == before[k..] + [steps[|steps| - 1]];
    assert steps[k..|before|] == before[k..];
    forall j | 0 <= j ensures EndsAt(before, k, j, id, r) <==> j < |before| && EndsAt(steps, k, j, id, r) {
      if k < j < |before| {
        assert steps[k..j] == before[k..j];
      }
    }
    if j :| EndsAt(before, k, j, id, r) {
      assert EndsAt(steps, k, j, id, r);
    }
  }

  lemma {:induction false} FirstAdd(steps: seq<Step>, r: nat) returns (k: nat)
    requires DoAdd(r) in steps
    ensures AddedAt(steps, k, r)
  {
    var before := steps[..|steps| - 1];
    if DoAdd(r) in before {
      k := FirstAdd(before, r);
      assert steps[..k] == before[..k];
    } else {
      InFront(steps, DoAdd(r));
      k := |before|;
    }
  }

  /** An id leads to its request from the step that adds the request until its reply is notified or the killed request
      is cleaned up, and at no other time. */
  lemma OpenIff(steps: seq<Step>, id: uint32)
    ensures var t := Run(START, steps).table;
      id in t.sm <==> exists k, r :: AddedAt(steps, k, r) && GivenTo(steps, id, r) && !Ended(steps, k, id, r)
    ensures var t := Run(START, steps).table; id in t.sm ==> GivenTo(steps, id, t.sm[id])
  {
    var t := Run(START, steps).table;
    if id in t.sm {
      var r := t.sm[id];
      RunInv(steps);
      GroupIdsIff(steps, r);
      var k := FirstAdd(steps, r);
      SinceAdded(steps, k, id, r);
    }
    if k, r :| AddedAt(steps, k, r) && GivenTo(steps, id, r) && !Ended(steps, k, id, r) {
      SinceAdded(steps, k, id, r);
    }
  }

  /** After the clean-up of a request that was killed none of its ids leads anywhere. */
  lemma CleanedIsUnmapped(steps: seq<Step>, k: nat, j: nat, id: uint32, r: nat)
    requires AddedAt(steps, k, r) && GivenTo(steps, id, r)
    requires k < j < |steps| && DoKill(r) in steps[k..j] && steps[j] == DoCleanup(r)
    ensures id !in Run(START, steps).table.sm
  {
    assert EndsAt(steps, k, j, id, r);
    SinceAdded(steps, k, id, r);
  }

  /** A request is killed exactly when it closed its kill channel after it was added. */
  lemma KilledIff(steps: seq<Step>, k: nat, id: uint32, r: nat)
    requires AddedAt(steps, k, r) && GivenTo(steps, id, r)
    ensures var t := Run(START, steps).table; r in t.groups && (t.groups[r].killed <==> DoKill(r) in steps[k..])
  {
    SinceAdded(steps, k, id, r);
  }

  /** The first reply to an id of a request that was added and not killed is appended to what the request reads, and
      nothing else on any channel changes. */
  lemma AddedIsDelivered(steps: seq<Step>, k: nat, p: Probe, r: nat, pickKill: bool)
    requires AddedAt(steps, k, r) && GivenTo(steps, p.id, r)
    requires forall j :: k < j < |steps| ==> steps[j] != DoKill(r) && !(steps[j].DoNotify? && steps[j].p.id == p.id)
    ensures var t, t' := Run(START, steps).table, Notify(Run(START, steps).table, p, pickKill).0;
      && r in t.groups && t'.groups.Keys == t.groups.Keys && t'.groups[r].sent == t.groups[r].sent + [p]
      && (t'.groups[r].closed <==> Mapped(t, r) == {p.id})
      && forall q :: q in t.groups && q != r ==> t'.groups[q] == t.groups[q]
  {
    StillOpen(steps, k, p.id, r);
    NotifyDelivers(steps, p, pickKill);
    NotifyOthers(Run(START, steps).table, p, pickKill);
  }

  lemma StillOpen(steps: seq<Step>, k: nat, id: uint32, r: nat)
    requires AddedAt(steps, k, r) && GivenTo(steps, id, r)
    requires forall j :: k < j < |steps| ==> steps[j] != DoKill(r) && !(steps[j].DoNotify? && steps[j].p.id == id)
    ensures var t := Run(START, steps).table; r in t.groups && !t.groups[r].killed && id in t.sm && t.sm[id] == r
  {
    assert DoKill(r) !in steps[k..];
    assert !Ended(steps, k, id, r);
    SinceAdded(steps, k, id, r);
    OpenIff(steps, id);
  }

  /** When the request was killed the select may take either case: the reply is dropped or appended, its id is closed
      both ways, and nothing panics or waits. */
  lemma KilledMayDrop(steps: seq<Step>, k: nat, p: Probe, r: nat, pickKill: bool)
    requires AddedAt(steps, k, r) && GivenTo(steps, p.id, r) && DoKill(r) in steps[k..] && !Ended(steps, k, p.id, r)
    ensures var t, (t', o) := Run(START, steps).table, Notify(Run(START, steps).table, p, pickKill);
      && r in t.groups && r in t'.groups && o == (if pickKill then Dropped else Sent) && p.id !in t'.sm
      && t'.groups[r].sent == if pickKill then t.groups[r].sent else t.groups[r].sent + [p]
  {
    var t := Run(START, steps).table;
    SinceAdded(steps, k, p.id, r);
    OpenIff(steps, p.id);
    RunInv(steps);
    RunGroup(steps, r);
    assert p.id in Mapped(t, r);
  }

  lemma NotifyOthers(t: Table, p: Probe, pickKill: bool)
    ensures var t' := Notify(t, p, pickKill).0;
      && t'.groups.Keys == t.groups.Keys
      && forall q :: q in t.groups && (p.id in t.sm ==> q != t.sm[p.id]) ==> t'.groups[q] == t.groups[q]
  {
  }

  // ---------- reading ----------

  /** However often a request reads, it gets what it was sent one by one and from the first. */
  lemma {:induction false} TakesInOrder(t: Table, r: nat, n: nat)
    requires r in t.groups && t.groups[r].taken <= |t.groups[r].sent|
    ensures var t', g := Takes(t, r, n), t.groups[r];
      && t'.sm == t.sm && t'.groups.Keys == t.groups.Keys
      && t'.groups[r] == g.(taken := if g.taken + n <= |g.sent| then g.taken + n else |g.sent|)
      && forall q :: q in t.groups && q != r ==> t'.groups[q] == t.groups[q]
  {
    if n > 0 {
      TakesInOrder(t, r, n - 1);
    }
  }

  function Takes(t: Table, r: nat, n: nat): Table {
    if n == 0 then t else Take(Takes(t, r, n - 1), r)
  }
}
