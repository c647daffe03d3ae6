/** The whole spoofed-probe protocol: a controller and a plcontroller joined by a transport that may lose, repeat and
    reorder the probes handed to it. */
module SpoofEndToEnd {
  import opened Common
  import opened SpoofTypes
  import CH = ControllerHistory
  import CM = ControllerMap
  import PD = PlDelivery
  import PL = PlTable

  datatype System = System(ctl: CM.State, pl: PL.State)

  datatype Step = Ctl(c: CM.Step) | Plc(p: PL.Step)

  /** Probe p was handed over in a batch. A send that reports an error may have brought part of its batch over. */
  ghost predicate HandedOver(log: seq<PL.Event>, p: Probe) {
    exists k, j :: 0 <= k < |log| && log[k].Sent? && 0 <= j < |log[k].items| && log[k].items[j].probe == p
  }

  /** The controller hears only of probes that were handed over to it. What is registered at the plcontroller, and what
      the network brings to it, is not restricted in any way. */
  ghost predicate Possible(s: System, step: Step) {
    match step
    case Ctl(DoNotify(p, _)) => HandedOver(s.pl.log, p)
    case _ => true
  }

  const START := System(CM.START, PL.START)

  ghost function Next(s: System, step: Step): System {
    if !Possible(s, step) then s
    else match step
      case Ctl(c) => s.(ctl := CM.Next(s.ctl, c))
      case Plc(p) => s.(pl := PL.Next(s.pl, p))
  }

  ghost function Run(steps: seq<Step>): System {
    if steps == [] then START else Next(Run(steps[..|steps| - 1]), steps[|steps| - 1])
  }

  /** The controller's and the plcontroller's own view of a run. */
  ghost function CtlSteps(steps: seq<Step>): seq<CM.Step> {
    if steps == [] then []
    else
      var before, step := steps[..|steps| - 1], steps[|steps| - 1];
      if step.Ctl? && Possible(Run(before), step) then CtlSteps(before) + [step.c] else CtlSteps(before)
  }

  ghost function PlSteps(steps: seq<Step>): seq<PL.Step> {
    if steps == [] then []
    else
      var before, step := steps[..|steps| - 1], steps[|steps| - 1];
      if step.Plc? && Possible(Run(before), step) then PlSteps(before) + [step.p] else PlSteps(before)
  }

  lemma {:induction false} CtlView(steps: seq<Step>)
    ensures Run(steps).ctl == CM.Run(CM.START, CtlSteps(steps))
  {
    if steps != [] {
      var before, step := steps[..|steps| - 1], steps[|steps| - 1];
      CtlView(before);
      if step.Ctl? && Possible(Run(before), step) {
        var cs := CtlSteps(before);
        assert (cs + [step.c])[..|cs|] == cs;
      }
    }
  }

  lemma {:induction false} PlView(steps: seq<Step>)
    ensures Run(steps).pl == PL.Run(PL.START, PlSteps(steps))
  {
    if steps != [] {
      var before, step := steps[..|steps| - 1], steps[|steps| - 1];
      PlView(before);
      if step.Plc? && Possible(Run(before), step) {
        var ps := PlSteps(before);
        assert (ps + [step.p])[..|ps|] == ps;
      }
    }
  }

  /** Only a notification puts a probe on a channel. */
  lemma SentOnlyByNotify(s: CM.State, step: CM.Step, r: nat, i: nat)
    requires var t := CM.Next(s, step).table; r in t.groups && i < |t.groups[r].sent|
    ensures var p := CM.Next(s, step).table.groups[r].sent[i];
      || (r in s.table.groups && i < |s.table.groups[r].sent| && s.table.groups[r].sent[i] == p)
      || (step.DoNotify? && step.p == p)
  {
  }

  lemma LogGrows(s: PL.State, step: PL.Step)
    ensures s.log <= PL.Next(s, step).log
  {
  }

  lemma HandedOverGrows(log: seq<PL.Event>, log': seq<PL.Event>, p: Probe)
    requires log <= log' && HandedOver(log, p)
    ensures HandedOver(log', p)
  {
    var k, j :| 0 <= k < |log| && log[k].Sent? && 0 <= j < |log[k].items| && log[k].items[j].probe == p;
    assert log'[k] == log[k];
  }

  /** Everything on a request's channel came through the plcontroller. */
  lemma {:induction false} SentWasHandedOver(steps: seq<Step>, r: nat, i: nat)
    requires var t := Run(steps).ctl.table; r in t.groups && i < |t.groups[r].sent|
    ensures HandedOver(Run(steps).pl.log, Run(steps).ctl.table.groups[r].sent[i])
  {
    if steps != [] {
      var before, step := steps[..|steps| - 1], steps[|steps| - 1];
      var s := Run(before);
      if step.Ctl? && Possible(s, step) {
        SentOnlyByNotify(s.ctl, step.c, r, i);
        if r in s.ctl.table.groups && i < |s.ctl.table.groups[r].sent| {
          SentWasHandedOver(before, r, i);
        }
      } else {
        SentWasHandedOver(before, r, i);
        if step.Plc? {
          LogGrows(s.pl, step.p);
        }
        HandedOverGrows(s.pl.log, Run(steps).pl.log, s.ctl.table.groups[r].sent[i]);
      }
    }
  }

  lemma HandedOverOk(s: PL.State, p: Probe)
    requires PL.LogInv(s) && HandedOver(s.log, p)
    ensures p in s.rx && p.id in s.regs
  {
    var k, j :| 0 <= k < |s.log| && s.log[k].Sent? && 0 <= j < |s.log[k].items| && s.log[k].items[j].probe == p;
    assert PL.EventOk(s.regs, s.rx, s.log[k]);
    assert PL.ItemOk(s.regs, s.rx, s.log[k].ip, s.log[k].items[j]);
  }

  /** A probe handed over was received at the plcontroller under a registered id. */
  lemma HandedOverIsRegistered(steps: seq<Step>, p: Probe)
    requires HandedOver(Run(steps).pl.log, p)
    ensures p in Run(steps).pl.rx && p.id in Run(steps).pl.regs
  {
    PlView(steps);
    PL.RunInv(PlSteps(steps));
    HandedOverOk(Run(steps).pl, p);
  }

  /** In every run, whatever the network repeats, invents or loses: what a request reads is a probe that was received
      at the plcontroller under a registered id, the id is one the request itself was given, and no id answers twice. */
  lemma EndToEnd(steps: seq<Step>, r: nat, i: nat, j: nat)
    requires var t := Run(steps).ctl.table; r in t.groups && i < |t.groups[r].sent| && j < |t.groups[r].sent|
    ensures var s := Run(steps);
      var sent := s.ctl.table.groups[r].sent;
      && sent[i].id in s.ctl.owner && s.ctl.owner[sent[i].id] == r
      && sent[i] in s.pl.rx && sent[i].id in s.pl.regs
      && (sent[i].id == sent[j].id ==> i == j)
  {
    CtlView(steps);
    CM.RepliesAreOwn(CtlSteps(steps), r, i, j);
    SentWasHandedOver(steps, r, i);
    HandedOverIsRegistered(steps, Run(steps).ctl.table.groups[r].sent[i]);
  }

  /** A request that was not killed sees its channel closed exactly when each of its ids was answered, and the
      controller never panics or blocks. */
  lemma ClosedMeansAnswered(steps: seq<Step>, r: nat)
    requires var t := Run(steps).ctl.table; r in t.groups && !t.groups[r].killed
    ensures var g := Run(steps).ctl.table.groups[r]; g.closed <==> CM.SentIds(g) == Elems(g.ids)
    ensures !Run(steps).ctl.bad
  {
    CtlView(steps);
    CM.ClosedIffAllDelivered(CtlSteps(steps), r);
    CM.NoPanicNoBlock(CtlSteps(steps));
  }

  /** Every registration at the plcontroller has exactly one fate. */
  lemma OneFateEach(steps: seq<Step>, n: nat)
    ensures PL.FateInv(Run(steps).pl, n)
  {
    PlView(steps);
    PL.ExactlyOneFate(PlSteps(steps), n);
  }

  // ---------- delivery ----------

  lemma RunOne(steps: seq<Step>, step: Step)
    ensures Run(steps + [step]) == Next(Run(steps), step)
  {
    assert (steps + [step])[..|steps|] == steps;
  }

  /** Steps that leave the plcontroller's entry e of an id alone. */
  ghost predicate AllSpare(e: PL.Entry, steps: seq<Step>, id: uint32) {
    forall i :: 0 <= i < |steps| && steps[i].Plc? ==> PD.Spares(map[id := e], steps[i].p, id)
  }

  lemma {:induction false} SparedBetween(run: seq<Step>, between: seq<Step>, id: uint32, e: PL.Entry)
    requires id in Run(run).pl.spoofs && Run(run).pl.spoofs[id] == e && AllSpare(e, between, id)
    ensures id in Run(run + between).pl.spoofs && Run(run + between).pl.spoofs[id] == e
    decreases |between|
  {
    if between == [] {
      assert run + between == run;
    } else {
      var front, step := between[..|between| - 1], between[|between| - 1];
      SparedBetween(run, front, id, e);
      assert run + between == run + front + [step];
      RunOne(run + front, step);
      if step.Plc? {
        assert PD.Spares(map[id := e], step.p, id);
        PD.SparedStep(Run(run + front).pl, step.p, id);
      }
    }
  }

  lemma {:induction false} StaysHandedOver(run: seq<Step>, after: seq<Step>, p: Probe)
    requires HandedOver(Run(run).pl.log, p)
    ensures HandedOver(Run(run + after).pl.log, p)
    decreases |after|
  {
    if after == [] {
      assert run + after == run;
    } else {
      var front, step := after[..|after| - 1], after[|after| - 1];
      StaysHandedOver(run, front, p);
      assert run + after == run + front + [step];
      RunOne(run + front, step);
      if step.Plc? {
        LogGrows(Run(run + front).pl, step.p);
        HandedOverGrows(Run(run + front).pl.log, PL.Next(Run(run + front).pl, step.p).log, p);
      }
    }
  }

  lemma TickHandsOver(run: seq<Step>, id: uint32, order: seq<uint32>, ips: seq<uint32>, fails: set<uint32>)
    requires var s := Run(run).pl;
      && id in s.spoofs && s.spoofs[id].probe.Some?
      && PL.Walk(order, s.spoofs.Keys) && PL.Walk(ips, PL.Senders(PL.Collected(s.spoofs, order)))
    ensures HandedOver(Run(run + [Plc(PL.Tick(order, ips, fails))]).pl.log, Run(run).pl.spoofs[id].probe.value)
  {
    var s := Run(run).pl;
    RunOne(run, Plc(PL.Tick(order, ips, fails)));
    PD.TickForwards(s, id, order, ips, fails);
    var log := PL.DoTick(s, order, ips, fails).log;
    var e :| e in log && e.Sent? && PL.Item(s.spoofs[id].reg, s.spoofs[id].probe.value) in e.items;
    var k :| 0 <= k < |log| && log[k] == e;
    var j :| 0 <= j < |e.items| && e.items[j] == PL.Item(s.spoofs[id].reg, s.spoofs[id].probe.value);
    assert log[k].items[j].probe == s.spoofs[id].probe.value;
  }

  /** The steps up to a tick that follows the answer p, and then any others. */
  function AnswerRun(before: seq<Step>, p: Probe, between: seq<Step>, tick: PL.Step, after: seq<Step>): seq<Step> {
    before + [Plc(PL.Receive(p))] + between + [Plc(tick)] + after
  }

  /** An answer to an id registered at the plcontroller can be notified from the next tick on. When the id was given to
      a request that was added and not killed, and is not answered yet, it is then appended to what that request
      reads. */
  lemma AnswerReachesRequest(before: seq<Step>, p: Probe, between: seq<Step>, order: seq<uint32>, ips: seq<uint32>,
                             fails: set<uint32>, after: seq<Step>, k: nat, r: nat, pickKill: bool)
    requires p.id in Run(before).pl.spoofs
    requires AllSpare(PL.DoReceive(Run(before).pl, p).spoofs[p.id], between, p.id)
    requires var s := Run(before + [Plc(PL.Receive(p))] + between).pl;
      PL.Walk(order, s.spoofs.Keys) && PL.Walk(ips, PL.Senders(PL.Collected(s.spoofs, order)))
    requires var cs := CtlSteps(AnswerRun(before, p, between, PL.Tick(order, ips, fails), after));
      && CH.AddedAt(cs, k, r) && CH.GivenTo(cs, p.id, r)
      && forall j :: k < j < |cs| ==> cs[j] != CM.DoKill(r) && !(cs[j].DoNotify? && cs[j].p.id == p.id)
    ensures var s := Run(AnswerRun(before, p, between, PL.Tick(order, ips, fails), after));
      var t' := Next(s, Ctl(CM.DoNotify(p, pickKill))).ctl.table;
      && Possible(s, Ctl(CM.DoNotify(p, pickKill)))
      && r in s.ctl.table.groups && t'.groups.Keys == s.ctl.table.groups.Keys
      && t'.groups[r].sent == s.ctl.table.groups[r].sent + [p]
  {
    var e := PL.DoReceive(Run(before).pl, p).spoofs[p.id];
    var received := before + [Plc(PL.Receive(p))];
    RunOne(before, Plc(PL.Receive(p)));
    SparedBetween(received, between, p.id, e);
    TickHandsOver(received + between, p.id, order, ips, fails);
    StaysHandedOver(received + between + [Plc(PL.Tick(order, ips, fails))], after, p);
    var all := AnswerRun(before, p, between, PL.Tick(order, ips, fails), after);
    CtlView(all);
    CH.AddedIsDelivered(CtlSteps(all), k, p, r, pickKill);
  }
}
