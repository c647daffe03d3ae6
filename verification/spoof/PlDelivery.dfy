/** What an answer that reaches the plcontroller comes to. */
module PlDelivery {
  import opened Common
  import opened SpoofTypes
  import opened PlTable

  lemma {:induction false} CollectedHas(spoofs: map<uint32, Entry>, order: seq<uint32>, id: uint32)
    requires id in order && id in spoofs && spoofs[id].probe.Some?
    ensures Item(spoofs[id].reg, spoofs[id].probe.value) in Collected(spoofs, order)
  {
    var order', last := order[..|order| - 1], order[|order| - 1];
    if last != id {
      CollectedHas(spoofs, order', id);
    }
  }

  lemma {:induction false} BatchOf(hs: seq<Item>, ips: seq<uint32>, fails: set<uint32>, ip: uint32, ok: bool)
    requires ip in ips && (ok <==> ip !in fails)
    ensures Sent(ip, Bucket(hs, ip), ok) in Batches(hs, ips, fails)
  {
    if ips[|ips| - 1] != ip {
      BatchOf(hs, ips[..|ips| - 1], fails, ip, ok);
    }
  }

  /** A step that leaves the entry of an id alone: no tick yet, no other answer, too young to be replaced or expired. */
  predicate Spares(spoofs: map<uint32, Entry>, step: Step, id: uint32)
    requires id in spoofs
  {
    match step
    case Register(i, now) => i != id || now - spoofs[id].t <= REUSE_AFTER
    case Receive(p) => p.id != id
    case Tick(_, _, _) => false
    case Clean(_, clock) => !IsOverdue(spoofs, id, clock)
  }

  ghost predicate AllSpare(e: Entry, steps: seq<Step>, id: uint32) {
    forall i :: 0 <= i < |steps| ==> Spares(map[id := e], steps[i], id)
  }

  lemma SparedStep(s: State, step: Step, id: uint32)
    requires id in s.spoofs && Spares(s.spoofs, step, id)
    ensures id in Next(s, step).spoofs && Next(s, step).spoofs[id] == s.spoofs[id]
  {
  }

  lemma {:induction false} SparedRun(s: State, steps: seq<Step>, id: uint32)
    requires id in s.spoofs && AllSpare(s.spoofs[id], steps, id)
    ensures id in Run(s, steps).spoofs && Run(s, steps).spoofs[id] == s.spoofs[id]
  {
    if steps != [] {
      var before, step := steps[..|steps| - 1], steps[|steps| - 1];
      SparedRun(s, before, id);
      assert Spares(map[id := s.spoofs[id]], step, id);
      SparedStep(Run(s, before), step, id);
    }
  }

  lemma TickForwards(s: State, id: uint32, order: seq<uint32>, ips: seq<uint32>, fails: set<uint32>)
    requires id in s.spoofs && s.spoofs[id].probe.Some?
    requires Walk(order, s.spoofs.Keys) && Walk(ips, Senders(Collected(s.spoofs, order)))
    ensures var p := s.spoofs[id].probe.value;
      var s' := DoTick(s, order, ips, fails);
      id !in s'.spoofs && exists e :: e in s'.log && e.Sent? && e.ip == p.sender && Item(s.spoofs[id].reg, p) in e.items
  {
    var p := s.spoofs[id].probe.value;
    var hs, h := Collected(s.spoofs, order), Item(s.spoofs[id].reg, p);
    assert id in Elems(order);
    CollectedHas(s.spoofs, order, id);
    BucketIs(hs, p.sender);
    assert h.probe.sender in Senders(hs) && p.sender in Elems(ips);
    var ok := p.sender !in fails;
    BatchOf(hs, ips, fails, p.sender, ok);
    var e := Sent(p.sender, Bucket(hs, p.sender), ok);
    assert e in DoTick(s, order, ips, fails).log;
  }

  /** An answer to a registered id goes out at the next tick, in the batch of its sender, whatever other registrations,
      answers and clean-ups come between. */
  lemma ReceivedIsForwarded(s: State, p: Probe, between: seq<Step>, order: seq<uint32>, ips: seq<uint32>, fails: set<uint32>)
    requires p.id in s.spoofs && AllSpare(DoReceive(s, p).spoofs[p.id], between, p.id)
    requires var s1 := Run(DoReceive(s, p), between);
      Walk(order, s1.spoofs.Keys) && Walk(ips, Senders(Collected(s1.spoofs, order)))
    ensures var s2 := Next(Run(DoReceive(s, p), between), Tick(order, ips, fails));
      && p.id !in s2.spoofs
      && exists e :: e in s2.log && e.Sent? && e.ip == p.sender && Item(s.spoofs[p.id].reg, p) in e.items
  {
    SparedRun(DoReceive(s, p), between, p.id);
    TickForwards(Run(DoReceive(s, p), between), p.id, order, ips, fails);
  }
}
