/** The controller's spoof map as it is updated in place, each operation proved to take the abstract table from one
    state to the next. */
module SpoofMaps {
  import opened Common
  import opened SpoofTypes
  import CM = ControllerMap

  /** The counted channel shared by the ids of one request. `sent` and `taken` describe its buffered Go channel. */
  class Channel {
    const request: nat
    const ids: seq<uint32>
    var count: int
    var sent: seq<Probe>
    var taken: nat
    var closed: bool
    var killed: bool
    ghost var cleaned: bool

    /** A request that got no ids closes its channel at once instead of registering it. */
    constructor (request: nat, ids: seq<uint32>)
      ensures this.request == request && this.ids == ids
      ensures Value() == CM.Group(ids, |ids|, [], 0, ids == [], false, false)
    {
      this.request, this.ids := request, ids;
      count, sent, taken := |ids|, [], 0;
      closed, killed, cleaned := |ids| == 0, false, false;
    }

    ghost function Value(): CM.Group
      reads this
    {
      CM.Group(ids, count, sent, taken, closed, killed, cleaned)
    }

    method Send(p: Probe, pickKill: bool) returns (o: CM.Outcome)
      modifies this`count, this`sent, this`closed
      ensures o.Panicked? || o.Blocked? || (Value(), o) == CM.Send(old(Value()), p, pickKill)
      ensures o.Panicked? || o.Blocked? ==> o == CM.Send(old(Value()), p, pickKill).1
    {
      count := count - 1;
      var full := |sent| - taken >= |ids|;
      if killed && (pickKill || (full && !closed)) {
        return CM.Dropped;
      }
      if closed {
        return CM.Panicked;
      }
      if full {
        return CM.Blocked;
      }
      sent := sent + [p];
      if count == 0 {
        closed := true;
      }
      return CM.Sent;
    }

    /** The request reads one probe off the channel; it waits while there is none. */
    method Take() returns (p: Probe)
      requires taken < |sent|
      modifies this`taken
      ensures p == sent[old(taken)] && taken == old(taken) + 1 && Value() == old(Value()).(taken := old(taken) + 1)
    {
      p := sent[taken];
      taken := taken + 1;
    }

    /** The request closes the kill channel. */
    method Kill()
      modifies this`killed
      ensures killed && Value() == old(Value()).(killed := true)
    {
      killed := true;
    }
  }

  class SpoofMap {
    var sm: map<uint32, Channel>
    ghost var chans: map<nat, Channel>

    ghost predicate Valid()
      reads this
    {
      && (forall r :: r in chans ==> chans[r].request == r)
      && (forall id :: id in sm ==> sm[id].request in chans && chans[sm[id].request] == sm[id])
    }

    ghost function Value(): CM.Table
      reads this, chans.Values
    {
      CM.Table(map r | r in chans :: chans[r].Value(), map id | id in sm :: sm[id].request)
    }

    constructor ()
      ensures Valid() && Value() == CM.START.table
    {
      sm, chans := map[], map[];
    }

    /** Add. The loop does nothing for a request with no ids. */
    method Add(r: nat, ids: seq<uint32>) returns (ch: Channel)
      requires Valid() && r !in chans
      modifies this
      ensures Valid() && fresh(ch) && r in chans && chans[r] == ch
      ensures Value() == CM.Add(old(Value()), r, ids)
      ensures ch.ids == ids && ch.count == |ids| && ch.sent == [] && ch.taken == 0 && !ch.killed
      ensures ch.closed <==> |ids| == 0
      ensures forall id :: id in ids ==> id in sm && sm[id] == ch
      ensures forall id :: id !in ids ==> (id in sm <==> id in old(sm)) && (id in sm ==> sm[id] == old(sm[id]))
    {
      ch := new Channel(r, ids);
      ghost var before := Value();
      chans := chans[r := ch];
      assert Value().groups == before.groups[r := ch.Value()];
      assert Value().sm == before.sm;
      PutAll(ch);
      Added(before, ch, old(sm));
    }

    /** The new channel is where its ids lead, and the others lead where they did. */
    lemma Added(before: CM.Table, ch: Channel, was: map<uint32, Channel>)
      requires Valid() && ch.request in chans && chans[ch.request] == ch
      requires before.sm == map id | id in was :: was[id].request
      requires forall id :: id in was ==> was[id].request in chans && chans[was[id].request] == was[id]
      requires Value().sm == CM.MapAll(before.sm, ch.ids, ch.request)
      ensures forall id :: id in ch.ids ==> id in sm && sm[id] == ch
      ensures forall id :: id !in ch.ids ==> (id in sm <==> id in was) && (id in sm ==> sm[id] == was[id])
    {
      CM.MapAllIs(before.sm, ch.ids, ch.request);
      assert forall id :: id in sm <==> id in Value().sm;
      forall id | id !in ch.ids && id in was ensures id in sm && sm[id] == was[id] {
        assert Value().sm[id] == before.sm[id];
      }
      forall id | id in ch.ids ensures id in sm && sm[id] == ch {
        assert Value().sm[id] == ch.request;
      }
    }

    /** The loop of Add: every id now leads to the new channel. */
    method PutAll(ch: Channel)
      requires Valid() && ch.request in chans && chans[ch.request] == ch
      modifies this`sm
      ensures Valid() && Value().groups == old(Value().groups)
      ensures Value().sm == CM.MapAll(old(Value().sm), ch.ids, ch.request)
    {
      var i := 0;
      while i < |ch.ids|
        invariant 0 <= i <= |ch.ids| && Valid()
        invariant Value().sm == CM.MapAll(old(Value().sm), ch.ids[..i], ch.request)
      {
        assert ch.ids[..i + 1][..i] == ch.ids[..i];
        sm := sm[ch.ids[i] := ch];
        i := i + 1;
      }
      assert ch.ids[..i] == ch.ids;
    }

    method Notify(p: Probe, pickKill: bool) returns (o: CM.Outcome)
      requires Valid()
      modifies this`sm, chans.Values
      ensures Valid() && o == CM.Notify(old(Value()), p, pickKill).1
      ensures o.Panicked? || o.Blocked? || Value() == CM.Notify(old(Value()), p, pickKill).0
    {
      if p.id !in sm {
        return CM.Unknown;
      }
      ghost var before := Value();
      var ch := sm[p.id];
      o := ch.Send(p, pickKill);
      if o.Panicked? || o.Blocked? {
        return;
      }
      OneGroup(before, ch);
      Unmap(p.id);
    }

    method Unmap(id: uint32)
      requires Valid()
      modifies this`sm
      ensures Valid() && Value() == old(Value()).(sm := old(Value()).sm - {id})
    {
      ghost var before := Value();
      sm := sm - {id};
      assert Value().sm == before.sm - {id};
    }

    /** The request of `ch` reads a probe. */
    method Take(ch: Channel) returns (p: Probe)
      requires Valid() && ch.request in chans && chans[ch.request] == ch && ch.taken < |ch.sent|
      modifies ch`taken
      ensures Valid() && Value() == CM.Take(old(Value()), ch.request)
      ensures p == ch.sent[old(ch.taken)] && ch.taken == old(ch.taken) + 1
    {
      ghost var before := Value();
      p := ch.Take();
      OneGroup(before, ch);
    }

    /** The request of `ch` gives up, or has seen its channel closed. */
    method Kill(ch: Channel)
      requires Valid() && ch.request in chans && chans[ch.request] == ch
      modifies ch`killed
      ensures Valid() && Value() == CM.Kill(old(Value()), ch.request) && ch.killed
    {
      ghost var before := Value();
      ch.Kill();
      OneGroup(before, ch);
    }

    /** When one channel changed, the table is the one before with that group replaced. */
    lemma OneGroup(before: CM.Table, ch: Channel)
      requires Valid() && ch.request in chans && chans[ch.request] == ch
      requires before.groups.Keys == chans.Keys
      requires forall r :: r in chans && r != ch.request ==> before.groups[r] == chans[r].Value()
      ensures Value().groups == before.groups[ch.request := ch.Value()]
    {
    }

    /** The goroutine of Add, once the kill channel is closed. */
    method Cleanup(ch: Channel)
      requires Valid() && ch.request in chans && chans[ch.request] == ch && ch.killed
      modifies this`sm, ch`cleaned
      ensures Valid() && Value() == CM.Cleanup(old(Value()), ch.request)
      ensures forall id :: id in sm <==> id in old(sm) && id !in ch.ids
    {
      DropAll(ch);
      ghost var before := Value();
      ch.cleaned := true;
      OneGroup(before, ch);
    }

    /** The loop of the clean-up: no id of the channel leads anywhere any more. */
    method DropAll(ch: Channel)
      requires Valid()
      modifies this`sm
      ensures Valid() && Value().groups == old(Value().groups)
      ensures Value().sm == old(Value().sm) - set id | id in ch.ids
      ensures sm == old(sm) - set id | id in ch.ids
    {
      ghost var before := sm;
      var i := 0;
      while i < |ch.ids|
        invariant 0 <= i <= |ch.ids|
        invariant sm == before - set id | id in ch.ids[..i]
      {
        assert ch.ids[..i + 1] == ch.ids[..i] + [ch.ids[i]];
        sm := sm - {ch.ids[i]};
        i := i + 1;
      }
      assert ch.ids[..i] == ch.ids;
    }
  }
}
