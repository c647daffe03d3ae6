/** The plcontroller's table as it is updated in place. Map iteration takes the keys in any order; the order taken is
    returned so that the new state can be named. */
module SpoofTables {
  import opened Common
  import opened SpoofTypes
  import opened PlTable

  class SpoofTable {
    var spoofs: map<uint32, Entry>
    /** Histories that the statements are about; `regs` also numbers the registrations. */
    var regs: seq<uint32>
    ghost var log: seq<Event>
    ghost var rx: set<Probe>

    ghost function Value(): State
      reads this
    {
      State(spoofs, regs, log, rx)
    }

    constructor ()
      ensures Value() == START
    {
      spoofs, regs, log, rx := map[], [], [], {};
    }

    method Register(id: uint32, now: int) returns (ok: bool)
      modifies this
      ensures Value() == DoRegister(old(Value()), id, now)
      ensures ok <==> !(id in old(spoofs) && now - old(spoofs)[id].t <= 60_000_000_000)
      ensures spoofs == if ok then old(spoofs)[id := Entry(|old(regs)|, now, None)] else old(spoofs)
    {
      if id in spoofs {
        var age := now - spoofs[id].t;
        if age > REUSE_AFTER {
          log := log + [Replaced(spoofs[id].reg, age)];
          spoofs := spoofs[id := Entry(|regs|, now, None)];
          regs := regs + [id];
          return true;
        }
        return false;
      }
      spoofs := spoofs[id := Entry(|regs|, now, None)];
      regs := regs + [id];
      return true;
    }

    method Receive(p: Probe) returns (ok: bool)
      modifies this
      ensures Value() == DoReceive(old(Value()), p)
      ensures ok == (p.id in old(spoofs))
    {
      if p.id in spoofs {
        spoofs := spoofs[p.id := spoofs[p.id].(probe := Some(p))];
        rx := rx + {p};
        return true;
      }
      return false;
    }

    /** First loop of a tick: answered entries leave the table, grouped by sender. */
    method Collect() returns (dests: map<uint32, seq<Item>>, ghost order: seq<uint32>)
      modifies this`spoofs
      ensures Walk(order, old(spoofs).Keys)
      ensures spoofs == map id | id in old(spoofs) && old(spoofs)[id].probe.None? :: old(spoofs)[id]
      ensures forall ip :: ip in dests <==> Bucket(Collected(old(spoofs), order), ip) != []
      ensures forall ip :: ip in dests ==> dests[ip] == Bucket(Collected(old(spoofs), order), ip)
    {
      var start, todo := spoofs, spoofs.Keys;
      dests, order := map[], [];
      while todo != {}
        invariant todo <= start.Keys && Walked(order, start.Keys, todo)
        invariant spoofs == map id | id in start && (id in todo || start[id].probe.None?) :: start[id]
        invariant forall ip :: ip in dests <==> Bucket(Collected(start, order), ip) != []
        invariant forall ip :: ip in dests ==> dests[ip] == Bucket(Collected(start, order), ip)
      {
        var id :| id in todo;
        dests := Put(start, order, id, dests);
        if spoofs[id].probe.Some? {
          spoofs := spoofs - {id};
        }
        WalkOne(order, start.Keys, todo, id);
        order, todo := order + [id], todo - {id};
      }
      WalkDone(order, start.Keys);
    }

    /** Second loop of a tick: one send per sender, whether it succeeds or not. */
    method SendAll(dests: map<uint32, seq<Item>>, fails: set<uint32>, ghost hs: seq<Item>) returns (ghost ips: seq<uint32>)
      requires forall ip :: ip in dests ==> dests[ip] == Bucket(hs, ip)
      modifies this`log
      ensures Walk(ips, dests.Keys) && log == old(log) + Batches(hs, ips, fails)
    {
      var todo := dests.Keys;
      ips := [];
      while todo != {}
        invariant todo <= dests.Keys && Walked(ips, dests.Keys, todo)
        invariant log == old(log) + Batches(hs, ips, fails)
      {
        var ip :| ip in todo;
        log := log + [Sent(ip, dests[ip], ip !in fails)];
        WalkOne(ips, dests.Keys, todo, ip);
        BatchesMore(hs, ips, ip, fails, ip !in fails);
        ips, todo := ips + [ip], todo - {ip};
      }
      WalkDone(ips, dests.Keys);
    }

    method SendSpoofs(fails: set<uint32>) returns (ghost order: seq<uint32>, ghost ips: seq<uint32>)
      modifies this
      ensures Walk(order, old(spoofs).Keys) && Walk(ips, Senders(Collected(old(spoofs), order)))
      ensures Value() == DoTick(old(Value()), order, ips, fails)
    {
      var dests;
      dests, order := Collect();
      ghost var hs := Collected(old(spoofs), order);
      forall ip ensures ip in dests <==> ip in Senders(hs) {
        BucketIs(hs, ip);
        if Bucket(hs, ip) != [] {
          assert Bucket(hs, ip)[0] in hs;
        }
      }
      ips := SendAll(dests, fails, hs);
      assert dests.Keys == Senders(hs);
    }

    /** One entry of the clean-up loop. */
    method DropIfOld(id: uint32, now: int)
      requires id in spoofs
      modifies this`spoofs, this`log
      ensures spoofs == if now - old(spoofs)[id].t > EXPIRE_AFTER then old(spoofs) - {id} else old(spoofs)
      ensures log == if now - old(spoofs)[id].t > EXPIRE_AFTER
        then old(log) + [Expired(old(spoofs)[id].reg, now - old(spoofs)[id].t)] else old(log)
    {
      if now - spoofs[id].t > EXPIRE_AFTER {
        log := log + [Expired(spoofs[id].reg, now - spoofs[id].t)];
        spoofs := spoofs - {id};
      }
    }

    /** `clock` is what the clock shows when the walk reaches an entry. */
    method CleanOld(clock: map<uint32, int>) returns (ghost order: seq<uint32>)
      requires spoofs.Keys <= clock.Keys
      modifies this`spoofs, this`log
      ensures Walk(order, old(spoofs).Keys)
      ensures Value() == DoClean(old(Value()), order, clock)
    {
      order := DropAllOld(clock);
    }

    method DropAllOld(clock: map<uint32, int>) returns (ghost order: seq<uint32>)
      requires spoofs.Keys <= clock.Keys
      modifies this`spoofs, this`log
      ensures Walk(order, old(spoofs).Keys)
      ensures spoofs == Kept(old(spoofs), {}, clock) && log == old(log) + Overdue(old(spoofs), order, clock)
    {
      var start, todo := spoofs, spoofs.Keys;
      order := [];
      while todo != {}
        invariant Cleaning(start, old(log), order, todo, clock, spoofs, log)
      {
        var id :| id in todo;
        CleaningOne(start, old(log), order, todo, clock, spoofs, log, id);
        DropIfOld(id, clock[id]);
        order, todo := order + [id], todo - {id};
      }
      WalkDone(order, start.Keys);
    }
  }

  /** The part of a walk before the keys in `todo`. */
  ghost predicate Walked(order: seq<uint32>, keys: set<uint32>, todo: set<uint32>) {
    NoDup(order) && forall id :: id in order <==> id in keys && id !in todo
  }

  lemma WalkOne(order: seq<uint32>, keys: set<uint32>, todo: set<uint32>, id: uint32)
    requires todo <= keys && id in todo && Walked(order, keys, todo)
    ensures Walked(order + [id], keys, todo - {id})
  {
  }

  lemma WalkDone(order: seq<uint32>, keys: set<uint32>)
    requires Walked(order, keys, {})
    ensures Walk(order, keys)
  {
  }

  /** The table while the keys in `todo` are still to be looked at. */
  ghost function Kept(start: map<uint32, Entry>, todo: set<uint32>, clock: map<uint32, int>): map<uint32, Entry> {
    map id | id in start && (id in todo || !IsOverdue(start, id, clock)) :: start[id]
  }

  lemma KeptOne(start: map<uint32, Entry>, todo: set<uint32>, id: uint32, clock: map<uint32, int>)
    requires id in todo && id in start
    ensures id in Kept(start, todo, clock) && Kept(start, todo, clock)[id] == start[id]
    ensures Kept(start, todo - {id}, clock)
         == if IsOverdue(start, id, clock) then Kept(start, todo, clock) - {id} else Kept(start, todo, clock)
  {
  }

  lemma {:induction false} OverdueOne(log: seq<Event>, start: map<uint32, Entry>, order: seq<uint32>, id: uint32,
                                      clock: map<uint32, int>)
    requires id in start && id in clock
    ensures log + Overdue(start, order + [id], clock) == if clock[id] - start[id].t > EXPIRE_AFTER
      then log + Overdue(start, order, clock) + [Expired(start[id].reg, clock[id] - start[id].t)]
      else log + Overdue(start, order, clock)
  {
    assert (order + [id])[..|order|] == order;
  }

  /** The clean-up loop before the keys in `todo`: table and log. */
  ghost predicate Cleaning(start: map<uint32, Entry>, base: seq<Event>, order: seq<uint32>, todo: set<uint32>,
                           clock: map<uint32, int>, spoofs: map<uint32, Entry>, log: seq<Event>) {
    && todo <= start.Keys <= clock.Keys && Walked(order, start.Keys, todo)
    && spoofs == Kept(start, todo, clock) && log == base + Overdue(start, order, clock)
  }

  lemma CleaningOne(start: map<uint32, Entry>, base: seq<Event>, order: seq<uint32>, todo: set<uint32>,
                    clock: map<uint32, int>, spoofs: map<uint32, Entry>, log: seq<Event>, id: uint32)
    requires Cleaning(start, base, order, todo, clock, spoofs, log) && id in todo
    ensures id in spoofs && spoofs[id] == start[id]
    ensures if clock[id] - start[id].t > EXPIRE_AFTER
      then Cleaning(start, base, order + [id], todo - {id}, clock, spoofs - {id},
                    log + [Expired(start[id].reg, clock[id] - start[id].t)])
      else Cleaning(start, base, order + [id], todo - {id}, clock, spoofs, log)
  {
    WalkOne(order, start.Keys, todo, id);
    OverdueOne(base, start, order, id, clock);
    KeptOne(start, todo, id, clock);
  }

  lemma BatchesMore(hs: seq<Item>, ips: seq<uint32>, ip: uint32, fails: set<uint32>, ok: bool)
    requires ok <==> ip !in fails
    ensures Batches(hs, ips + [ip], fails) == Batches(hs, ips, fails) + [Sent(ip, Bucket(hs, ip), ok)]
  {
    assert (ips + [ip])[..|ips|] == ips;
  }

  /** One entry of the first loop: an answered one is appended to its sender's batch. */
  method Put(start: map<uint32, Entry>, ghost order: seq<uint32>, id: uint32, dests: map<uint32, seq<Item>>)
    returns (dests': map<uint32, seq<Item>>)
    requires id in start
    requires forall ip :: ip in dests <==> Bucket(Collected(start, order), ip) != []
    requires forall ip :: ip in dests ==> dests[ip] == Bucket(Collected(start, order), ip)
    ensures forall ip :: ip in dests' <==> Bucket(Collected(start, order + [id]), ip) != []
    ensures forall ip :: ip in dests' ==> dests'[ip] == Bucket(Collected(start, order + [id]), ip)
  {
    assert (order + [id])[..|order|] == order;
    dests' := dests;
    if start[id].probe.Some? {
      var h := Item(start[id].reg, start[id].probe.value);
      ghost var hs := Collected(start, order);
      assert (hs + [h])[..|hs|] == hs;
      var before := if h.probe.sender in dests then dests[h.probe.sender] else [];
      dests' := dests[h.probe.sender := before + [h]];
    }
  }
}
