/** The controller's side of a spoofed measurement: ids are handed out, grouped on one counted channel per request,
    and every reply that comes back is sent on the channel of its id. One step is one lock region. */
module ControllerMap {
  import opened Common
  import opened SpoofTypes

  /** A channel with its counter. `sent` is everything ever put on it, `taken` how much the request has read;
      what is between is in the buffer, which holds |ids| probes. */
  datatype Group = Group(ids: seq<uint32>, count: int, sent: seq<Probe>, taken: nat,
                         closed: bool, killed: bool, cleaned: bool)

  /** The groups by request, and the request every id still leads to. */
  datatype Table = Table(groups: map<nat, Group>, sm: map<uint32, nat>)

  /** Sent and Dropped are normal; the other two are a send (or second close) on a closed channel, and a send that
      would wait for room while it holds both locks. */
  datatype Outcome = Unknown | Sent | Dropped | Panicked | Blocked

  // ---------- the lock regions ----------

  /** channel.Send. When the group is killed both cases of the select may be ready; `pickKill` is the choice. */
  function Send(g: Group, p: Probe, pickKill: bool): (Group, Outcome) {
    var c := g.count - 1;
    var full := |g.sent| - g.taken >= |g.ids|;
    if g.killed && (pickKill || (full && !g.closed)) then (g.(count := c), Dropped)
    else if g.closed then (g, Panicked)
    else if full then (g, Blocked)
    else (g.(count := c, sent := g.sent + [p], closed := c == 0), Sent)
  }

  function MapAll(sm: map<uint32, nat>, ids: seq<uint32>, r: nat): map<uint32, nat> {
    if ids == [] then sm else MapAll(sm, ids[..|ids| - 1], r)[ids[|ids| - 1] := r]
  }

  /** spoofMap.Add; a request without ids closes its channel instead (controller.go:924-929). */
  function Add(t: Table, r: nat, ids: seq<uint32>): Table {
    var g := Group(ids, |ids|, [], 0, ids == [], false, false);
    Table(t.groups[r := g], MapAll(t.sm, ids, r))
  }

  /** spoofMap.Notify */
  function Notify(t: Table, p: Probe, pickKill: bool): (Table, Outcome) {
    if p.id !in t.sm || t.sm[p.id] !in t.groups then (t, Unknown)
    else
      var r := t.sm[p.id];
      var (g, o) := Send(t.groups[r], p, pickKill);
      if o.Panicked? || o.Blocked? then (t, o) else (Table(t.groups[r := g], t.sm - {p.id}), o)
  }

  /** The request reads one probe off its channel. */
  function Take(t: Table, r: nat): Table {
    if r in t.groups && t.groups[r].taken < |t.groups[r].sent|
    then t.(groups := t.groups[r := t.groups[r].(taken := t.groups[r].taken + 1)])
    else t
  }

  /** The request closes its kill channel: timeout, cancellation, or the channel was closed. */
  function Kill(t: Table, r: nat): Table {
    if r in t.groups then t.(groups := t.groups[r := t.groups[r].(killed := true)]) else t
  }

  /** The goroutine started by Add wakes up after the kill and removes the ids that were left over. */
  function Cleanup(t: Table, r: nat): Table {
    if r in t.groups && t.groups[r].killed
    then Table(t.groups[r := t.groups[r].(cleaned := true)], t.sm - set id | id in t.groups[r].ids)
    else t
  }

  // ---------- runs ----------

  /** The whole controller: the last id given out, the ids of requests not yet added, who asked for each id,
      and whether any lock region ever panicked or blocked. */
  datatype State = State(spoofId: uint32, pending: map<nat, seq<uint32>>, owner: map<uint32, nat>, table: Table, bad: bool)

  datatype Step =
    | DoAlloc(r: nat)                         // nextSpoofID for request r
    | DoAdd(r: nat)
    | DoNotify(p: Probe, pickKill: bool)
    | DoTake(r: nat)
    | DoKill(r: nat)
    | DoCleanup(r: nat)

  const START := State(0, map[], map[], Table(map[], map[]), false)

  /** Any step may be tried at any time; one that cannot happen changes nothing. Fewer than 2^32 ids are given out. */
  function Next(s: State, step: Step): State {
    match step
    case DoAlloc(r) =>
      if s.spoofId == 0xFFFF_FFFF || r in s.table.groups then s
      else
        var id: uint32 := s.spoofId + 1;
        var ids := if r in s.pending then s.pending[r] else [];
        s.(spoofId := id, pending := s.pending[r := ids + [id]], owner := s.owner[id := r])
    case DoAdd(r) =>
      if r in s.table.groups then s
      else
        var ids := if r in s.pending then s.pending[r] else [];
        s.(pending := s.pending - {r}, table := Add(s.table, r, ids))
    case DoNotify(p, pickKill) =>
      var (t, o) := Notify(s.table, p, pickKill);
      s.(table := t, bad := s.bad || o.Panicked? || o.Blocked?)
    case DoTake(r) => s.(table := Take(s.table, r))
    case DoKill(r) => s.(table := Kill(s.table, r))
    case DoCleanup(r) => s.(table := Cleanup(s.table, r))
  }

  function Run(s: State, steps: seq<Step>): State {
    if steps == [] then s else Next(Run(s, steps[..|steps| - 1]), steps[|steps| - 1])
  }

  // ---------- the invariant ----------

  /** The ids of request r that still lead somewhere. */
  ghost function Mapped(t: Table, r: nat): set<uint32>
    requires r in t.groups
  {
    set id | id in t.groups[r].ids && id in t.sm
  }

  ghost predicate OwnedBy(s: State, ids: seq<uint32>, r: nat) {
    NoDup(ids) && forall id :: id in ids ==> id in s.owner && s.owner[id] == r
  }

  ghost predicate IdsInv(s: State) {
    && (forall id :: id in s.owner <==> 1 <= id <= s.spoofId)
    && (forall r :: r in s.pending ==> r !in s.table.groups && OwnedBy(s, s.pending[r], r))
    && (forall r :: r in s.table.groups ==> OwnedBy(s, s.table.groups[r].ids, r))
  }

  /** An id in the map leads to the group it was added with, and that group is not cleaned up. */
  ghost predicate MapInv(t: Table) {
    forall id :: id in t.sm ==>
      t.sm[id] in t.groups && id in t.groups[t.sm[id]].ids && !t.groups[t.sm[id]].cleaned
  }

  /** The counter is the number of ids still mapped; each id was delivered at most once and then unmapped;
      the channel is closed only when no id is mapped, and without a kill exactly then. */
  ghost predicate GroupInv(t: Table, r: nat)
    requires r in t.groups
  {
    var g, m := t.groups[r], Mapped(t, r);
    && (!g.cleaned ==> g.count == |m|)
    && (g.cleaned ==> g.killed && m == {})
    && (g.closed ==> m == {})
    && |g.sent| + |m| <= |g.ids|
    && g.taken <= |g.sent|
    && (!g.killed ==> |g.sent| + |m| == |g.ids| && (m == {} ==> g.closed))
    && (forall i :: 0 <= i < |g.sent| ==> g.sent[i].id in g.ids && g.sent[i].id !in t.sm)
    && (forall i, j :: 0 <= i < j < |g.sent| ==> g.sent[i].id != g.sent[j].id)
  }

  ghost predicate Inv(s: State) {
    IdsInv(s) && MapInv(s.table)
  }

  // ---------- every step keeps it ----------

  lemma {:induction false} MapAllIs(sm: map<uint32, nat>, ids: seq<uint32>, r: nat)
    ensures forall id :: id in MapAll(sm, ids, r) <==> id in sm || id in ids
    ensures forall id :: id in MapAll(sm, ids, r) ==> MapAll(sm, ids, r)[id] == if id in ids then r else sm[id]
  {
    if ids != [] {
      MapAllIs(sm, ids[..|ids| - 1], r);
    }
  }

  lemma AllocKeepsIds(s: State, r: nat)
    requires IdsInv(s)
    ensures IdsInv(Next(s, DoAlloc(r)))
  {
    var s' := Next(s, DoAlloc(r));
    if s' != s {
      var id: uint32 := s.spoofId + 1;
      var ids := if r in s.pending then s.pending[r] else [];
      assert id !in s.owner && id !in ids;
      NoDupAppend(ids, id);
      forall q | q in s.table.groups ensures OwnedBy(s', s.table.groups[q].ids, q) {
        assert OwnedBy(s, s.table.groups[q].ids, q);
      }
      forall q | q in s'.pending ensures OwnedBy(s', s'.pending[q], q) {
        assert q != r ==> OwnedBy(s, s.pending[q], q);
      }
    }
  }

  lemma AddKeepsIds(s: State, r: nat)
    requires IdsInv(s)
    ensures IdsInv(Next(s, DoAdd(r)))
  {
    var s' := Next(s, DoAdd(r));
    forall q | q in s'.table.groups ensures OwnedBy(s', s'.table.groups[q].ids, q) {
      assert q in s.table.groups ==> OwnedBy(s, s.table.groups[q].ids, q);
      assert q in s.pending ==> OwnedBy(s, s.pending[q], q);
    }
    forall q | q in s'.pending ensures OwnedBy(s', s'.pending[q], q) {
      assert OwnedBy(s, s.pending[q], q);
    }
  }

  ghost predicate SameIds(t: Table, t': Table) {
    t'.groups.Keys == t.groups.Keys && forall r :: r in t.groups ==> t'.groups[r].ids == t.groups[r].ids
  }

  lemma NotifySameIds(t: Table, p: Probe, pickKill: bool)
    ensures SameIds(t, Notify(t, p, pickKill).0)
  {
  }

  /** Steps that hand out no ids leave the ownership of ids as it is. */
  lemma IdsKept(s: State, s': State)
    requires IdsInv(s) && s'.owner == s.owner && s'.spoofId == s.spoofId && s'.pending == s.pending
    requires SameIds(s.table, s'.table)
    ensures IdsInv(s')
  {
    forall r | r in s'.table.groups ensures OwnedBy(s', s'.table.groups[r].ids, r) {
      assert OwnedBy(s, s.table.groups[r].ids, r);
    }
    forall r | r in s'.pending ensures OwnedBy(s', s'.pending[r], r) {
      assert OwnedBy(s, s.pending[r], r);
    }
  }

  lemma StepKeepsIds(s: State, step: Step)
    requires IdsInv(s)
    ensures IdsInv(Next(s, step))
  {
    match step
    case DoAlloc(r) => AllocKeepsIds(s, r);
    case DoAdd(r) => AddKeepsIds(s, r);
    case DoNotify(p, pickKill) =>
      NotifySameIds(s.table, p, pickKill);
      IdsKept(s, Next(s, step));
    case _ => IdsKept(s, Next(s, step));
  }

  lemma StepKeepsMap(s: State, step: Step)
    requires MapInv(s.table)
    ensures MapInv(Next(s, step).table)
  {
    if step.DoAdd? {
      MapAllIs(s.table.sm, if step.r in s.pending then s.pending[step.r] else [], step.r);
    }
  }

  /** Two requests never share an id. */
  lemma IdsDisjoint(s: State, a: seq<uint32>, q: nat, b: seq<uint32>, r: nat)
    requires OwnedBy(s, a, q) && OwnedBy(s, b, r) && q != r
    ensures forall id :: id in a ==> id !in b
  {
  }

  /** A group keeps its invariant when neither it nor the map on its ids changes. */
  lemma Untouched(t: Table, t': Table, q: nat)
    requires q in t.groups && q in t'.groups && t'.groups[q] == t.groups[q] && GroupInv(t, q)
    requires forall id :: id in t.groups[q].ids ==> (id in t.sm <==> id in t'.sm)
    ensures GroupInv(t', q)
  {
    assert Mapped(t', q) == Mapped(t, q);
  }

  /** A request that is added gets its ids on one channel that nothing was sent on: each of them leads to it, every
      other id leads where it led, and the channel is open exactly when there is an id. */
  lemma AddedGroup(t: Table, r: nat, ids: seq<uint32>)
    requires NoDup(ids)
    ensures var t' := Add(t, r, ids);
      && GroupInv(t', r)
      && t'.groups.Keys == t.groups.Keys + {r} && (forall q :: q in t.groups && q != r ==> t'.groups[q] == t.groups[q])
      && (forall id :: id in ids ==> id in t'.sm && t'.sm[id] == r)
      && (forall id :: id !in ids ==> (id in t'.sm <==> id in t.sm) && (id in t.sm ==> t'.sm[id] == t.sm[id]))
    ensures var g := Add(t, r, ids).groups[r];
      g.ids == ids && g.count == |ids| && g.sent == [] && g.taken == 0 && !g.killed && (g.closed <==> |ids| == 0)
  {
    MapAllIs(t.sm, ids, r);
    assert Mapped(Add(t, r, ids), r) == Elems(ids);
    NoDupSize(ids);
  }

  lemma AddKeepsGroup(s: State, r: nat, q: nat)
    requires Inv(s) && (q in s.table.groups ==> GroupInv(s.table, q))
    requires q in Next(s, DoAdd(r)).table.groups
    ensures GroupInv(Next(s, DoAdd(r)).table, q)
  {
    if r !in s.table.groups {
      var ids := if r in s.pending then s.pending[r] else [];
      assert OwnedBy(s, ids, r);
      if q == r {
        AddedGroup(s.table, r, ids);
      } else {
        MapAllIs(s.table.sm, ids, r);
        IdsDisjoint(s, s.table.groups[q].ids, q, ids, r);
        Untouched(s.table, Next(s, DoAdd(r)).table, q);
      }
    }
  }

  /** A reply to a mapped id finds the channel open and with room. */
  lemma NotifyIsSafe(t: Table, p: Probe, pickKill: bool)
    requires p.id in t.sm ==> t.sm[p.id] in t.groups && p.id in Mapped(t, t.sm[p.id]) && GroupInv(t, t.sm[p.id])
    ensures var o := Notify(t, p, pickKill).1; !o.Panicked? && !o.Blocked?
  {
  }

  /** Delivering or dropping the reply to one mapped id. */
  lemma NotifyKeepsOwnGroup(t: Table, p: Probe, pickKill: bool, r: nat)
    requires r in t.groups && GroupInv(t, r) && NoDup(t.groups[r].ids)
    requires p.id in t.sm && t.sm[p.id] == r && p.id in Mapped(t, r) && !t.groups[r].cleaned
    ensures GroupInv(Notify(t, p, pickKill).0, r)
  {
    assert Mapped(Notify(t, p, pickKill).0, r) == Mapped(t, r) - {p.id};
  }

  lemma NotifyKeepsGroup(s: State, p: Probe, pickKill: bool, q: nat)
    requires Inv(s) && q in s.table.groups && GroupInv(s.table, q)
    ensures GroupInv(Notify(s.table, p, pickKill).0, q)
  {
    var t := s.table;
    assert OwnedBy(s, t.groups[q].ids, q);
    if p.id in t.sm {
      var r := t.sm[p.id];
      if r == q {
        NotifyKeepsOwnGroup(t, p, pickKill, q);
      } else {
        IdsDisjoint(s, t.groups[q].ids, q, t.groups[r].ids, r);
        Untouched(t, Notify(t, p, pickKill).0, q);
      }
    }
  }

  lemma CleanupKeepsGroup(s: State, r: nat, q: nat)
    requires Inv(s) && q in s.table.groups && GroupInv(s.table, q)
    ensures GroupInv(Cleanup(s.table, r), q)
  {
    var t, t' := s.table, Cleanup(s.table, r);
    if r in t.groups && t.groups[r].killed {
      if r == q {
        assert Mapped(t', q) == {};
      } else {
        IdsDisjoint(s, t.groups[q].ids, q, t.groups[r].ids, r);
        Untouched(t, t', q);
      }
    }
  }

  lemma TakeKeepsGroup(t: Table, r: nat, q: nat)
    requires q in t.groups && GroupInv(t, q)
    ensures GroupInv(Take(t, r), q)
  {
    assert Mapped(Take(t, r), q) == Mapped(t, q);
  }

  lemma KillKeepsGroup(t: Table, r: nat, q: nat)
    requires q in t.groups && GroupInv(t, q)
    ensures GroupInv(Kill(t, r), q)
  {
    assert Mapped(Kill(t, r), q) == Mapped(t, q);
  }

  lemma StepKeepsGroup(s: State, step: Step, q: nat)
    requires Inv(s) && (q in s.table.groups ==> GroupInv(s.table, q))
    requires q in Next(s, step).table.groups
    ensures GroupInv(Next(s, step).table, q)
  {
    match step
    case DoAlloc(r) =>
    case DoAdd(r) => AddKeepsGroup(s, r, q);
    case DoNotify(p, pickKill) => NotifyKeepsGroup(s, p, pickKill, q);
    case DoTake(r) => TakeKeepsGroup(s.table, r, q);
    case DoKill(r) => KillKeepsGroup(s.table, r, q);
    case DoCleanup(r) => CleanupKeepsGroup(s, r, q);
  }

  lemma {:induction false} RunInv(steps: seq<Step>)
    ensures Inv(Run(START, steps))
  {
    if steps != [] {
      var s := Run(START, steps[..|steps| - 1]);
      RunInv(steps[..|steps| - 1]);
      StepKeepsIds(s, steps[|steps| - 1]);
      StepKeepsMap(s, steps[|steps| - 1]);
    }
  }

  /** In every reachable state every group satisfies its invariant. */
  lemma {:induction false} RunGroup(steps: seq<Step>, r: nat)
    requires r in Run(START, steps).table.groups
    ensures GroupInv(Run(START, steps).table, r)
  {
    if steps != [] {
      var before := steps[..|steps| - 1];
      var s := Run(START, before);
      RunInv(before);
      if r in s.table.groups {
        RunGroup(before, r);
      }
      StepKeepsGroup(s, steps[|steps| - 1], r);
    }
  }

  // ---------- what it means for requests ----------

  /** Over all interleavings no channel is sent to after close, none is closed twice, and no send waits. */
  lemma {:induction false} NoPanicNoBlock(steps: seq<Step>)
    ensures !Run(START, steps).bad
  {
    if steps != [] {
      var before, step := steps[..|steps| - 1], steps[|steps| - 1];
      var s := Run(START, before);
      NoPanicNoBlock(before);
      RunInv(before);
      if step.DoNotify? {
        if step.p.id in s.table.sm {
          RunGroup(before, s.table.sm[step.p.id]);
        }
        NotifyIsSafe(s.table, step.p, step.pickKill);
      }
    }
  }

  /** A request gets at most one reply for each id it was given, and only for its own ids. */
  lemma RepliesAreOwn(steps: seq<Step>, r: nat, i: nat, j: nat)
    requires var t := Run(START, steps).table; r in t.groups && i < |t.groups[r].sent| && j < |t.groups[r].sent|
    ensures var s := Run(START, steps);
      var sent := s.table.groups[r].sent;
      sent[i].id in s.owner && s.owner[sent[i].id] == r && (sent[i].id == sent[j].id ==> i == j)
  {
    RunInv(steps);
    RunGroup(steps, r);
    var s := Run(START, steps);
    assert OwnedBy(s, s.table.groups[r].ids, r);
  }

  ghost function SentIds(g: Group): set<uint32> {
    set i | 0 <= i < |g.sent| :: g.sent[i].id
  }

  lemma {:induction false} DistinctSent(sent: seq<Probe>)
    requires forall i, j :: 0 <= i < j < |sent| ==> sent[i].id != sent[j].id
    ensures |set i | 0 <= i < |sent| :: sent[i].id| == |sent|
  {
    if sent != [] {
      var t := sent[..|sent| - 1];
      DistinctSent(t);
      assert (set i | 0 <= i < |sent| :: sent[i].id) == (set i | 0 <= i < |t| :: t[i].id) + {sent[|sent| - 1].id};
    }
  }

  lemma {:induction false} SubsetSizes<T>(a: set<T>, b: set<T>)
    requires a <= b && |a| == |b|
    ensures a == b
  {
    if a != {} {
      var x :| x in a;
      SubsetSizes(a - {x}, b - {x});
    }
  }

  /** The channel of a request that was not killed is closed exactly when every one of its ids has been delivered. */
  lemma ClosedIffAllDelivered(steps: seq<Step>, r: nat)
    requires var t := Run(START, steps).table; r in t.groups && !t.groups[r].killed
    ensures var g := Run(START, steps).table.groups[r];
      (g.closed <==> |g.sent| == |g.ids|) && (g.closed <==> SentIds(g) == Elems(g.ids))
  {
    RunInv(steps);
    RunGroup(steps, r);
    var s := Run(START, steps);
    var g := s.table.groups[r];
    assert OwnedBy(s, g.ids, r);
    NoDupSize(g.ids);
    DistinctSent(g.sent);
    assert SentIds(g) <= Elems(g.ids);
    if g.closed {
      assert Mapped(s.table, r) == {};
      SubsetSizes(SentIds(g), Elems(g.ids));
    }
    if Mapped(s.table, r) != {} {
      var id :| id in Mapped(s.table, r);
      assert id in Elems(g.ids) && id !in SentIds(g);
    }
  }

  /** The counter of a group that is not cleaned up is the number of its ids still in the map. */
  lemma CountIsMapped(steps: seq<Step>, r: nat)
    requires var t := Run(START, steps).table; r in t.groups && !t.groups[r].cleaned
    ensures var t := Run(START, steps).table; t.groups[r].count == |Mapped(t, r)|
  {
    RunGroup(steps, r);
  }

  /** A reply to an id that is still open reaches its request, and the id is closed with it; the channel closes with
      the last one. */
  lemma NotifyDelivers(steps: seq<Step>, p: Probe, pickKill: bool)
    requires var t := Run(START, steps).table; p.id in t.sm && t.sm[p.id] in t.groups && !t.groups[t.sm[p.id]].killed
    ensures var t := Run(START, steps).table;
      var r := t.sm[p.id];
      var (t', o) := Notify(t, p, pickKill);
      && o.Sent? && p.id !in t'.sm && t'.groups[r].sent == t.groups[r].sent + [p]
      && (t'.groups[r].closed <==> Mapped(t, r) == {p.id})
  {
    var t := Run(START, steps).table;
    var r := t.sm[p.id];
    RunInv(steps);
    RunGroup(steps, r);
    assert p.id in Mapped(t, r);
    NotifyIsSafe(t, p, pickKill);
    assert t.groups[r].count == 1 <==> Mapped(t, r) == {p.id} by {
      if |Mapped(t, r)| == 1 {
        SubsetSizes({p.id}, Mapped(t, r));
      }
    }
  }
}
