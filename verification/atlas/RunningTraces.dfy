/** The registry of traceroutes in flight: sources are handed out for an address at most once until they are removed. */
module AtlasRunningTraces {
  import Seqs
  import opened Common

  predicate Sorted(s: seq<uint32>) {
    forall i, j :: 0 <= i < j < |s| ==> s[i] <= s[j]
  }

  predicate AllAtMost(s: seq<uint32>, x: uint32) {
    forall k :: 0 <= k < |s| ==> s[k] <= x
  }

  lemma AppendSorted(s: seq<uint32>, x: uint32)
    requires Sorted(s) && AllAtMost(s, x)
    ensures Sorted(s + [x]) && AllAtMost(s + [x], x)
  {
  }

  /** sort.Sort: insertion from the back stands for the library's algorithm. */
  function Insert(s: seq<uint32>, x: uint32): seq<uint32> {
    if s == [] || s[|s| - 1] <= x then s + [x] else Insert(s[..|s| - 1], x) + [s[|s| - 1]]
  }

  function Sort(s: seq<uint32>): seq<uint32> {
    if s == [] then [] else Insert(Sort(s[..|s| - 1]), s[|s| - 1])
  }

  lemma {:induction false} InsertSame(s: seq<uint32>, x: uint32)
    ensures multiset(Insert(s, x)) == multiset(s) + multiset{x}
  {
    if s != [] && s[|s| - 1] > x {
      InsertSame(s[..|s| - 1], x);
      assert s == s[..|s| - 1] + [s[|s| - 1]];
    }
  }

  lemma {:induction false} InsertSorted(s: seq<uint32>, x: uint32)
    requires Sorted(s)
    ensures Sorted(Insert(s, x))
    ensures forall y: uint32 :: AllAtMost(s, y) && x <= y ==> AllAtMost(Insert(s, x), y)
  {
    if s != [] && s[|s| - 1] > x {
      var last := s[|s| - 1];
      InsertSorted(s[..|s| - 1], x);
      assert AllAtMost(s[..|s| - 1], last);
      AppendSorted(Insert(s[..|s| - 1], x), last);
    }
  }

  lemma {:induction false} SortIs(s: seq<uint32>)
    ensures Sorted(Sort(s)) && multiset(Sort(s)) == multiset(s)
  {
    if s != [] {
      SortIs(s[..|s| - 1]);
      InsertSorted(Sort(s[..|s| - 1]), s[|s| - 1]);
      InsertSame(Sort(s[..|s| - 1]), s[|s| - 1]);
      assert s == s[..|s| - 1] + [s[|s| - 1]];
    }
  }

  // ---------- the merge loop ----------

  /** What is still to come, `ro` of the old list and `rd` of the new one, accounts for what is missing. */
  predicate Conserves(o: seq<uint32>, d: seq<uint32>, ro: seq<uint32>, rd: seq<uint32>,
                      merged: seq<uint32>, added: seq<uint32>) {
    && multiset(added) + (multiset(rd) - multiset(ro)) == multiset(d) - multiset(o)
    && multiset(merged) + multiset(ro) == multiset(o) + multiset(added)
  }

  /** An old element below everything new. */
  lemma StepOld(o: seq<uint32>, d: seq<uint32>, ro: seq<uint32>, rd: seq<uint32>, merged: seq<uint32>, added: seq<uint32>)
    requires Conserves(o, d, ro, rd, merged, added) && Sorted(rd) && ro != [] && (rd == [] || ro[0] < rd[0])
    ensures Conserves(o, d, ro[1..], rd, merged + [ro[0]], added)
  {
    assert ro == [ro[0]] + ro[1..];
    assert ro[0] !in rd;
    assert multiset(rd) - multiset(ro) == multiset(rd) - multiset(ro[1..]);
  }

  lemma PlusBoth(m: multiset<uint32>, r: multiset<uint32>, o: multiset<uint32>, a: multiset<uint32>, x: uint32)
    requires m + r == o + a
    ensures (m + multiset{x}) + r == o + (a + multiset{x})
  {
    forall y ensures ((m + multiset{x}) + r)[y] == (o + (a + multiset{x}))[y] {
      assert m[y] + r[y] == (m + r)[y] == (o + a)[y] == o[y] + a[y];
    }
  }

  /** A new element below everything old. */
  lemma StepNew(o: seq<uint32>, d: seq<uint32>, ro: seq<uint32>, rd: seq<uint32>, merged: seq<uint32>, added: seq<uint32>)
    requires Conserves(o, d, ro, rd, merged, added) && Sorted(ro) && rd != [] && (ro == [] || rd[0] < ro[0])
    ensures Conserves(o, d, ro, rd[1..], merged + [rd[0]], added + [rd[0]])
  {
    assert rd == [rd[0]] + rd[1..];
    assert rd[0] !in ro;
    assert multiset(rd) - multiset(ro) == multiset{rd[0]} + (multiset(rd[1..]) - multiset(ro));
    assert multiset(merged + [rd[0]]) == multiset(merged) + multiset{rd[0]};
    assert multiset(added + [rd[0]]) == multiset(added) + multiset{rd[0]};
    PlusBoth(multiset(merged), multiset(ro), multiset(o), multiset(added), rd[0]);
  }

  /** One of each, equal. */
  lemma StepBoth(o: seq<uint32>, d: seq<uint32>, ro: seq<uint32>, rd: seq<uint32>, merged: seq<uint32>, added: seq<uint32>)
    requires Conserves(o, d, ro, rd, merged, added) && ro != [] && rd != [] && ro[0] == rd[0]
    ensures Conserves(o, d, ro[1..], rd[1..], merged + [ro[0]], added)
  {
    assert ro == [ro[0]] + ro[1..] && rd == [rd[0]] + rd[1..];
    assert multiset(rd) - multiset(ro) == multiset(rd[1..]) - multiset(ro[1..]);
  }

  /** Everything collected is at most everything to come. */
  predicate Bounds(o: seq<uint32>, i: nat, d: seq<uint32>, j: nat, s: seq<uint32>) {
    Sorted(s) && (i < |o| ==> AllAtMost(s, o[i])) && (j < |d| ==> AllAtMost(s, d[j]))
  }

  lemma BoundsOne(o: seq<uint32>, i: nat, i': nat, d: seq<uint32>, j: nat, j': nat, s: seq<uint32>, x: uint32)
    requires Sorted(o) && Sorted(d) && Bounds(o, i, d, j, s) && i <= i' && j <= j' && AllAtMost(s, x)
    requires (i < |o| ==> x <= o[i]) && (j < |d| ==> x <= d[j])
    ensures Bounds(o, i', d, j', s) && Bounds(o, i', d, j', s + [x])
  {
    AppendSorted(s, x);
  }

  /** The first loop of TryAdd on two sorted lists. */
  method MergeWhileBoth(o: seq<uint32>, d: seq<uint32>)
    returns (merged: seq<uint32>, added: seq<uint32>, i: nat, j: nat)
    requires Sorted(o) && Sorted(d)
    ensures i <= |o| && j <= |d| && (i == |o| || j == |d|)
    ensures Conserves(o, d, o[i..], d[j..], merged, added)
    ensures Bounds(o, i, d, j, merged) && Bounds(o, i, d, j, added)
  {
    merged, added, i, j := [], [], 0, 0;
    assert o[i..] == o && d[j..] == d;
    while i < |o| && j < |d|
      invariant i <= |o| && j <= |d|
      invariant Conserves(o, d, o[i..], d[j..], merged, added)
      invariant Bounds(o, i, d, j, merged) && Bounds(o, i, d, j, added)
      decreases |o| - i + |d| - j
    {
      merged, added, i, j := MergeOne(o, d, merged, added, i, j);
    }
  }

  /** The switch in the loop. */
  method MergeOne(o: seq<uint32>, d: seq<uint32>, m: seq<uint32>, a: seq<uint32>, i: nat, j: nat)
    returns (merged: seq<uint32>, added: seq<uint32>, i': nat, j': nat)
    requires Sorted(o) && Sorted(d) && i < |o| && j < |d|
    requires Conserves(o, d, o[i..], d[j..], m, a)
    requires Bounds(o, i, d, j, m) && Bounds(o, i, d, j, a)
    ensures i <= i' <= |o| && j <= j' <= |d| && i + j < i' + j'
    ensures Conserves(o, d, o[i'..], d[j'..], merged, added)
    ensures Bounds(o, i', d, j', merged) && Bounds(o, i', d, j', added)
  {
    merged, added, i', j' := m, a, i, j;
    if o[i] < d[j] {
      StepOld(o, d, o[i..], d[j..], m, a);
      BoundsOne(o, i, i + 1, d, j, j, m, o[i]);
      BoundsOne(o, i, i + 1, d, j, j, a, o[i]);
      merged, i' := merged + [o[i]], i + 1;
    } else if o[i] > d[j] {
      StepNew(o, d, o[i..], d[j..], m, a);
      BoundsOne(o, i, i, d, j, j + 1, m, d[j]);
      BoundsOne(o, i, i, d, j, j + 1, a, d[j]);
      merged, added, j' := merged + [d[j]], added + [d[j]], j + 1;
    } else {
      StepBoth(o, d, o[i..], d[j..], m, a);
      BoundsOne(o, i, i + 1, d, j, j + 1, m, o[i]);
      BoundsOne(o, i, i + 1, d, j, j + 1, a, o[i]);
      merged, i', j' := merged + [o[i]], i + 1, j + 1;
    }
  }

  lemma OneOld(o: seq<uint32>, d: seq<uint32>, merged: seq<uint32>, added: seq<uint32>, i: nat)
    requires Sorted(o) && Sorted(d) && i < |o| && Conserves(o, d, o[i..], [], merged, added) && Bounds(o, i, d, |d|, merged)
    ensures Conserves(o, d, o[i + 1..], [], merged + [o[i]], added) && Bounds(o, i + 1, d, |d|, merged + [o[i]])
  {
    assert o[i..][0] == o[i] && o[i..][1..] == o[i + 1..];
    StepOld(o, d, o[i..], [], merged, added);
    BoundsOne(o, i, i + 1, d, |d|, |d|, merged, o[i]);
  }

  method TakeOld(o: seq<uint32>, d: seq<uint32>, m: seq<uint32>, added: seq<uint32>, i0: nat)
    returns (merged: seq<uint32>)
    requires Sorted(o) && Sorted(d) && i0 <= |o| && Conserves(o, d, o[i0..], [], m, added) && Bounds(o, i0, d, |d|, m)
    ensures Conserves(o, d, [], [], merged, added) && Sorted(merged)
  {
    merged := m;
    var i := i0;
    while i < |o|
      invariant i <= |o| && Conserves(o, d, o[i..], [], merged, added) && Bounds(o, i, d, |d|, merged)
    {
      OneOld(o, d, merged, added, i);
      merged, i := merged + [o[i]], i + 1;
    }
    assert o[i..] == [];
  }

  lemma OneNew(o: seq<uint32>, d: seq<uint32>, merged: seq<uint32>, added: seq<uint32>, j: nat)
    requires Sorted(o) && Sorted(d) && j < |d| && Conserves(o, d, [], d[j..], merged, added)
    requires Bounds(o, |o|, d, j, merged) && Bounds(o, |o|, d, j, added)
    ensures Conserves(o, d, [], d[j + 1..], merged + [d[j]], added + [d[j]])
    ensures Bounds(o, |o|, d, j + 1, merged + [d[j]]) && Bounds(o, |o|, d, j + 1, added + [d[j]])
  {
    assert d[j..][0] == d[j] && d[j..][1..] == d[j + 1..];
    StepNew(o, d, [], d[j..], merged, added);
    BoundsOne(o, |o|, |o|, d, j, j + 1, merged, d[j]);
    BoundsOne(o, |o|, |o|, d, j, j + 1, added, d[j]);
  }

  method TakeNew(o: seq<uint32>, d: seq<uint32>, m: seq<uint32>, a: seq<uint32>, j0: nat)
    returns (merged: seq<uint32>, added: seq<uint32>)
    requires Sorted(o) && Sorted(d) && j0 <= |d| && Conserves(o, d, [], d[j0..], m, a)
    requires Bounds(o, |o|, d, j0, m) && Bounds(o, |o|, d, j0, a)
    ensures Conserves(o, d, [], [], merged, added) && Sorted(merged) && Sorted(added)
  {
    merged, added := m, a;
    var j := j0;
    while j < |d|
      invariant j <= |d| && Conserves(o, d, [], d[j..], merged, added)
      invariant Bounds(o, |o|, d, j, merged) && Bounds(o, |o|, d, j, added)
    {
      OneNew(o, d, merged, added, j);
      merged, added, j := merged + [d[j]], added + [d[j]], j + 1;
    }
    assert d[j..] == [];
  }

  /** The three loops of TryAdd, repeated elements included: what is added is what the old list lacks, and the merged
      list is the old one with that. */
  method Merge(o: seq<uint32>, d: seq<uint32>) returns (merged: seq<uint32>, added: seq<uint32>)
    requires Sorted(o) && Sorted(d)
    ensures multiset(added) == multiset(d) - multiset(o)
    ensures multiset(merged) == multiset(o) + multiset(added)
    ensures Sorted(merged) && Sorted(added)
  {
    var i, j;
    merged, added, i, j := MergeWhileBoth(o, d);
    if j == |d| {
      merged := TakeOld(o, d, merged, added, i);
    } else {
      merged, added := TakeNew(o, d, merged, added, j);
    }
  }

  // ---------- the registry ----------

  type Registry = map<uint32, seq<uint32>>

  function At(m: Registry, ip: uint32): seq<uint32> {
    if ip in m then m[ip] else []
  }

  /** What TryAdd does: it returns the sources of `dsts` that are not yet running, with multiplicity. */
  ghost predicate Adds(m: Registry, ip: uint32, dsts: seq<uint32>, added: seq<uint32>, m': Registry) {
    && multiset(added) == multiset(dsts) - multiset(At(m, ip))
    && multiset(At(m', ip)) == multiset(At(m, ip)) + multiset(added)
    && m' == m[ip := At(m', ip)]
    && (ip in m ==> Sorted(At(m', ip)) && Sorted(added))
  }

  /** What Remove does; the order in which the rest is stored is not determined. */
  ghost predicate Removes(m: Registry, ip: uint32, done: seq<uint32>, m': Registry) {
    if ip !in m then m' == m
    else
      var rest := Elems(At(m, ip)) - Elems(done);
      if rest == {} then m' == m - {ip}
      else m' == m[ip := At(m', ip)] && NoDup(At(m', ip)) && Elems(At(m', ip)) == rest
  }

  class RunningTraces {
    var dstToSrcs: Registry

    constructor ()
      ensures dstToSrcs == map[]
    {
      dstToSrcs := map[];
    }

    method TryAdd(ip: uint32, dsts: seq<uint32>) returns (added: seq<uint32>)
      modifies this
      ensures Adds(old(dstToSrcs), ip, dsts, added, dstToSrcs)
    {
      if ip in dstToSrcs {
        var o := dstToSrcs[ip];
        SortIs(o);
        SortIs(dsts);
        var merged;
        merged, added := Merge(Sort(o), Sort(dsts));
        dstToSrcs := dstToSrcs[ip := merged];
      } else {
        dstToSrcs := dstToSrcs[ip := dsts];
        added := dsts;
      }
    }

    method Remove(ip: uint32, done: seq<uint32>)
      modifies this
      ensures Removes(old(dstToSrcs), ip, done, dstToSrcs)
    {
      if ip in dstToSrcs {
        var rest := Rest(dstToSrcs[ip], done);
        if |rest| > 0 {
          dstToSrcs := dstToSrcs[ip := rest];
        } else {
          dstToSrcs := dstToSrcs - {ip};
        }
      }
    }
  }

  /** The body of Remove: marks, unmarks, and lists what is still marked. */
  method Rest(running: seq<uint32>, done: seq<uint32>) returns (rest: seq<uint32>)
    ensures NoDup(rest) && Elems(rest) == Elems(running) - Elems(done)
    ensures rest == [] <==> Elems(running) - Elems(done) == {}
  {
    var checked: map<uint32, bool> := map[];
    for i := 0 to |running|
      invariant forall x :: x in checked <==> x in running[..i]
      invariant forall x :: x in checked ==> checked[x]
    {
      checked := checked[running[i] := true];
    }
    assert running[..|running|] == running;
    for i := 0 to |done|
      invariant forall x :: x in checked <==> x in running || x in done[..i]
      invariant forall x :: x in checked ==> (checked[x] <==> x !in done[..i])
    {
      checked := checked[done[i] := false];
    }
    assert done[..|done|] == done;
    rest := Marked(checked);
    if rest != [] {
      assert rest[0] in Elems(rest);
    }
  }

  method Marked(checked: map<uint32, bool>) returns (rest: seq<uint32>)
    ensures NoDup(rest) && Elems(rest) == set x | x in checked && checked[x]
  {
    var todo := checked.Keys;
    rest := [];
    while todo != {}
      invariant todo <= checked.Keys && NoDup(rest)
      invariant forall x :: x in rest <==> x in checked && x !in todo && checked[x]
    {
      var x :| x in todo;
      if checked[x] {
        NoDupAppend(rest, x);
        rest := rest + [x];
      }
      todo := todo - {x};
    }
  }

  // ---------- runs ----------

  datatype Step = Added(ip: uint32, dsts: seq<uint32>, added: seq<uint32>) | Removed(ip: uint32, done: seq<uint32>)

  ghost predicate IsRun(ms: seq<Registry>, steps: seq<Step>) {
    && |ms| == |steps| + 1 && ms[0] == map[]
    && forall k :: 0 <= k < |steps| ==> Next(ms[k], steps[k], ms[k + 1])
  }

  ghost predicate Next(m: Registry, step: Step, m': Registry) {
    match step
    case Added(ip, dsts, added) => Adds(m, ip, dsts, added, m')
    case Removed(ip, done) => Removes(m, ip, done, m')
  }

  /** The sources handed out for ip and not yet removed, from the history alone. */
  ghost function InFlight(steps: seq<Step>, ip: uint32): set<uint32> {
    if steps == [] then {}
    else
      var before, step := InFlight(steps[..|steps| - 1], ip), steps[|steps| - 1];
      if step.ip != ip then before
      else if step.Added? then before + Elems(step.added)
      else before - Elems(step.done)
  }

  lemma ElemsOfSum(a: seq<uint32>, b: seq<uint32>, c: seq<uint32>)
    requires multiset(c) == multiset(a) + multiset(b)
    ensures Elems(c) == Elems(a) + Elems(b)
  {
    assert forall x :: x in c <==> x in multiset(c);
    assert forall x :: x in a <==> x in multiset(a);
    assert forall x :: x in b <==> x in multiset(b);
  }

  /** What one step does to the sources stored for an address. */
  lemma StepElems(m: Registry, step: Step, m': Registry, ip: uint32)
    requires Next(m, step, m')
    ensures Elems(At(m', ip)) ==
      if step.ip != ip then Elems(At(m, ip))
      else if step.Added? then Elems(At(m, ip)) + Elems(step.added)
      else Elems(At(m, ip)) - Elems(step.done)
  {
    if step.Added? && step.ip == ip {
      ElemsOfSum(At(m, ip), step.added, At(m', ip));
    }
  }

  /** The stored list is always what was handed out minus what was removed. */
  lemma {:induction false} StoredIsInFlight(ms: seq<Registry>, steps: seq<Step>, k: nat, ip: uint32)
    requires IsRun(ms, steps) && k < |ms|
    ensures Elems(At(ms[k], ip)) == InFlight(steps[..k], ip)
  {
    if k > 0 {
      StoredIsInFlight(ms, steps, k - 1, ip);
      assert Next(ms[k - 1], steps[k - 1], ms[k]);
      StepElems(ms[k - 1], steps[k - 1], ms[k], ip);
      assert steps[..k][..k - 1] == steps[..k - 1];
    }
  }

  ghost predicate DistinctRequests(steps: seq<Step>) {
    forall k :: 0 <= k < |steps| && steps[k].Added? ==> NoDup(steps[k].dsts)
  }

  ghost predicate Once(s: seq<uint32>) {
    forall x :: multiset(s)[x] <= 1
  }

  lemma OnceAppend(t: seq<uint32>, last: uint32)
    ensures Once(t + [last]) <==> Once(t) && last !in t
  {
    assert last in t <==> multiset(t)[last] >= 1;
    assert multiset(t + [last]) == multiset(t) + multiset{last};
    if Once(t + [last]) {
      assert forall x :: multiset(t)[x] <= multiset(t + [last])[x];
      assert multiset(t + [last])[last] == multiset(t)[last] + 1;
    }
  }

  lemma NoDupFront(t: seq<uint32>, last: uint32)
    ensures NoDup(t + [last]) <==> NoDup(t) && last !in t
  {
    var s := t + [last];
    assert s[|t|] == last && forall i :: 0 <= i < |t| ==> s[i] == t[i];
  }

  /** A list has no repeated element exactly when every multiplicity is at most one. */
  lemma {:induction false} NoDupIffOnce(s: seq<uint32>)
    ensures NoDup(s) <==> Once(s)
  {
    if s != [] {
      var t, last := s[..|s| - 1], s[|s| - 1];
      assert s == t + [last];
      NoDupIffOnce(t);
      OnceAppend(t, last);
      NoDupFront(t, last);
    }
  }

  /** One call hands out each source once, and none that is in flight, exactly when the request names each once. */
  lemma HandsOutOnceIff(m: Registry, ip: uint32, dsts: seq<uint32>, added: seq<uint32>, m': Registry)
    requires Adds(m, ip, dsts, added, m') && NoDup(At(m, ip))
    ensures NoDup(dsts) <==> NoDup(added) && Elems(added) !! Elems(At(m, ip))
    ensures NoDup(dsts) ==> NoDup(At(m', ip)) && Elems(added) == Elems(dsts) - Elems(At(m, ip))
  {
    var o := At(m, ip);
    NoDupIffOnce(dsts);
    NoDupIffOnce(added);
    NoDupIffOnce(o);
    NoDupIffOnce(At(m', ip));
    Membership(dsts, o, added);
  }

  lemma PlusMinus(a: multiset<uint32>, b: multiset<uint32>)
    ensures a + b - a == b
  {
  }

  /** A request for what is stored and `a` once more is handed `a`. */
  lemma AddsAgain(m: Registry, ip: uint32, a: seq<uint32>)
    requires Sorted(At(m, ip) + a) && Sorted(a)
    ensures Adds(m, ip, At(m, ip) + a, a, m[ip := At(m, ip) + a])
  {
    PlusMinus(multiset(At(m, ip)), multiset(a));
  }

  lemma FirstInFlight(step: Step)
    requires step.Added?
    ensures InFlight([step], step.ip) == Elems(step.added)
  {
    assert [step][..0] == [];
  }

  lemma TwoSteps(m1: Registry, m2: Registry, first: Step, second: Step)
    requires Next(map[], first, m1) && Next(m1, second, m2)
    ensures IsRun([map[], m1, m2], [first, second])
  {
  }

  /** The sources `a` are handed out, and again to a request that names each of them twice. */
  lemma AddedTwice(ip: uint32, a: seq<uint32>) returns (ms: seq<Registry>, steps: seq<Step>)
    requires Sorted(a) && Sorted(a + a)
    ensures IsRun(ms, steps) && steps == [Added(ip, a, a), Added(ip, a + a, a)]
  {
    var m0: Registry := map[];
    var m1 := m0[ip := a];
    var m2 := m1[ip := a + a];
    var first, second := Added(ip, a, a), Added(ip, a + a, a);
    Seqs.NoneLeft(a);
    AddsAgain(m0, ip, a);
    AddsAgain(m1, ip, a);
    TwoSteps(m1, m2, first, second);
    ms, steps := [m0, m1, m2], [first, second];
  }

  /** A request that repeats a source is handed it although it is in flight. */
  lemma HandedOutTwice() returns (ms: seq<Registry>, steps: seq<Step>)
    ensures |steps| == 2 && IsRun(ms, steps) && steps[1].Added? && steps[1].ip == 1
    ensures 5 in steps[1].added && 5 in InFlight(steps[..1], 1)
  {
    var a := [5];
    ms, steps := AddedTwice(1, a);
    assert steps[..1] == [steps[0]] && a[0] in Elems(a);
    FirstInFlight(steps[0]);
  }

  lemma Membership(d: seq<uint32>, o: seq<uint32>, a: seq<uint32>)
    requires multiset(a) == multiset(d) - multiset(o)
    ensures forall x :: x in Elems(a) <==> multiset(d)[x] > multiset(o)[x]
    ensures forall x :: (x in Elems(d) <==> multiset(d)[x] > 0) && (x in Elems(o) <==> multiset(o)[x] > 0)
    ensures forall x :: multiset(a)[x] == if multiset(d)[x] > multiset(o)[x] then multiset(d)[x] - multiset(o)[x] else 0
  {
    assert forall x :: x in a <==> x in multiset(a);
    assert forall x :: x in d <==> x in multiset(d);
    assert forall x :: x in o <==> x in multiset(o);
  }

  lemma {:induction false} StoredOnce(ms: seq<Registry>, steps: seq<Step>, k: nat, ip: uint32)
    requires IsRun(ms, steps) && DistinctRequests(steps) && k < |ms|
    ensures NoDup(At(ms[k], ip))
  {
    if k > 0 {
      StoredOnce(ms, steps, k - 1, ip);
      var m, step, m' := ms[k - 1], steps[k - 1], ms[k];
      assert Next(m, step, m');
      if step.Added? && step.ip == ip {
        HandsOutOnceIff(m, ip, step.dsts, step.added, m');
      } else {
        OtherKeepsOnce(m, step, m', ip);
      }
    }
  }

  /** Over any run of duplicate-free requests no source is handed out for an address while it is in flight there, and
      every other one that is asked for is handed out. */
  lemma NeverTwice(ms: seq<Registry>, steps: seq<Step>, k: nat)
    requires IsRun(ms, steps) && DistinctRequests(steps) && k < |steps| && steps[k].Added?
    ensures var step := steps[k];
      NoDup(step.added) && Elems(step.added) == Elems(step.dsts) - InFlight(steps[..k], step.ip)
  {
    var step := steps[k];
    StoredOnce(ms, steps, k, step.ip);
    StoredIsInFlight(ms, steps, k, step.ip);
    assert Next(ms[k], step, ms[k + 1]);
    HandsOutOnceIff(ms[k], step.ip, step.dsts, step.added, ms[k + 1]);
  }

  /** The call hands out each source once and none that is in flight. */
  ghost predicate HandsOutOnce(steps: seq<Step>, k: nat)
    requires k < |steps| && steps[k].Added?
  {
    NoDup(steps[k].added) && Elems(steps[k].added) !! InFlight(steps[..k], steps[k].ip)
  }

  ghost predicate AllHandOutOnce(steps: seq<Step>) {
    forall k :: 0 <= k < |steps| && steps[k].Added? ==> HandsOutOnce(steps, k)
  }

  lemma CallIff(ms: seq<Registry>, steps: seq<Step>, k: nat)
    requires IsRun(ms, steps) && k < |steps| && steps[k].Added? && NoDup(At(ms[k], steps[k].ip))
    ensures HandsOutOnce(steps, k) <==> NoDup(steps[k].dsts)
    ensures NoDup(steps[k].dsts) ==> NoDup(At(ms[k + 1], steps[k].ip))
  {
    var step := steps[k];
    StoredIsInFlight(ms, steps, k, step.ip);
    assert Next(ms[k], step, ms[k + 1]);
    HandsOutOnceIff(ms[k], step.ip, step.dsts, step.added, ms[k + 1]);
  }

  lemma OtherKeepsOnce(m: Registry, step: Step, m': Registry, ip: uint32)
    requires Next(m, step, m') && NoDup(At(m, ip)) && !(step.Added? && step.ip == ip)
    ensures NoDup(At(m', ip))
  {
  }

  /** While every call hands out once, every list is stored once. */
  lemma {:induction false} StoredOnceWhile(ms: seq<Registry>, steps: seq<Step>, k: nat, ip: uint32)
    requires IsRun(ms, steps) && AllHandOutOnce(steps) && k < |ms|
    ensures NoDup(At(ms[k], ip))
  {
    if k > 0 {
      StoredOnceWhile(ms, steps, k - 1, ip);
      if steps[k - 1].Added? && steps[k - 1].ip == ip {
        assert HandsOutOnce(steps, k - 1);
        CallIff(ms, steps, k - 1);
      } else {
        assert Next(ms[k - 1], steps[k - 1], ms[k]);
        OtherKeepsOnce(ms[k - 1], steps[k - 1], ms[k], ip);
      }
    }
  }

  /** Over any run: every call hands out each source once and none in flight if and only if every request names each
      of its sources once. */
  lemma RunHandsOutOnceIff(ms: seq<Registry>, steps: seq<Step>)
    requires IsRun(ms, steps)
    ensures AllHandOutOnce(steps) <==> DistinctRequests(steps)
  {
    if AllHandOutOnce(steps) || DistinctRequests(steps) {
      forall k | 0 <= k < |steps| && steps[k].Added? ensures HandsOutOnce(steps, k) <==> NoDup(steps[k].dsts) {
        if AllHandOutOnce(steps) {
          StoredOnceWhile(ms, steps, k, steps[k].ip);
        } else {
          StoredOnce(ms, steps, k, steps[k].ip);
        }
        CallIff(ms, steps, k);
      }
    }
  }
}
