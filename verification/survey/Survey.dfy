/** A survey walks a permutation of packed (source, destination) indexes and sends the valid ones in batches. */
module Survey {
  import opened Common

  /** Source index and destination index. */
  datatype Pair = Pair(s: nat, d: nat)

  // ---------- bits ----------

  /** floor(log2(n)) + 1 */
  function BitLength(n: nat): (b: nat)
    requires n >= 1
    ensures b >= 1
  {
    if n == 1 then 1 else 1 + BitLength(n / 2)
  }

  lemma Half(n: nat, p: nat)
    requires p <= n / 2 < 2 * p
    ensures 2 * p <= n < 4 * p
  {
  }

  lemma {:induction false} BitLengthIs(n: nat)
    requires n >= 1
    ensures Pow2(BitLength(n) - 1) <= n < Pow2(BitLength(n))
    decreases n
  {
    if n > 1 {
      BitLengthIs(n / 2);
      Half(n, Pow2(BitLength(n / 2) - 1));
    }
  }

  lemma {:induction false} Pow2Sum(a: nat, b: nat)
    ensures Pow2(a + b) == Pow2(a) * Pow2(b)
  {
    if b > 0 {
      Pow2Sum(a, b - 1);
      MulTwo(Pow2(a), Pow2(b - 1));
    }
  }

  lemma MulTwo(x: nat, y: nat)
    ensures 2 * (x * y) == x * (2 * y)
  {
  }

  // ---------- packing ----------

  /** The low m-range of x is the source, the next n-range the destination; m and n are powers of two. */
  function Unpack(x: nat, m: nat, n: nat): Pair
    requires m >= 1 && n >= 1
  {
    Pair(x % m, x / m % n)
  }

  lemma {:induction false} MulStep(a: nat, b: nat, m: nat)
    requires a < b
    ensures b * m >= a * m + m
  {
    assert b * m == (b - 1) * m + m;
    if a < b - 1 {
      MulStep(a, b - 1, m);
    }
  }

  lemma DivModIs(x: nat, m: nat)
    requires m >= 1
    ensures x == (x / m) * m + x % m && x % m < m && x / m >= 0
  {
  }

  lemma SameParts(s: nat, d: nat, s': nat, d': nat, m: nat)
    requires s < m && s' < m && s + d * m == s' + d' * m
    ensures s == s' && d == d'
  {
    if d < d' {
      MulStep(d, d', m);
    } else if d' < d {
      MulStep(d', d, m);
    }
  }

  lemma Below(s: nat, d: nat, m: nat, n: nat)
    requires s < m && d < n
    ensures s + d * m < n * m
  {
    MulStep(d, n, m);
  }

  lemma QuotientBelow(x: nat, m: nat, n: nat)
    requires m >= 1 && x < n * m
    ensures x / m < n
  {
    DivModIs(x, m);
    if x / m > n {
      MulStep(n, x / m, m);
    }
  }

  lemma PackUnpack(s: nat, d: nat, m: nat, n: nat)
    requires s < m && d < n
    ensures Unpack(s + d * m, m, n) == Pair(s, d)
  {
    var x := s + d * m;
    DivModIs(x, m);
    SameParts(s, d, x % m, x / m, m);
    SmallMod(d, n);
  }

  /** The low bits of a packed integer are the source, the bits above them the destination. */
  lemma UnpackIff(x: nat, m: nat, n: nat, s: nat, d: nat)
    requires m >= 1 && n >= 1 && x < n * m && s < m && d < n
    ensures Unpack(x, m, n) == Pair(s, d) <==> x == s + d * m
  {
    PackUnpack(s, d, m, n);
    Below(s, d, m, n);
    if Unpack(x, m, n) == Pair(s, d) {
      UnpackUnique(x, s + d * m, m, n);
    }
  }

  lemma SmallMod(d: nat, n: nat)
    requires d < n
    ensures d % n == d
  {
  }

  lemma UnpackUnique(x: nat, y: nat, m: nat, n: nat)
    requires m >= 1 && n >= 1 && x < n * m && y < n * m && Unpack(x, m, n) == Unpack(y, m, n)
    ensures x == y
  {
    QuotientBelow(x, m, n);
    QuotientBelow(y, m, n);
    SmallMod(x / m, n);
    SmallMod(y / m, n);
    DivModIs(x, m);
    DivModIs(y, m);
  }

  // ---------- the pairs in permutation order ----------

  /** Every integer below n exactly once. */
  ghost predicate Permutes(perm: seq<nat>, n: nat) {
    NoDup(perm) && forall x: nat :: x in perm <==> x < n
  }

  predicate Valid(p: Pair, sources: nat, destinations: nat) {
    p.s < sources && p.d < destinations
  }

  /** The valid pairs the permutation runs through, in order. */
  function Pairs(perm: seq<nat>, m: nat, n: nat, sources: nat, destinations: nat): seq<Pair>
    requires m >= 1 && n >= 1
  {
    if perm == [] then []
    else
      var before := Pairs(perm[..|perm| - 1], m, n, sources, destinations);
      var p := Unpack(perm[|perm| - 1], m, n);
      if Valid(p, sources, destinations) then before + [p] else before
  }

  lemma {:induction false} PairsIn(perm: seq<nat>, m: nat, n: nat, sources: nat, destinations: nat, p: Pair)
    requires m >= 1 && n >= 1
    ensures p in Pairs(perm, m, n, sources, destinations) <==>
      Valid(p, sources, destinations) && exists x :: x in perm && Unpack(x, m, n) == p
  {
    if perm != [] {
      var front, last := perm[..|perm| - 1], perm[|perm| - 1];
      PairsIn(front, m, n, sources, destinations, p);
      assert forall x :: x in perm <==> x in front || x == last;
    }
  }

  lemma {:induction false} PairsOnce(perm: seq<nat>, m: nat, n: nat, sources: nat, destinations: nat)
    requires m >= 1 && n >= 1 && NoDup(perm) && forall k :: 0 <= k < |perm| ==> perm[k] < n * m
    ensures NoDup(Pairs(perm, m, n, sources, destinations))
  {
    if perm != [] {
      var front, last := perm[..|perm| - 1], perm[|perm| - 1];
      PairsOnce(front, m, n, sources, destinations);
      var before, p := Pairs(front, m, n, sources, destinations), Unpack(last, m, n);
      PairsIn(front, m, n, sources, destinations, p);
      if p in before {
        var x :| x in front && Unpack(x, m, n) == p;
        UnpackUnique(x, last, m, n);
      }
      NoDupAppend(before, p);
    }
  }

  lemma {:induction false} PairsPrefix(perm: seq<nat>, m: nat, n: nat, sources: nat, destinations: nat, i: nat)
    requires m >= 1 && n >= 1 && i <= |perm|
    ensures Pairs(perm[..i], m, n, sources, destinations) <= Pairs(perm, m, n, sources, destinations)
    decreases perm
  {
    if i == |perm| {
      assert perm[..i] == perm;
    } else {
      PairsPrefix(perm[..|perm| - 1], m, n, sources, destinations, i);
      assert perm[..|perm| - 1][..i] == perm[..i];
    }
  }

  // ---------- every valid pair, once ----------

  function TotalBits(sources: nat, destinations: nat): nat
    requires sources >= 1 && destinations >= 1
  {
    BitLength(sources) + BitLength(destinations)
  }

  /** The permutation library cannot run through 2^32 integers: at 32 bits the last one is left out. */
  function PermLength(bits: nat): nat {
    if bits == 32 then Pow2(bits) - 1 else Pow2(bits)
  }

  /** The pairs a survey of that many sources and destinations walks through. */
  function Walked(perm: seq<nat>, sources: nat, destinations: nat): seq<Pair>
    requires sources >= 1 && destinations >= 1
  {
    Pairs(perm, Range(sources), Range(destinations), sources, destinations)
  }

  /** The number of values of the bits for an index below n. */
  function Range(n: nat): (r: nat)
    requires n >= 1
    ensures r >= 1
  {
    Pow2(BitLength(n))
  }

  lemma RangeIs(sources: nat, destinations: nat)
    requires sources >= 1 && destinations >= 1
    ensures Pow2(TotalBits(sources, destinations)) == Range(destinations) * Range(sources)
    ensures sources < Range(sources) && destinations < Range(destinations)
  {
    BitLengthIs(sources);
    BitLengthIs(destinations);
    Pow2Sum(BitLength(destinations), BitLength(sources));
  }

  lemma PermLengthIs(bits: nat)
    ensures Pow2(bits) - 1 <= PermLength(bits) <= Pow2(bits)
  {
  }

  /** Every valid pair is encoded by an integer of the permutation. */
  lemma Packed(p: Pair, sources: nat, destinations: nat) returns (x: nat)
    requires sources >= 1 && destinations >= 1 && Valid(p, sources, destinations)
    ensures x < PermLength(TotalBits(sources, destinations)) && Unpack(x, Range(sources), Range(destinations)) == p
  {
    RangeIs(sources, destinations);
    PermLengthIs(TotalBits(sources, destinations));
    x := Pack(p, Range(sources), Range(destinations));
  }

  lemma Pack(p: Pair, m: nat, n: nat) returns (x: nat)
    requires p.s + 1 < m && p.d < n
    ensures x + 1 < n * m && Unpack(x, m, n) == p
  {
    Below(p.s + 1, p.d, m, n);
    PackUnpack(p.s, p.d, m, n);
    x := p.s + p.d * m;
  }

  /** The integer that may be left out, the last one, encodes no valid pair. */
  lemma LeftOutIsInvalid(sources: nat, destinations: nat)
    requires sources >= 1 && destinations >= 1
    ensures !Valid(Unpack(Pow2(TotalBits(sources, destinations)) - 1, Range(sources), Range(destinations)), sources, destinations)
  {
    RangeIs(sources, destinations);
    LastUnpacks(Range(sources), Range(destinations));
  }

  lemma LastUnpacks(m: nat, n: nat)
    requires m >= 1 && n >= 1
    ensures n * m >= 1 && Unpack(n * m - 1, m, n) == Pair(m - 1, n - 1)
  {
    PackUnpack(m - 1, n - 1, m, n);
    OneBelow(m, n);
  }

  lemma OneBelow(m: nat, n: nat)
    requires m >= 1 && n >= 1
    ensures n * m - 1 == (m - 1) + (n - 1) * m
  {
  }

  lemma AllBelow(perm: seq<nat>, sources: nat, destinations: nat)
    requires sources >= 1 && destinations >= 1 && Permutes(perm, PermLength(TotalBits(sources, destinations)))
    ensures forall k :: 0 <= k < |perm| ==> perm[k] < Range(destinations) * Range(sources)
  {
    RangeIs(sources, destinations);
    PermLengthIs(TotalBits(sources, destinations));
    assert forall k :: 0 <= k < |perm| ==> perm[k] in perm;
  }

  lemma ValidIsWalked(perm: seq<nat>, sources: nat, destinations: nat, p: Pair)
    requires sources >= 1 && destinations >= 1 && Permutes(perm, PermLength(TotalBits(sources, destinations)))
    ensures p in Walked(perm, sources, destinations) <==> Valid(p, sources, destinations)
  {
    PairsIn(perm, Range(sources), Range(destinations), sources, destinations, p);
    if Valid(p, sources, destinations) {
      var x := Packed(p, sources, destinations);
      assert x in perm;
    }
  }

  lemma WalkedOnce(perm: seq<nat>, sources: nat, destinations: nat)
    requires sources >= 1 && destinations >= 1 && Permutes(perm, PermLength(TotalBits(sources, destinations)))
    ensures NoDup(Walked(perm, sources, destinations))
  {
    AllBelow(perm, sources, destinations);
    PairsOnce(perm, Range(sources), Range(destinations), sources, destinations);
  }

  /** The walk meets exactly the valid pairs, each once. */
  lemma WalkedIsComplete(perm: seq<nat>, sources: nat, destinations: nat)
    requires sources >= 1 && destinations >= 1 && Permutes(perm, PermLength(TotalBits(sources, destinations)))
    ensures NoDup(Walked(perm, sources, destinations))
    ensures forall p :: p in Walked(perm, sources, destinations) <==> Valid(p, sources, destinations)
  {
    WalkedOnce(perm, sources, destinations);
    forall p ensures p in Walked(perm, sources, destinations) <==> Valid(p, sources, destinations) {
      ValidIsWalked(perm, sources, destinations, p);
    }
  }

  /** A plain listing of all pairs, to count them. */
  function Row(sources: nat, d: nat): (row: seq<Pair>)
    ensures |row| == sources && forall s :: 0 <= s < sources ==> row[s] == Pair(s, d)
  {
    seq(sources, s requires 0 <= s < sources => Pair(s, d))
  }

  function Grid(sources: nat, destinations: nat): seq<Pair> {
    if destinations == 0 then [] else Grid(sources, destinations - 1) + Row(sources, destinations - 1)
  }

  lemma RowIs(sources: nat, d: nat, p: Pair)
    ensures p in Row(sources, d) <==> p.s < sources && p.d == d
  {
    if p.s < sources && p.d == d {
      assert Row(sources, d)[p.s] == p;
    }
  }

  lemma {:induction false} GridIs(sources: nat, destinations: nat)
    ensures |Grid(sources, destinations)| == sources * destinations && NoDup(Grid(sources, destinations))
    ensures forall p :: p in Grid(sources, destinations) <==> Valid(p, sources, destinations)
  {
    if destinations > 0 {
      GridIs(sources, destinations - 1);
      forall p ensures p in Row(sources, destinations - 1) <==> p.s < sources && p.d == destinations - 1 {
        RowIs(sources, destinations - 1, p);
      }
      NoDupConcat(Grid(sources, destinations - 1), Row(sources, destinations - 1));
      OneMore(sources, destinations);
    }
  }

  lemma OneMore(sources: nat, destinations: nat)
    requires destinations > 0
    ensures sources * destinations == sources * (destinations - 1) + sources
  {
  }

  lemma NoDupConcat(a: seq<Pair>, b: seq<Pair>)
    requires NoDup(a) && NoDup(b) && forall x :: x in a ==> x !in b
    ensures NoDup(a + b)
    ensures forall x :: x in a + b <==> x in a || x in b
  {
    forall i, j | 0 <= i < j < |a + b| ensures (a + b)[i] != (a + b)[j] {
      if i < |a| <= j {
        assert a[i] in a && b[j - |a|] in b;
      }
    }
  }

  lemma WalkedCount(perm: seq<nat>, sources: nat, destinations: nat)
    requires sources >= 1 && destinations >= 1 && Permutes(perm, PermLength(TotalBits(sources, destinations)))
    ensures |Walked(perm, sources, destinations)| == sources * destinations
  {
    WalkedIsComplete(perm, sources, destinations);
    GridIs(sources, destinations);
    NoDupSize(Walked(perm, sources, destinations));
    NoDupSize(Grid(sources, destinations));
    assert Elems(Walked(perm, sources, destinations)) == Elems(Grid(sources, destinations));
  }

  // ---------- sending ----------

  function Flat(batches: seq<seq<Pair>>): seq<Pair> {
    if batches == [] then [] else Flat(batches[..|batches| - 1]) + batches[|batches| - 1]
  }

  lemma FlatOne(batches: seq<seq<Pair>>, b: seq<Pair>)
    ensures Flat(batches + [b]) == Flat(batches) + b
  {
    assert (batches + [b])[..|batches|] == batches;
  }

  /** At least one pair is sent before the limit is looked at. */
  function Limit(limit: int): nat {
    if limit < 1 then 1 else limit
  }

  function Sent(walked: seq<Pair>, limit: int): seq<Pair> {
    if |walked| <= Limit(limit) then walked else walked[..Limit(limit)]
  }

  /** Full batches, and a last one that is not full. */
  predicate Batched(batches: seq<seq<Pair>>, last: seq<Pair>, batchLen: int) {
    && (forall k :: 0 <= k < |batches| ==> |batches[k]| == batchLen)
    && (batchLen >= 1 ==> |last| < batchLen) && (batchLen < 1 ==> batches == [])
  }

  /** One valid pair: it joins the batch, which is sent when it is full. */
  method Add(sent: seq<seq<Pair>>, batch: seq<Pair>, p: Pair, batchLen: int)
    returns (sent': seq<seq<Pair>>, batch': seq<Pair>)
    requires Batched(sent, batch, batchLen)
    ensures Batched(sent', batch', batchLen) && Flat(sent') + batch' == Flat(sent) + batch + [p]
  {
    sent', batch' := sent, batch + [p];
    if |batch'| == batchLen {
      FlatOne(sent, batch');
      sent', batch' := sent + [batch'], [];
    }
  }

  lemma PairsOne(perm: seq<nat>, i: nat, m: nat, n: nat, sources: nat, destinations: nat)
    requires m >= 1 && n >= 1 && i < |perm|
    ensures var p := Unpack(perm[i], m, n);
      Pairs(perm[..i + 1], m, n, sources, destinations) == if Valid(p, sources, destinations)
        then Pairs(perm[..i], m, n, sources, destinations) + [p] else Pairs(perm[..i], m, n, sources, destinations)
  {
    assert perm[..i + 1][..i] == perm[..i];
  }

  lemma SentIs(perm: seq<nat>, i: nat, m: nat, n: nat, sources: nat, destinations: nat, limit: int)
    requires m >= 1 && n >= 1 && i <= |perm|
    requires var k := |Pairs(perm[..i], m, n, sources, destinations)|;
      k == Limit(limit) || (i == |perm| && k <= Limit(limit))
    ensures Pairs(perm[..i], m, n, sources, destinations) == Sent(Pairs(perm, m, n, sources, destinations), limit)
  {
    PairsPrefix(perm, m, n, sources, destinations, i);
    assert perm[..|perm|] == perm;
  }

  /** The loop over the permutation, up to the limit. */
  method Walk(perm: seq<nat>, m: nat, n: nat, sources: nat, destinations: nat, batchLen: int, limit: int)
    returns (sent: seq<seq<Pair>>, batch: seq<Pair>)
    requires m >= 1 && n >= 1
    ensures Batched(sent, batch, batchLen)
    ensures Flat(sent) + batch == Sent(Pairs(perm, m, n, sources, destinations), limit)
  {
    sent, batch := [], [];
    var totalSent, i := 0, 0;
    while i < |perm|
      invariant 0 <= i <= |perm| && Batched(sent, batch, batchLen)
      invariant Flat(sent) + batch == Pairs(perm[..i], m, n, sources, destinations)
      invariant totalSent == |Pairs(perm[..i], m, n, sources, destinations)| < Limit(limit)
    {
      var p := Unpack(perm[i], m, n);
      PairsOne(perm, i, m, n, sources, destinations);
      i := i + 1;
      if p.s >= sources || p.d >= destinations {
        continue;
      }
      sent, batch := Add(sent, batch, p, batchLen);
      totalSent := totalSent + 1;
      if totalSent >= limit {
        break;
      }
    }
    SentIs(perm, i, m, n, sources, destinations, limit);
  }

  /** RandomizeSourceDestinationAndSend in sequential mode, for lists whose indexes fit in 32 bits together. `perm` is
      what the permutation library runs through; batches are listed in the order they are sent. */
  method RandomizeAndSend(sources: nat, destinations: nat, batchLen: int, limit: int, perm: seq<nat>)
    returns (batches: seq<seq<Pair>>)
    requires sources >= 1 && destinations >= 1 ==>
      TotalBits(sources, destinations) <= 32 && Permutes(perm, PermLength(TotalBits(sources, destinations)))
    ensures destinations == 0 ==> batches == []
    ensures destinations >= 1 && sources == 0 ==> batches == [[]]
    ensures destinations >= 1 && sources >= 1 ==> batches != [] && Flat(batches) == Sent(Walked(perm, sources, destinations), limit)
    ensures destinations >= 1 && sources >= 1 ==> Batched(batches[..|batches| - 1], batches[|batches| - 1], batchLen)
    ensures destinations >= 1 && sources >= 1 ==> var all := sources * destinations;
      |Flat(batches)| == if limit <= 1 then 1 else if limit <= all then limit else all
    ensures destinations >= 1 && sources >= 1 ==>
      NoDup(Flat(batches)) && forall p :: p in Flat(batches) ==> p.s < sources && p.d < destinations
  {
    if destinations == 0 {
      return [];
    }
    if sources == 0 {
      return [[]];
    }
    var m, n := Range(sources), Range(destinations);
    var sent, batch := Walk(perm, m, n, sources, destinations, batchLen, limit);
    FlatOne(sent, batch);
    batches := sent + [batch];
    assert batches[..|batches| - 1] == sent;
    EverythingOnceIff(perm, sources, destinations, limit);
    WalkedCount(perm, sources, destinations);
    AtLeastOne(sources, destinations);
  }

  lemma AtLeastOne(sources: nat, destinations: nat)
    requires sources >= 1 && destinations >= 1
    ensures sources * destinations >= 1
  {
  }

  /** Every pair is sent exactly once over all batches, exactly when the limit allows for all of them. */
  lemma EverythingOnceIff(perm: seq<nat>, sources: nat, destinations: nat, limit: int)
    requires sources >= 1 && destinations >= 1 && Permutes(perm, PermLength(TotalBits(sources, destinations)))
    ensures var sent := Sent(Walked(perm, sources, destinations), limit);
      && NoDup(sent) && (forall p :: p in sent ==> Valid(p, sources, destinations))
      && ((forall p :: Valid(p, sources, destinations) ==> p in sent) <==> Limit(limit) >= sources * destinations)
  {
    var walked := Walked(perm, sources, destinations);
    WalkedIsComplete(perm, sources, destinations);
    WalkedCount(perm, sources, destinations);
    if Limit(limit) < |walked| {
      assert walked[Limit(limit)] in walked && walked[Limit(limit)] !in walked[..Limit(limit)];
    }
  }
}
