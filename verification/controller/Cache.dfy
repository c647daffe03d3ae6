/** The record-route cache: one reply is filed under every hop it recorded at or after its destination. */
module RRCache {
  import opened Common
  import opened CacheKeys

  /** A reply: `responses` are the recorded addresses of each response, spoofedFrom is 0 when nothing was spoofed. */
  datatype Ping = Ping(src: uint32, dst: uint32, spoofedFrom: uint32, responses: seq<seq<uint32>>)

  /** Only the reply is stored. The dummy marks a target that did not answer. */
  datatype Entry = Dummy | Stored(p: Ping)

  type Entries = map<string, Entry>
  type Sites = map<uint32, string>

  /** An address without a site is its own site. */
  function SiteName(sites: Sites, ip: uint32): string {
    if ip in sites then sites[ip] else Decimal(ip)
  }

  function SiteOf(sites: Sites, p: Ping): string {
    if p.spoofedFrom == 0 then "0" else SiteName(sites, p.spoofedFrom)
  }

  function RRKey(site: string, src: uint32, h: uint32): string {
    Key("XRRP", site, src, h)
  }

  /** A reply that was not spoofed has site "0". Addresses without a site share one only with themselves, and with an
      address whose site is their decimal form. */
  lemma SitesAre(sites: Sites, p: Ping, a: uint32, b: uint32)
    ensures p.spoofedFrom == 0 ==> SiteOf(sites, p) == "0"
    ensures p.spoofedFrom != 0 && p.spoofedFrom in sites ==> SiteOf(sites, p) == sites[p.spoofedFrom]
    ensures a !in sites && b !in sites ==> (SiteName(sites, a) == SiteName(sites, b) <==> a == b)
    ensures a !in sites ==> Denoted(SiteName(sites, a)) == a
  {
    DecimalDenotes(a);
    DecimalDenotes(b);
  }

  lemma RRKeyExample()
    ensures RRKey("mia", 10, 7) == "XRRP_mia_10_7"
  {
    KeyExamples();
  }

  // ---------- distances ----------

  /** Position of every hop from the destination on, in the first n hops of one response; later positions win. */
  function InResponse(rr: seq<uint32>, dst: uint32, skip: set<uint32>, acc: map<uint32, nat>, n: nat): map<uint32, nat>
    requires n <= |rr|
    decreases rr, n
  {
    if n == 0 then acc
    else
      var before := InResponse(rr, dst, skip, acc, n - 1);
      if dst in rr[..n] && rr[n - 1] !in skip then before[rr[n - 1] := n - 1] else before
  }

  function InPing(responses: seq<seq<uint32>>, dst: uint32, skip: set<uint32>, acc: map<uint32, nat>): map<uint32, nat> {
    if responses == [] then acc
    else
      var last := responses[|responses| - 1];
      InResponse(last, dst, skip, InPing(responses[..|responses| - 1], dst, skip, acc), |last|)
  }

  /** The hops the reply may be filed under, with their distances. */
  function Measured(p: Ping): map<uint32, nat> {
    InPing(p.responses, p.dst, {0, p.src}, map[])
  }

  /** The distances known from the entries the cache returned. */
  function Cached(hits: seq<Entry>): map<uint32, nat> {
    if hits == [] then map[]
    else
      var before, e := Cached(hits[..|hits| - 1]), hits[|hits| - 1];
      if e.Dummy? then before else InPing(e.p.responses, e.p.dst, {}, before)
  }

  /** Some response has h at position i and the destination there or before. */
  ghost predicate RecordedAt(responses: seq<seq<uint32>>, dst: uint32, h: uint32, i: nat) {
    exists r :: 0 <= r < |responses| && i < |responses[r]| && responses[r][i] == h && dst in responses[r][..i + 1]
  }

  /** h was recorded at or after the destination. */
  ghost predicate Records(p: Ping, h: uint32) {
    exists i :: RecordedAt(p.responses, p.dst, h, i)
  }

  // ---------- one update ----------

  /** What updateCacheRRPing decides to store the reply under. */
  function Chosen(p: Ping, hits: seq<Entry>): set<uint32> {
    var m, c := Measured(p), Cached(hits);
    if p.dst !in m then {p.dst} else set h | h in m && (h !in c || m[h] <= c[h])
  }

  function KeysOf(site: string, src: uint32, hops: set<uint32>): set<string> {
    set h | h in hops :: RRKey(site, src, h)
  }

  function Filed(site: string, p: Ping, hops: set<uint32>): Entries {
    map key | key in KeysOf(site, p.src, hops) :: Stored(p)
  }

  /** `failed` are the hops whose write the cache refused. */
  function Updated(c: Entries, sites: Sites, p: Ping, hits: seq<Entry>, failed: set<uint32>): Entries {
    c + Filed(SiteOf(sites, p), p, Chosen(p, hits) - failed)
  }

  lemma {:induction false} InResponseIs(rr: seq<uint32>, dst: uint32, skip: set<uint32>, acc: map<uint32, nat>, n: nat, h: uint32)
    requires n <= |rr|
    requires h in InResponse(rr, dst, skip, acc, n)
    ensures var i := InResponse(rr, dst, skip, acc, n)[h];
      (h in acc && acc[h] == i) || (h !in skip && i < n && rr[i] == h && dst in rr[..i + 1])
  {
    if n > 0 && h in InResponse(rr, dst, skip, acc, n - 1) {
      InResponseIs(rr, dst, skip, acc, n - 1, h);
    }
  }

  lemma {:induction false} InPingIs(responses: seq<seq<uint32>>, dst: uint32, skip: set<uint32>, h: uint32)
    requires h in InPing(responses, dst, skip, map[])
    ensures h !in skip && RecordedAt(responses, dst, h, InPing(responses, dst, skip, map[])[h])
  {
    var front, last := responses[..|responses| - 1], responses[|responses| - 1];
    var i := InPing(responses, dst, skip, map[])[h];
    var acc := InPing(front, dst, skip, map[]);
    InResponseIs(last, dst, skip, acc, |last|, h);
    if h in acc && acc[h] == i {
      InPingIs(front, dst, skip, h);
      var r :| 0 <= r < |front| && i < |front[r]| && front[r][i] == h && dst in front[r][..i + 1];
      assert responses[r] == front[r];
    } else {
      assert responses[|responses| - 1] == last;
    }
  }

  /** Every hop recorded at or after the destination, other than zero and the source, is measured. */
  lemma {:induction false} AllMeasured(responses: seq<seq<uint32>>, dst: uint32, skip: set<uint32>, h: uint32, i: nat)
    requires RecordedAt(responses, dst, h, i) && h !in skip
    ensures h in InPing(responses, dst, skip, map[])
  {
    var r :| 0 <= r < |responses| && i < |responses[r]| && responses[r][i] == h && dst in responses[r][..i + 1];
    var front, last := responses[..|responses| - 1], responses[|responses| - 1];
    var acc := InPing(front, dst, skip, map[]);
    if r < |responses| - 1 {
      assert front[r] == responses[r];
      AllMeasured(front, dst, skip, h, i);
    }
    KeepsHop(last, dst, skip, acc, |last|, h, i);
  }

  lemma {:induction false} KeepsHop(rr: seq<uint32>, dst: uint32, skip: set<uint32>, acc: map<uint32, nat>, n: nat,
                                    h: uint32, i: nat)
    requires n <= |rr|
    requires h in acc || (i < n && rr[i] == h && dst in rr[..i + 1] && h !in skip)
    ensures h in InResponse(rr, dst, skip, acc, n)
  {
    if n > 0 && (h in acc || i < n - 1) {
      KeepsHop(rr, dst, skip, acc, n - 1, h, i);
    }
  }

  /** The hops a reply is measured for are exactly those it recorded from its destination on, at such a position. */
  lemma MeasuredIff(p: Ping, h: uint32)
    ensures h in Measured(p) <==> Records(p, h) && h != 0 && h != p.src
    ensures h in Measured(p) ==> RecordedAt(p.responses, p.dst, h, Measured(p)[h])
  {
    if h in Measured(p) {
      InPingIs(p.responses, p.dst, {0, p.src}, h);
    }
    if Records(p, h) && h != 0 && h != p.src {
      var i :| RecordedAt(p.responses, p.dst, h, i);
      AllMeasured(p.responses, p.dst, {0, p.src}, h, i);
    }
  }

  /** A reply is filed only under its own destination or a hop it recorded at or after it. */
  lemma ChosenIsRecorded(p: Ping, hits: seq<Entry>, h: uint32)
    requires h in Chosen(p, hits)
    ensures h == p.dst || (Records(p, h) && h != 0 && h != p.src)
  {
    if h != p.dst {
      MeasuredIff(p, h);
    }
  }

  function Lookup(c: Entries, key: string): Option<Entry> {
    if key in c then Some(c[key]) else None
  }

  // ---------- which position counts ----------

  /** One response has h at position i, and the destination there or before. */
  ghost predicate At(rr: seq<uint32>, dst: uint32, h: uint32, i: nat) {
    i < |rr| && rr[i] == h && dst in rr[..i + 1]
  }

  /** Position i of response r is the last at which h is recorded: no later one of the response, no later response. */
  ghost predicate LastAt(responses: seq<seq<uint32>>, dst: uint32, h: uint32, r: nat, i: nat) {
    && r < |responses| && At(responses[r], dst, h, i)
    && (forall j :: i < j ==> !At(responses[r], dst, h, j))
    && (forall q, j: nat :: r < q < |responses| ==> !At(responses[q], dst, h, j))
  }

  /** The position of h in a reply: where it is recorded last. */
  ghost predicate Place(p: Ping, h: uint32, i: nat) {
    exists r :: LastAt(p.responses, p.dst, h, r, i)
  }

  /** The position of h in what the cache returned: its position in the last reply that records it. */
  ghost predicate HitPlace(hits: seq<Entry>, h: uint32, i: nat) {
    exists k :: 0 <= k < |hits| && hits[k].Stored? && Place(hits[k].p, h, i)
      && forall l :: k < l < |hits| && hits[l].Stored? ==> !Records(hits[l].p, h)
  }

  lemma {:induction false} InResponseAt(rr: seq<uint32>, dst: uint32, skip: set<uint32>, acc: map<uint32, nat>, n: nat, h: uint32)
    requires n <= |rr|
    ensures var m := InResponse(rr, dst, skip, acc, n);
      && (h in skip || (forall i: nat :: i < n ==> !At(rr, dst, h, i)) ==> (h in m <==> h in acc) && (h in m ==> m[h] == acc[h]))
      && forall i: nat :: h !in skip && i < n && At(rr, dst, h, i) && (forall j :: i < j < n ==> !At(rr, dst, h, j)) ==>
           h in m && m[h] == i
  {
    if n > 0 {
      InResponseAt(rr, dst, skip, acc, n - 1, h);
      assert rr[n - 1] == h && dst in rr[..n] <==> At(rr, dst, h, n - 1);
    }
  }

  /** Some last position before n, if there is one at all. */
  lemma {:induction false} LastOne(rr: seq<uint32>, dst: uint32, h: uint32, n: nat) returns (i: nat)
    requires n <= |rr| && exists j: nat :: j < n && At(rr, dst, h, j)
    ensures i < n && At(rr, dst, h, i) && forall j :: i < j < n ==> !At(rr, dst, h, j)
  {
    if At(rr, dst, h, n - 1) {
      i := n - 1;
    } else {
      i := LastOne(rr, dst, h, n - 1);
    }
  }

  lemma {:induction false} InPingAt(responses: seq<seq<uint32>>, dst: uint32, skip: set<uint32>, acc: map<uint32, nat>, h: uint32)
    ensures var m := InPing(responses, dst, skip, acc);
      && (h in skip || (forall r, i: nat :: 0 <= r < |responses| ==> !At(responses[r], dst, h, i)) ==>
           (h in m <==> h in acc) && (h in m ==> m[h] == acc[h]))
      && forall r, i :: h !in skip && LastAt(responses, dst, h, r, i) ==> h in m && m[h] == i
  {
    if responses != [] {
      var front, last := responses[..|responses| - 1], responses[|responses| - 1];
      var before := InPing(front, dst, skip, acc);
      InPingAt(front, dst, skip, acc, h);
      InResponseAt(last, dst, skip, before, |last|, h);
      assert forall r :: 0 <= r < |front| ==> front[r] == responses[r];
      forall r: nat, i: nat | h !in skip && LastAt(responses, dst, h, r, i)
        ensures h in InPing(responses, dst, skip, acc) && InPing(responses, dst, skip, acc)[h] == i
      {
        if r < |front| {
          assert LastAt(front, dst, h, r, i);
        }
      }
    }
  }

  /** A hop that is recorded has a position. */
  lemma {:induction false} FindLast(responses: seq<seq<uint32>>, dst: uint32, h: uint32, r: nat, i: nat)
      returns (q: nat, j: nat)
    requires r < |responses| && At(responses[r], dst, h, i)
    ensures LastAt(responses, dst, h, q, j)
  {
    var front, last := responses[..|responses| - 1], responses[|responses| - 1];
    if exists l: nat :: l < |last| && At(last, dst, h, l) {
      q := |responses| - 1;
      j := LastOne(last, dst, h, |last|);
    } else {
      q, j := FindLast(front, dst, h, r, i);
      assert forall l :: 0 <= l < |front| ==> front[l] == responses[l];
    }
  }

  lemma HasPlace(p: Ping, h: uint32) returns (i: nat)
    requires Records(p, h)
    ensures Place(p, h, i)
  {
    var j: nat :| RecordedAt(p.responses, p.dst, h, j);
    var r :| 0 <= r < |p.responses| && j < |p.responses[r]| && p.responses[r][j] == h && p.dst in p.responses[r][..j + 1];
    assert At(p.responses[r], p.dst, h, j);
    var q;
    q, i := FindLast(p.responses, p.dst, h, r, j);
  }

  lemma PlaceRecorded(p: Ping, h: uint32, i: nat)
    requires Place(p, h, i)
    ensures Records(p, h)
  {
    var r :| LastAt(p.responses, p.dst, h, r, i);
    assert RecordedAt(p.responses, p.dst, h, i);
  }

  /** What is measured for a hop is its position in the reply. */
  lemma MeasuredAt(p: Ping, h: uint32, i: nat)
    requires Place(p, h, i) && h != 0 && h != p.src
    ensures h in Measured(p) && Measured(p)[h] == i
  {
    InPingAt(p.responses, p.dst, {0, p.src}, map[], h);
  }

  lemma NotAt(p: Ping, h: uint32)
    requires !Records(p, h)
    ensures forall r, i: nat :: 0 <= r < |p.responses| ==> !At(p.responses[r], p.dst, h, i)
  {
    forall r, i: nat | 0 <= r < |p.responses| ensures !At(p.responses[r], p.dst, h, i) {
      if At(p.responses[r], p.dst, h, i) {
        assert RecordedAt(p.responses, p.dst, h, i);
      }
    }
  }

  /** What is known of a hop from the cache is its position in what was returned. */
  lemma {:induction false} CachedIff(hits: seq<Entry>, h: uint32)
    ensures h in Cached(hits) <==> exists k :: 0 <= k < |hits| && hits[k].Stored? && Records(hits[k].p, h)
    ensures forall i :: HitPlace(hits, h, i) ==> h in Cached(hits) && Cached(hits)[h] == i
    ensures h in Cached(hits) ==> HitPlace(hits, h, Cached(hits)[h])
  {
    if hits != [] {
      var front, e := hits[..|hits| - 1], hits[|hits| - 1];
      CachedIff(front, h);
      assert forall k :: 0 <= k < |front| ==> front[k] == hits[k];
      if e.Stored? && Records(e.p, h) {
        var i := HasPlace(e.p, h);
        InPingAt(e.p.responses, e.p.dst, {}, Cached(front), h);
        HitPlaceLast(hits, h, i);
      } else {
        if e.Stored? {
          NotAt(e.p, h);
          InPingAt(e.p.responses, e.p.dst, {}, Cached(front), h);
        }
        HitPlaceFront(hits, h);
      }
    }
  }

  /** The last entry decides. */
  lemma HitPlaceLast(hits: seq<Entry>, h: uint32, i: nat)
    requires hits != [] && hits[|hits| - 1].Stored? && Place(hits[|hits| - 1].p, h, i)
    ensures forall j :: HitPlace(hits, h, j) <==> j == i
  {
    var last := |hits| - 1;
    PlaceRecorded(hits[last].p, h, i);
    InPingAt(hits[last].p.responses, hits[last].p.dst, {}, map[], h);
    assert HitPlace(hits, h, i);
    forall j | HitPlace(hits, h, j) ensures j == i {
      var k :| 0 <= k < |hits| && hits[k].Stored? && Place(hits[k].p, h, j)
        && forall l :: k < l < |hits| && hits[l].Stored? ==> !Records(hits[l].p, h);
      assert k == last;
    }
  }

  /** The last entry says nothing of the hop. */
  lemma HitPlaceFront(hits: seq<Entry>, h: uint32)
    requires hits != [] && (hits[|hits| - 1].Stored? ==> !Records(hits[|hits| - 1].p, h))
    ensures forall i :: HitPlace(hits, h, i) <==> HitPlace(hits[..|hits| - 1], h, i)
  {
    var front := hits[..|hits| - 1];
    forall i ensures HitPlace(hits, h, i) <==> HitPlace(front, h, i) {
      if HitPlace(hits, h, i) {
        var k :| 0 <= k < |hits| && hits[k].Stored? && Place(hits[k].p, h, i)
          && forall l :: k < l < |hits| && hits[l].Stored? ==> !Records(hits[l].p, h);
        PlaceRecorded(hits[k].p, h, i);
        assert front[k] == hits[k];
      }
      if HitPlace(front, h, i) {
        var k :| 0 <= k < |front| && front[k].Stored? && Place(front[k].p, h, i)
          && forall l :: k < l < |front| && front[l].Stored? ==> !Records(front[l].p, h);
        assert hits[k] == front[k];
      }
    }
  }

  // ---------- under which hops a reply is stored ----------

  /** The cache returned a nearer position of a hop than the reply has. */
  ghost predicate NearerHit(p: Ping, hits: seq<Entry>, h: uint32) {
    exists i, j :: Place(p, h, i) && HitPlace(hits, h, j) && j < i
  }

  /** The reply reached its destination, so that positions are counted from there. */
  ghost predicate Reached(p: Ping) {
    Records(p, p.dst) && p.dst != 0 && p.dst != p.src
  }

  /** A reply that reached its destination is stored under every hop it recorded from there on, but zero and its
      source, that the cache does not have at a nearer position; any other reply under its destination. */
  ghost predicate StoredUnder(p: Ping, hits: seq<Entry>, h: uint32) {
    if Reached(p) then Records(p, h) && h != 0 && h != p.src && !NearerHit(p, hits, h) else h == p.dst
  }

  lemma NearerIff(p: Ping, hits: seq<Entry>, h: uint32)
    requires h in Measured(p)
    ensures NearerHit(p, hits, h) <==> h in Cached(hits) && Cached(hits)[h] < Measured(p)[h]
  {
    MeasuredIff(p, h);
    var i := HasPlace(p, h);
    MeasuredAt(p, h, i);
    CachedIff(hits, h);
    forall j | Place(p, h, j) ensures j == i {
      MeasuredAt(p, h, j);
    }
  }

  lemma ChosenIff(p: Ping, hits: seq<Entry>, h: uint32)
    ensures h in Chosen(p, hits) <==> StoredUnder(p, hits, h)
  {
    MeasuredIff(p, p.dst);
    MeasuredIff(p, h);
    if h in Measured(p) {
      NearerIff(p, hits, h);
    }
  }

  lemma UpdatedOne(c: Entries, sites: Sites, p: Ping, hits: seq<Entry>, failed: set<uint32>, site: string, src: uint32, h: uint32)
    ensures Lookup(Updated(c, sites, p, hits, failed), RRKey(site, src, h))
         == if site == SiteOf(sites, p) && src == p.src && StoredUnder(p, hits, h) && h !in failed then Some(Stored(p))
            else Lookup(c, RRKey(site, src, h))
  {
    var hops, own := Chosen(p, hits) - failed, SiteOf(sites, p);
    ChosenIff(p, hits, h);
    if RRKey(site, src, h) in KeysOf(own, p.src, hops) {
      var g :| g in hops && RRKey(site, src, h) == RRKey(own, p.src, g);
      KeyUnique("XRRP", site, src, h, own, p.src, g);
    }
  }

  /** After an update the entry under any hop of the reply's source and site is the reply, when it is stored under that
      hop and the write succeeded, or else what it was; entries of other sources and sites are what they were. */
  /** The entry is under a hop that the reply recorded from its destination on, of its source and site. */
  ghost predicate AskedFor(c: Entries, sites: Sites, p: Ping, e: Entry) {
    exists h ::
      Records(p, h) && h != 0 && h != p.src && Lookup(c, RRKey(SiteOf(sites, p), p.src, h)) == Some(e)
  }

  ghost predicate IsUpdate(c: Entries, c': Entries, sites: Sites, p: Ping, hits: seq<Entry>, failed: set<uint32>) {
    forall site, src, h ::
      Lookup(c', RRKey(site, src, h))
      == if site == SiteOf(sites, p) && src == p.src && StoredUnder(p, hits, h) && h !in failed then Some(Stored(p))
         else Lookup(c, RRKey(site, src, h))
  }

  lemma UpdatedIff(c: Entries, sites: Sites, p: Ping, hits: seq<Entry>, failed: set<uint32>)
    ensures IsUpdate(c, Updated(c, sites, p, hits, failed), sites, p, hits, failed)
  {
    forall site, src, h
      ensures Lookup(Updated(c, sites, p, hits, failed), RRKey(site, src, h))
        == if site == SiteOf(sites, p) && src == p.src && StoredUnder(p, hits, h) && h !in failed then Some(Stored(p))
           else Lookup(c, RRKey(site, src, h))
    {
      UpdatedOne(c, sites, p, hits, failed, site, src, h);
    }
  }

  // ---------- the cache server and the update ----------

  class Cache {
    var entries: Entries

    constructor ()
      ensures entries == map[]
    {
      entries := map[];
    }

    /** Any part of what is asked for and present may be returned, in any order. */
    method GetMulti(keys: set<string>, reach: set<string>) returns (hits: seq<Entry>)
      ensures forall e :: e in hits ==> exists k :: k in keys && k in entries && entries[k] == e
    {
      var todo := keys * reach * entries.Keys;
      hits := [];
      while todo != {}
        invariant todo <= keys * entries.Keys
        invariant forall e :: e in hits ==> exists k :: k in keys && k in entries && entries[k] == e
      {
        var k :| k in todo;
        hits, todo := hits + [entries[k]], todo - {k};
      }
    }

    /** updateCacheRRPing */
    method Update(sites: Sites, p: Ping, reach: set<string>, failed: set<uint32>) returns (ghost hits: seq<Entry>)
      modifies this
      ensures entries == Updated(old(entries), sites, p, hits, failed)
      ensures forall e :: e in hits ==> AskedFor(old(entries), sites, p, e)
      ensures IsUpdate(old(entries), entries, sites, p, hits, failed)
    {
      var site := if p.spoofedFrom != 0 then SiteName(sites, p.spoofedFrom) else "0";
      var measured := Measure(p.responses, p.dst, {0, p.src}, map[]);
      var found := GetMulti(KeysOf(site, p.src, measured.Keys), reach);
      hits := found;
      forall e | e in hits ensures AskedFor(entries, sites, p, e) {
        var k :| k in KeysOf(site, p.src, measured.Keys) && k in entries && entries[k] == e;
        var h :| h in measured && k == RRKey(site, p.src, h);
        MeasuredIff(p, h);
      }
      var cached := ReadHits(found);
      if p.dst !in measured {
        Write(site, p, {p.dst}, failed);
      } else {
        var hops := set h | h in measured && (h !in cached || measured[h] <= cached[h]);
        Write(site, p, hops, failed);
      }
      UpdatedIff(old(entries), sites, p, hits, failed);
    }

    /** One SetWithExpire for each hop. */
    method Write(site: string, p: Ping, hops: set<uint32>, failed: set<uint32>)
      modifies this
      ensures entries == old(entries) + Filed(site, p, hops - failed)
    {
      var todo := hops;
      while todo != {}
        invariant todo <= hops && entries == old(entries) + Filed(site, p, hops - failed - todo)
      {
        var h :| h in todo;
        if h !in failed {
          entries := entries[RRKey(site, p.src, h) := Stored(p)];
        }
        FiledOne(old(entries), site, p, hops - failed, todo, h);
        todo := todo - {h};
      }
    }

    /** A target that did not answer is remembered under its key for a while (doPing). */
    method MarkSilent(key: string)
      modifies this
      ensures entries == old(entries)[key := Dummy]
    {
      entries := entries[key := Dummy];
    }

    method Expire(keys: set<string>)
      modifies this
      ensures entries == old(entries) - keys
    {
      entries := entries - keys;
    }
  }

  lemma FiledOne(c: Entries, site: string, p: Ping, hops: set<uint32>, todo: set<uint32>, h: uint32)
    requires h in todo
    ensures c + Filed(site, p, hops - (todo - {h})) == if h in hops
      then (c + Filed(site, p, hops - todo))[RRKey(site, p.src, h) := Stored(p)]
      else c + Filed(site, p, hops - todo)
  {
    var a, b := hops - todo, hops - (todo - {h});
    if h in hops {
      assert b == a + {h};
      assert KeysOf(site, p.src, b) == KeysOf(site, p.src, a) + {RRKey(site, p.src, h)};
    } else {
      assert b == a;
    }
  }

  /** The loops over the responses of one ping and the hops of each. */
  method Measure(responses: seq<seq<uint32>>, dst: uint32, skip: set<uint32>, acc: map<uint32, nat>)
    returns (m: map<uint32, nat>)
    ensures m == InPing(responses, dst, skip, acc)
  {
    m := acc;
    var k := 0;
    while k < |responses|
      invariant 0 <= k <= |responses| && m == InPing(responses[..k], dst, skip, acc)
    {
      assert responses[..k + 1][..k] == responses[..k];
      m := MeasureResponse(responses[k], dst, skip, m);
      k := k + 1;
    }
    assert responses[..k] == responses;
  }

  method MeasureResponse(rr: seq<uint32>, dst: uint32, skip: set<uint32>, acc: map<uint32, nat>)
    returns (m: map<uint32, nat>)
    ensures m == InResponse(rr, dst, skip, acc, |rr|)
  {
    m := acc;
    var after := false;
    var i := 0;
    while i < |rr|
      invariant 0 <= i <= |rr| && (after <==> dst in rr[..i]) && m == InResponse(rr, dst, skip, acc, i)
    {
      assert rr[..i + 1] == rr[..i] + [rr[i]];
      if rr[i] == dst {
        after := true;
      }
      if after && rr[i] !in skip {
        m := m[rr[i] := i];
      }
      i := i + 1;
    }
  }

  method ReadHits(hits: seq<Entry>) returns (cached: map<uint32, nat>)
    ensures cached == Cached(hits)
  {
    cached := map[];
    var k := 0;
    while k < |hits|
      invariant 0 <= k <= |hits| && cached == Cached(hits[..k])
    {
      assert hits[..k + 1][..k] == hits[..k];
      if hits[k].Stored? {
        cached := Measure(hits[k].p.responses, hits[k].p.dst, {}, cached);
      }
      k := k + 1;
    }
    assert hits[..k] == hits;
  }

  // ---------- soundness over runs ----------

  datatype Step =
    | Reply(sites: Sites, p: Ping, hits: seq<Entry>, failed: set<uint32>)
    | Silent(key: string)
    | Expired(keys: set<string>)

  function Next(c: Entries, step: Step): Entries {
    match step
    case Reply(sites, p, hits, failed) => Updated(c, sites, p, hits, failed)
    case Silent(key) => c[key := Dummy]
    case Expired(keys) => c - keys
  }

  function Run(steps: seq<Step>): Entries {
    if steps == [] then map[] else Next(Run(steps[..|steps| - 1]), steps[|steps| - 1])
  }

  /** The step stored the reply p under key: the source, the site the reply had then, and a hop it is about. */
  ghost predicate Files(step: Step, key: string, p: Ping) {
    && step.Reply? && step.p == p
    && exists h: uint32 :: key == RRKey(SiteOf(step.sites, p), p.src, h) && (h == p.dst || Records(p, h))
  }

  lemma FiledHere(step: Step, key: string)
    requires step.Reply? && key in KeysOf(SiteOf(step.sites, step.p), step.p.src, Chosen(step.p, step.hits) - step.failed)
    ensures Files(step, key, step.p)
  {
    var h :| h in Chosen(step.p, step.hits) - step.failed && key == RRKey(SiteOf(step.sites, step.p), step.p.src, h);
    ChosenIsRecorded(step.p, step.hits, h);
  }

  /** Over all runs: every stored reply was processed in some step of the run, which filed it there. */
  lemma {:induction false} RunIsSound(steps: seq<Step>, key: string)
    requires key in Run(steps) && Run(steps)[key].Stored?
    ensures exists step :: step in steps && Files(step, key, Run(steps)[key].p)
  {
    if steps != [] {
      var before, step := steps[..|steps| - 1], steps[|steps| - 1];
      if step.Reply? && key in KeysOf(SiteOf(step.sites, step.p), step.p.src, Chosen(step.p, step.hits) - step.failed) {
        FiledHere(step, key);
      } else {
        RunIsSound(before, key);
        var earlier :| earlier in before && Files(earlier, key, Run(before)[key].p);
        assert earlier in steps;
      }
    }
  }

  // ---------- looking up ----------

  /** A record-route measurement; a spoofed one is sent from `src` with source address `sa`. */
  datatype Measurement = Measurement(src: uint32, sa: uint32, dst: uint32, spoof: bool)

  function LookupKey(sites: Sites, pm: Measurement): string {
    if pm.spoof then RRKey(SiteName(sites, pm.src), pm.sa, pm.dst) else RRKey("0", pm.src, pm.dst)
  }

  /** The address replies go to. */
  function Source(pm: Measurement): uint32 {
    if pm.spoof then pm.sa else pm.src
  }

  function LookupSite(sites: Sites, pm: Measurement): string {
    if pm.spoof then SiteName(sites, pm.src) else "0"
  }

  /** Reply p answers the measurement: same source, and the target is where the reply came from or a hop it recorded
      from there on. */
  ghost predicate Answers(p: Ping, pm: Measurement) {
    p.src == Source(pm) && (p.dst == pm.dst || Records(p, pm.dst))
  }

  lemma FiledForLookup(step: Step, sites: Sites, pm: Measurement, p: Ping)
    requires Files(step, LookupKey(sites, pm), p)
    ensures Answers(p, pm) && SiteOf(step.sites, p) == LookupSite(sites, pm)
  {
    var site := SiteOf(step.sites, p);
    var h: uint32 :| LookupKey(sites, pm) == RRKey(site, p.src, h) && (h == p.dst || Records(p, h));
    KeyUnique("XRRP", site, p.src, h, LookupSite(sites, pm), Source(pm), pm.dst);
  }

  /** What a measurement finds in the cache answers it, and when it was processed it came from the site that the
      measurement asks for. */
  lemma FoundAnswers(steps: seq<Step>, sites: Sites, pm: Measurement)
    requires LookupKey(sites, pm) in Run(steps) && Run(steps)[LookupKey(sites, pm)].Stored?
    ensures var p := Run(steps)[LookupKey(sites, pm)].p;
      Answers(p, pm) && exists step :: step in steps && step.Reply? && step.p == p && SiteOf(step.sites, p) == LookupSite(sites, pm)
  {
    var key := LookupKey(sites, pm);
    RunIsSound(steps, key);
    var step :| step in steps && Files(step, key, Run(steps)[key].p);
    FiledForLookup(step, sites, pm, Run(steps)[key].p);
  }

  ghost predicate OneSiteMap(steps: seq<Step>, sites: Sites) {
    forall step :: step in steps && step.Reply? ==> step.sites == sites
  }

  /** While the site map stays the same, the reply found comes from the site asked for. */
  lemma FoundFromSite(steps: seq<Step>, sites: Sites, pm: Measurement)
    requires LookupKey(sites, pm) in Run(steps) && Run(steps)[LookupKey(sites, pm)].Stored? && OneSiteMap(steps, sites)
    ensures var p := Run(steps)[LookupKey(sites, pm)].p; Answers(p, pm) && SiteOf(sites, p) == LookupSite(sites, pm)
  {
    FoundAnswers(steps, sites, pm);
  }

  /** A probe as the plcontroller reports it: it arrived at `dst`, from `src`, for a packet the spoofer sent. */
  datatype Probe = Probe(src: uint32, dst: uint32, spoofer: uint32, rr: seq<uint32>)

  /** toPing for a probe with recorded hops: source and destination are those of the measurement. */
  function ToPing(probe: Probe): Ping {
    Ping(probe.dst, probe.src, probe.spoofer, [probe.rr])
  }

  /** The reply of a measurement whose target answered. */
  function ReplyTo(pm: Measurement, rr: seq<uint32>): Ping {
    if pm.spoof then ToPing(Probe(pm.dst, pm.sa, pm.src, rr)) else Ping(pm.src, pm.dst, 0, [rr])
  }

  /** The key of a reply's own target (KeyPerSite). */
  function ReplyKey(sites: Sites, p: Ping): string {
    RRKey(SiteOf(sites, p), p.src, p.dst)
  }

  /** For one site map a measurement looks where its reply is stored, unless the spoofer's address is zero, which the
      reply cannot tell from not being spoofed, and zero has another site. */
  lemma LookupIsReplyKeyIff(sites: Sites, pm: Measurement, rr: seq<uint32>)
    ensures LookupKey(sites, pm) == ReplyKey(sites, ReplyTo(pm, rr))
      <==> (!pm.spoof || pm.src != 0 || SiteName(sites, 0) == "0")
  {
    if pm.spoof && LookupKey(sites, pm) == ReplyKey(sites, ReplyTo(pm, rr)) {
      var p := ReplyTo(pm, rr);
      KeyUnique("XRRP", SiteName(sites, pm.src), pm.sa, pm.dst, SiteOf(sites, p), p.src, p.dst);
    }
  }

  /** A spoofer with address zero and a site: the measurement does not look where its reply is stored. */
  lemma ZeroSpooferMisses() returns (sites: Sites, pm: Measurement)
    ensures pm.spoof && LookupKey(sites, pm) != ReplyKey(sites, ReplyTo(pm, []))
  {
    sites, pm := map[0 := "mia"], Measurement(0, 7, 9, true);
    assert SiteName(sites, 0)[0] == 'm';
    LookupIsReplyKeyIff(sites, pm, []);
  }

  /** The cache holds a nearer position of the reply's own target, under whatever hop. */
  ghost predicate NearerCached(p: Ping, hits: seq<Entry>) {
    p.dst != 0 && p.dst != p.src && NearerHit(p, hits, p.dst)
  }

  lemma OwnTarget(p: Ping, hits: seq<Entry>)
    ensures p.dst in Chosen(p, hits) <==> !NearerCached(p, hits)
  {
    ChosenIff(p, hits, p.dst);
    if NearerHit(p, hits, p.dst) {
      var i, j :| Place(p, p.dst, i) && HitPlace(hits, p.dst, j) && j < i;
      PlaceRecorded(p, p.dst, i);
    }
  }

  /** Where the measurement looks, its processed reply is found exactly when the write succeeds, no nearer position of
      the target was cached, and the keys agree. Otherwise that entry is what it was, also when it was missing. */
  lemma ReplyIsFoundIff(c: Entries, sites: Sites, pm: Measurement, rr: seq<uint32>, hits: seq<Entry>, failed: set<uint32>)
    ensures var p, key := ReplyTo(pm, rr), LookupKey(sites, pm);
      Lookup(Updated(c, sites, p, hits, failed), key)
      == if p.dst !in failed && !NearerCached(p, hits) && (!pm.spoof || pm.src != 0 || SiteName(sites, 0) == "0")
         then Some(Stored(p)) else Lookup(c, key)
  {
    var p, key := ReplyTo(pm, rr), LookupKey(sites, pm);
    var site, hops := SiteOf(sites, p), Chosen(p, hits) - failed;
    LookupIsReplyKeyIff(sites, pm, rr);
    OwnTarget(p, hits);
    if key == ReplyKey(sites, p) {
      OnlyOwnKey(site, p, hops);
    } else if key in KeysOf(site, p.src, hops) {
      var h :| h in hops && key == RRKey(site, p.src, h);
      KeyUnique("XRRP", LookupSite(sites, pm), Source(pm), pm.dst, site, p.src, h);
    }
  }

  lemma OnlyOwnKey(site: string, p: Ping, hops: set<uint32>)
    ensures RRKey(site, p.src, p.dst) in KeysOf(site, p.src, hops) <==> p.dst in hops
  {
    var key := RRKey(site, p.src, p.dst);
    if key in KeysOf(site, p.src, hops) {
      var h :| h in hops && key == RRKey(site, p.src, h);
      KeyUnique("XRRP", site, p.src, p.dst, site, p.src, h);
    }
  }

  lemma OneResponse(rr: seq<uint32>, dst: uint32, skip: set<uint32>)
    ensures InPing([rr], dst, skip, map[]) == InResponse(rr, dst, skip, map[], |rr|)
  {
    assert [rr][..0] == [];
  }

  lemma TwoHops(rr: seq<uint32>, dst: uint32, skip: set<uint32>)
    requires rr == [dst, 8] && dst != 8 && 8 !in skip && dst !in skip
    ensures InResponse(rr, dst, skip, map[], 2) == map[dst := 0, 8 := 1]
  {
    assert rr[..1] == [dst] && rr[0] in rr[..2];
    assert InResponse(rr, dst, skip, map[], 1) == map[dst := 0];
  }

  lemma ThreeHops(rr: seq<uint32>, dst: uint32, skip: set<uint32>)
    requires rr == [5, dst, 8] && dst != 8 && dst != 5 && 8 !in skip && dst !in skip
    ensures dst in InResponse(rr, dst, skip, map[], 3) && InResponse(rr, dst, skip, map[], 3)[dst] == 1
  {
    assert rr[..1] == [5] && rr[1] in rr[..2] && rr[1] in rr[..3];
    assert InResponse(rr, dst, skip, map[], 1) == map[];
    assert InResponse(rr, dst, skip, map[], 2) == map[dst := 1];
  }

  /** The distances of the two replies below. */
  lemma Distances(q: Ping, p: Ping)
    requires q == Ping(1, 9, 0, [[9, 8]]) && p == Ping(1, 9, 0, [[5, 9, 8]])
    ensures Measured(q) == Cached([Stored(q)]) == map[9 := 0, 8 := 1] && NearerCached(p, [Stored(q)])
  {
    var rr, rr' := [9, 8], [5, 9, 8];
    OneResponse(rr, 9, {0, 1});
    TwoHops(rr, 9, {0, 1});
    OneResponse(rr, 9, {});
    TwoHops(rr, 9, {});
    OneResponse(rr', 9, {0, 1});
    ThreeHops(rr', 9, {0, 1});
    assert [Stored(q)][..0] == [] && Cached([]) == map[];
    NearerIff(p, [Stored(q)], 9);
  }

  lemma FiledUnder(sites: Sites, q: Ping, hits: seq<Entry>, failed: set<uint32>, h: uint32)
    requires h in Chosen(q, hits) && h !in failed
    ensures Lookup(Updated(map[], sites, q, hits, failed), RRKey(SiteOf(sites, q), q.src, h)) == Some(Stored(q))
  {
    assert RRKey(SiteOf(sites, q), q.src, h) in KeysOf(SiteOf(sites, q), q.src, Chosen(q, hits) - failed);
  }

  /** The first reply is filed under hop 8 only. It knows target 9 at position 0, so that the second reply, which has
      it at position 1, is not filed under 9, where nothing is. */
  lemma NearerElsewhere() returns (steps: seq<Step>, pm: Measurement)
    ensures |steps| == 2 && steps[1].Reply? && steps[1].p == ReplyTo(pm, [5, 9, 8]) && steps[1].failed == {}
    ensures forall e :: e in steps[1].hits ==> exists k :: k in Run(steps[..1]) && Run(steps[..1])[k] == e
    ensures LookupKey(map[], pm) !in Run(steps)
  {
    var q, p := Ping(1, 9, 0, [[9, 8]]), Ping(1, 9, 0, [[5, 9, 8]]);
    pm := Measurement(1, 0, 9, false);
    var first, second := Reply(map[], q, [], {9}), Reply(map[], p, [Stored(q)], {});
    steps := [first, second];
    Distances(q, p);
    TwoSteps(first, second);
    FiledUnder(map[], q, [], {9}, 8);
    var c: Entries := map[];
    ReplyIsFoundIff(c, map[], pm, [9, 8], [], {9});
    ReplyIsFoundIff(Run(steps[..1]), map[], pm, [5, 9, 8], [Stored(q)], {});
  }

  lemma TwoSteps(first: Step, second: Step)
    ensures Run([first, second][..1]) == Next(map[], first) && Run([first, second]) == Next(Next(map[], first), second)
  {
    assert [first, second][..1] == [first] && [first][..0] == [];
  }

  /** Spoofer 2 was at site "a" when its reply was filed and is at "b" when it is found for site "a". */
  lemma MovedSpoofer() returns (steps: seq<Step>, sites: Sites, pm: Measurement)
    ensures LookupKey(sites, pm) in Run(steps) && Run(steps)[LookupKey(sites, pm)].Stored?
    ensures SiteOf(sites, Run(steps)[LookupKey(sites, pm)].p) != LookupSite(sites, pm)
  {
    var p, before := Ping(1, 9, 2, []), map[2 := "a"];
    sites, pm := map[2 := "b", 3 := "a"], Measurement(3, 1, 9, true);
    steps := [Reply(before, p, [], {})];
    assert steps[..0] == [];
    FiledUnder(before, p, [], {}, 9);
    assert SiteOf(sites, p)[0] == 'b' && LookupSite(sites, pm)[0] == 'a';
  }
}
