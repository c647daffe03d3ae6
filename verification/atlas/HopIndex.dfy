/** The in-memory index that decides whether the atlas database is asked at all. Tables are finite sets of rows, the
    SQL text is the set comprehension it denotes, and the index must never turn away what a query would find. */
module AtlasHopIndex {
  import opened Common

  datatype Result<T> = Ok(value: T) | Err

  /** Dates are in seconds. */
  datatype Trace = Trace(id: int, date: int, src: uint32, dest: uint32, asn: int, platform: string, stale: bool)
  datatype Hop = Hop(traceId: int, hop: uint32, ttl: nat)
  datatype RRHop = RRHop(traceId: int, rrHop: uint32, ttlStart: nat, ttlEnd: nat)
  datatype Alias = Alias(ip: uint32, cluster: int)
  datatype Db = Db(traces: set<Trace>, hops: set<Hop>, rrs: set<RRHop>, aliases: set<Alias>)

  const DAY := 86400

  // ---------- loading the index ----------

  datatype Pair = Pair(dst: uint32, hop: uint32)
  datatype Row = Row(dst: uint32, hop: uint32, cluster: Option<int>)

  type Index = map<uint32, set<uint32>>

  /** The two inner selects: destinations and hops of the last 24 hours, stale or not. */
  function Fresh(db: Db, now: int): set<Pair> {
    (set t, h | t in db.traces && h in db.hops && t.id == h.traceId && t.date >= now - DAY :: Pair(t.dest, h.hop)) +
    (set t, r | t in db.traces && r in db.rrs && t.id == r.traceId && t.date >= now - DAY :: Pair(t.dest, r.rrHop))
  }

  /** selectAvailableHopsPerDst: the left join of the fresh hops with their alias clusters. */
  function AvailableRows(db: Db, now: int): set<Row> {
    (set p, a | p in Fresh(db, now) && a in db.aliases && a.ip == p.hop :: Row(p.dst, p.hop, Some(a.cluster))) +
    (set p | p in Fresh(db, now) && (forall a :: a in db.aliases ==> a.ip != p.hop) :: Row(p.dst, p.hop, None))
  }

  /** selectAvailableAliasesPerDst */
  function AliasRows(db: Db, clusters: set<int>): set<Alias> {
    set a | a in db.aliases && a.cluster in clusters
  }

  ghost predicate InIndex(idx: Index, dst: uint32, addr: uint32) {
    dst in idx && addr in idx[dst]
  }

  /** addr is an alias of hop: one cluster lists both. */
  ghost predicate Aliased(db: Db, hop: uint32, addr: uint32) {
    exists c :: Alias(hop, c) in db.aliases && Alias(addr, c) in db.aliases
  }

  /** Traceroute `id` went through the address: one of its own hops, or recorded for it by a record-route ping. */
  ghost predicate Through(db: Db, id: int, hop: uint32) {
    || (exists h :: h in db.hops && h.traceId == id && h.hop == hop)
    || (exists r :: r in db.rrs && r.traceId == id && r.rrHop == hop)
  }

  /** What the index should hold, told from the rows: some traceroute to dst of the last 24 hours, stale or not, went
      through addr or through an address that shares a cluster with it. */
  ghost predicate Covered(db: Db, now: int, dst: uint32, addr: uint32) {
    exists t, hop :: t in db.traces && t.dest == dst && now - t.date <= 24 * 3600 && Through(db, t.id, hop)
      && Shares(db, hop, addr)
  }

  ghost predicate Shares(db: Db, hop: uint32, addr: uint32) {
    hop == addr || Aliased(db, hop, addr)
  }

  lemma FreshIff(db: Db, now: int, dst: uint32, hop: uint32)
    ensures Pair(dst, hop) in Fresh(db, now) <==>
      exists t :: t in db.traces && t.dest == dst && now - t.date <= 24 * 3600 && Through(db, t.id, hop)
  {
  }

  /** The closure by way of the two inner selects. */
  ghost predicate FreshCovers(db: Db, now: int, dst: uint32, addr: uint32) {
    exists hop :: Pair(dst, hop) in Fresh(db, now) && Shares(db, hop, addr)
  }

  lemma CoveredIff(db: Db, now: int, dst: uint32, addr: uint32)
    ensures Covered(db, now, dst, addr) <==> FreshCovers(db, now, dst, addr)
  {
    forall hop {
      FreshIff(db, now, dst, hop);
    }
    if Covered(db, now, dst, addr) {
      var t, hop :| t in db.traces && t.dest == dst && now - t.date <= 24 * 3600 && Through(db, t.id, hop)
        && Shares(db, hop, addr);
      assert Pair(dst, hop) in Fresh(db, now);
    }
    if hop :| Pair(dst, hop) in Fresh(db, now) && Shares(db, hop, addr) {
      var t :| t in db.traces && t.dest == dst && now - t.date <= 24 * 3600 && Through(db, t.id, hop);
    }
  }

  lemma AliasedBothWays(db: Db, hop: uint32, addr: uint32)
    requires Aliased(db, hop, addr)
    ensures Aliased(db, addr, hop)
  {
    var c :| Alias(hop, c) in db.aliases && Alias(addr, c) in db.aliases;
  }

  ghost predicate IsClosure(idx: Index, db: Db, now: int) {
    forall dst, addr :: InIndex(idx, dst, addr) <==> Covered(db, now, dst, addr)
  }

  /** A query returns its rows in some order. */
  method Enumerate<T(==)>(s: set<T>) returns (rows: seq<T>)
    ensures forall x :: x in rows <==> x in s
  {
    var todo := s;
    rows := [];
    while todo != {}
      invariant todo <= s && forall x :: x in rows <==> x in s - todo
    {
      var x :| x in todo;
      rows, todo := rows + [x], todo - {x};
    }
  }

  // What the first loop has collected after some rows.

  ghost predicate HasDst(rows: seq<Row>, d: uint32) {
    exists r :: r in rows && r.dst == d
  }

  ghost predicate HasHop(rows: seq<Row>, d: uint32, a: uint32) {
    exists r :: r in rows && r.dst == d && r.hop == a
  }

  ghost predicate HasCluster(rows: seq<Row>, d: uint32, c: int) {
    exists r :: r in rows && r.dst == d && r.cluster == Some(c)
  }

  ghost predicate IdsAre(ids: set<int>, rows: seq<Row>) {
    forall c :: c in ids <==> exists r :: r in rows && r.cluster == Some(c)
  }

  ghost predicate HopsAre(idx: Index, rows: seq<Row>) {
    && (forall d :: d in idx <==> HasDst(rows, d))
    && (forall d, a :: InIndex(idx, d, a) <==> HasHop(rows, d, a))
  }

  ghost predicate ClustersAre(clusters: map<uint32, set<int>>, rows: seq<Row>) {
    && (forall d :: d in clusters <==> HasDst(rows, d))
    && (forall d, c :: d in clusters && c in clusters[d] <==> HasCluster(rows, d, c))
  }

  lemma OneRow(rows: seq<Row>, row: Row)
    ensures forall d :: HasDst(rows + [row], d) <==> HasDst(rows, d) || row.dst == d
    ensures forall d, a :: HasHop(rows + [row], d, a) <==> HasHop(rows, d, a) || (row.dst == d && row.hop == a)
    ensures forall d, c :: HasCluster(rows + [row], d, c) <==> HasCluster(rows, d, c) || (row.dst == d && row.cluster == Some(c))
  {
    assert forall r :: r in rows + [row] <==> r in rows || r == row;
  }

  method AddRow(ghost rows: seq<Row>, row: Row, idx: Index, clusters: map<uint32, set<int>>, ids: set<int>)
    returns (idx': Index, clusters': map<uint32, set<int>>, ids': set<int>)
    requires HopsAre(idx, rows) && ClustersAre(clusters, rows) && IdsAre(ids, rows)
    ensures HopsAre(idx', rows + [row]) && ClustersAre(clusters', rows + [row]) && IdsAre(ids', rows + [row])
  {
    idx', clusters', ids' := idx, clusters, ids;
    if row.dst !in idx {
      idx', clusters' := idx[row.dst := {}], clusters[row.dst := {}];
    }
    idx' := idx'[row.dst := idx'[row.dst] + {row.hop}];
    if row.cluster.Some? {
      clusters' := clusters'[row.dst := clusters'[row.dst] + {row.cluster.value}];
      ids' := ids' + {row.cluster.value};
    }
    OneRow(rows, row);
    assert forall r :: r in rows + [row] <==> r in rows || r == row;
  }

  /** First loop: hops and clusters by destination, and all clusters. */
  method CollectRows(rows: seq<Row>) returns (idx: Index, clusters: map<uint32, set<int>>, ids: set<int>)
    ensures HopsAre(idx, rows) && ClustersAre(clusters, rows) && IdsAre(ids, rows)
  {
    idx, clusters, ids := map[], map[], {};
    var i := 0;
    while i < |rows|
      invariant 0 <= i <= |rows| && HopsAre(idx, rows[..i]) && ClustersAre(clusters, rows[..i]) && IdsAre(ids, rows[..i])
    {
      assert rows[..i + 1] == rows[..i] + [rows[i]];
      idx, clusters, ids := AddRow(rows[..i], rows[i], idx, clusters, ids);
      i := i + 1;
    }
    assert rows[..i] == rows;
  }

  /** Inner loop of the second pass: one alias goes to every destination that has its cluster. */
  method AddAlias(idx: Index, clusters: map<uint32, set<int>>, alias: Alias) returns (idx': Index)
    requires clusters.Keys == idx.Keys
    ensures idx'.Keys == idx.Keys
    ensures forall d, a :: InIndex(idx', d, a) <==>
      InIndex(idx, d, a) || (d in idx && alias.cluster in clusters[d] && a == alias.ip)
  {
    var todo := idx.Keys;
    idx' := idx;
    while todo != {}
      invariant todo <= idx.Keys && idx'.Keys == idx.Keys
      invariant forall d :: d in idx ==>
        idx'[d] == if d !in todo && alias.cluster in clusters[d] then idx[d] + {alias.ip} else idx[d]
    {
      var d :| d in todo;
      if alias.cluster in clusters[d] {
        idx' := idx'[d := idx'[d] + {alias.ip}];
      }
      todo := todo - {d};
    }
  }

  ghost predicate AliasFor(aliases: seq<Alias>, clusters: map<uint32, set<int>>, d: uint32, a: uint32)
    requires d in clusters
  {
    exists al :: al in aliases && al.ip == a && al.cluster in clusters[d]
  }

  lemma OneAlias(aliases: seq<Alias>, al: Alias, clusters: map<uint32, set<int>>)
    ensures forall d, a :: d in clusters ==>
      (AliasFor(aliases + [al], clusters, d, a) <==>
       AliasFor(aliases, clusters, d, a) || (al.ip == a && al.cluster in clusters[d]))
  {
    assert forall x :: x in aliases + [al] <==> x in aliases || x == al;
  }

  /** Second loop: the aliases of every cluster met. */
  method AddAliases(idx: Index, clusters: map<uint32, set<int>>, aliases: seq<Alias>) returns (idx': Index)
    requires clusters.Keys == idx.Keys
    ensures forall d, a :: InIndex(idx', d, a) <==>
      InIndex(idx, d, a) || (d in clusters && AliasFor(aliases, clusters, d, a))
  {
    idx' := idx;
    var i := 0;
    while i < |aliases|
      invariant 0 <= i <= |aliases| && idx'.Keys == idx.Keys
      invariant forall d, a :: InIndex(idx', d, a) <==>
        InIndex(idx, d, a) || (d in clusters && AliasFor(aliases[..i], clusters, d, a))
    {
      assert aliases[..i + 1] == aliases[..i] + [aliases[i]];
      OneAlias(aliases[..i], aliases[i], clusters);
      idx' := AddAlias(idx', clusters, aliases[i]);
      i := i + 1;
    }
    assert aliases[..i] == aliases;
  }

  lemma RowsAreFresh(db: Db, now: int, rows: seq<Row>)
    requires forall r :: r in rows <==> r in AvailableRows(db, now)
    ensures forall d, a :: HasHop(rows, d, a) <==> Pair(d, a) in Fresh(db, now)
    ensures forall d, c :: HasCluster(rows, d, c) <==>
      exists hop :: Pair(d, hop) in Fresh(db, now) && Alias(hop, c) in db.aliases
  {
    forall d, a | Pair(d, a) in Fresh(db, now) ensures HasHop(rows, d, a) {
      if al :| al in db.aliases && al.ip == a {
        assert Row(d, a, Some(al.cluster)) in AvailableRows(db, now);
      } else {
        assert Row(d, a, None) in AvailableRows(db, now);
      }
    }
    forall d, c, hop | Pair(d, hop) in Fresh(db, now) && Alias(hop, c) in db.aliases ensures HasCluster(rows, d, c) {
      assert Row(d, hop, Some(c)) in AvailableRows(db, now);
    }
  }

  lemma AliasesCoverFresh(db: Db, now: int, rows: seq<Row>, clusters: map<uint32, set<int>>, ids: set<int>,
                          aliases: seq<Alias>, d: uint32, a: uint32)
    requires forall r :: r in rows <==> r in AvailableRows(db, now)
    requires ClustersAre(clusters, rows) && IdsAre(ids, rows)
    requires forall x :: x in aliases <==> x in AliasRows(db, ids)
    ensures FreshCovers(db, now, d, a) <==>
      HasHop(rows, d, a) || (d in clusters && AliasFor(aliases, clusters, d, a))
  {
    RowsAreFresh(db, now, rows);
    if d in clusters && AliasFor(aliases, clusters, d, a) {
      var al :| al in aliases && al.ip == a && al.cluster in clusters[d];
      assert HasCluster(rows, d, al.cluster);
      var hop :| Pair(d, hop) in Fresh(db, now) && Alias(hop, al.cluster) in db.aliases;
      assert Alias(a, al.cluster) == al && al in db.aliases;
      assert Shares(db, hop, a);
    }
    if FreshCovers(db, now, d, a) && !HasHop(rows, d, a) {
      var hop :| Pair(d, hop) in Fresh(db, now) && Shares(db, hop, a);
      var c :| Alias(hop, c) in db.aliases && Alias(a, c) in db.aliases;
      assert HasCluster(rows, d, c);
      assert c in ids && Alias(a, c) in aliases;
    }
    if HasHop(rows, d, a) {
      assert Shares(db, a, a);
    }
  }

  /** The hops of a destination and the aliases collected for it are what traceroutes to it of the last day went through,
      and all that shares a cluster with that. */
  lemma AliasesAreClosure(db: Db, now: int, rows: seq<Row>, clusters: map<uint32, set<int>>, ids: set<int>,
                          aliases: seq<Alias>, d: uint32, a: uint32)
    requires forall r :: r in rows <==> r in AvailableRows(db, now)
    requires ClustersAre(clusters, rows) && IdsAre(ids, rows)
    requires forall x :: x in aliases <==> x in AliasRows(db, ids)
    ensures Covered(db, now, d, a) <==>
      HasHop(rows, d, a) || (d in clusters && AliasFor(aliases, clusters, d, a))
  {
    CoveredIff(db, now, d, a);
    AliasesCoverFresh(db, now, rows, clusters, ids, aliases, d, a);
  }

  /** An address that some traceroute of the last day went through is in an alias cluster, so that the second query is
      sent. */
  ghost predicate AnyCluster(db: Db, now: int) {
    exists t, hop, c :: t in db.traces && now - t.date <= 24 * 3600 && Through(db, t.id, hop) && Alias(hop, c) in db.aliases
  }

  lemma IdsOrNone(db: Db, now: int, rows: seq<Row>, ids: set<int>)
    requires (forall r :: r in rows <==> r in AvailableRows(db, now)) && IdsAre(ids, rows)
    ensures ids == {} <==> !AnyCluster(db, now)
  {
    forall c | c in ids ensures AnyCluster(db, now) {
      var r :| r in rows && r.cluster == Some(c);
      FreshIff(db, now, r.dst, r.hop);
      assert Alias(r.hop, c) in db.aliases;
    }
    if AnyCluster(db, now) {
      var t, hop, c :| t in db.traces && now - t.date <= 24 * 3600 && Through(db, t.id, hop) && Alias(hop, c) in db.aliases;
      FreshIff(db, now, t.dest, hop);
      var r := Row(t.dest, hop, Some(c));
      assert r in AvailableRows(db, now) && r in rows && r.cluster == Some(c);
      assert c in ids;
    }
  }

  /** GetAvailableHopAtlasPerSource: right after a load the index is the alias closure of the fresh hops. */
  method Load(db: Db, now: int, rowsFail: bool, aliasesFail: bool) returns (r: Result<Index>)
    ensures r.Ok? ==> IsClosure(r.value, db, now)
    ensures r.Err? <==> rowsFail || (aliasesFail && AnyCluster(db, now))
  {
    if rowsFail {
      return Err;
    }
    var rows := Enumerate(AvailableRows(db, now));
    var idx, clusters, ids := CollectRows(rows);
    IdsOrNone(db, now, rows, ids);
    if ids == {} {
      NoClusters(db, now, rows, idx, clusters, ids);
      return Ok(idx);
    }
    if aliasesFail {
      return Err;
    }
    var aliases := Enumerate(AliasRows(db, ids));
    var full := AddAliases(idx, clusters, aliases);
    forall d, a ensures InIndex(full, d, a) <==> Covered(db, now, d, a) {
      AliasesAreClosure(db, now, rows, clusters, ids, aliases, d, a);
    }
    return Ok(full);
  }

  /** The early return loses nothing. */
  lemma NoClusters(db: Db, now: int, rows: seq<Row>, idx: Index, clusters: map<uint32, set<int>>, ids: set<int>)
    requires forall r :: r in rows <==> r in AvailableRows(db, now)
    requires HopsAre(idx, rows) && ClustersAre(clusters, rows) && IdsAre(ids, rows) && ids == {}
    ensures IsClosure(idx, db, now)
  {
    forall d, a ensures InIndex(idx, d, a) <==> Covered(db, now, d, a) {
      AliasesAreClosure(db, now, rows, clusters, ids, [], d, a);
    }
  }
}
