/** Deciding from one merged listing whether a re-measured traceroute changed and still meets the intersection. */
module AtlasCompare {
  import opened Common

  type uint8 = x: int | 0 <= x < 256

  datatype Row = Row(id: int, hop: uint32, ttl: uint8)

  /** The last row of the old traceroute before n, or -1. */
  function LastOld(rows: seq<Row>, oldId: int, n: nat): (k: int)
    requires n <= |rows|
    ensures -1 <= k < n
    ensures k >= 0 ==> rows[k].id == oldId
    ensures forall i :: k < i < n ==> rows[i].id != oldId
  {
    if n == 0 then -1 else if rows[n - 1].id == oldId then n - 1 else LastOld(rows, oldId, n - 1)
  }

  /** What the loop remembers of the old traceroute before row n; it starts from a zero hop at TTL zero. */
  function Current(rows: seq<Row>, oldId: int, n: nat): (uint32, uint8)
    requires n <= |rows|
  {
    var k := LastOld(rows, oldId, n);
    if k < 0 then (0, 0) else (rows[k].hop, rows[k].ttl)
  }

  /** Row j belongs to the new traceroute and contradicts what is remembered of the old one. */
  predicate Differs(rows: seq<Row>, oldId: int, j: nat)
    requires j < |rows|
  {
    var (hop, ttl) := Current(rows, oldId, j);
    rows[j].id != oldId && rows[j].ttl == ttl && rows[j].hop != hop
  }

  method Compare(rows: seq<Row>, ip: uint32, oldId: int) returns (changed: bool, still: bool)
    ensures changed <==> exists j :: 0 <= j < |rows| && Differs(rows, oldId, j)
    ensures still <==> exists j :: 0 <= j < |rows| && rows[j].id != oldId && rows[j].hop == ip
  {
    changed, still := false, false;
    var hop: uint32, ttl: uint8 := 0, 0;
    var i := 0;
    while i < |rows|
      invariant 0 <= i <= |rows| && (hop, ttl) == Current(rows, oldId, i)
      invariant changed <==> exists j :: 0 <= j < i && Differs(rows, oldId, j)
      invariant still <==> exists j :: 0 <= j < i && rows[j].id != oldId && rows[j].hop == ip
    {
      if rows[i].id == oldId {
        hop, ttl := rows[i].hop, rows[i].ttl;
      } else {
        if rows[i].ttl == ttl && rows[i].hop != hop {
          assert Differs(rows, oldId, i);
          changed := true;
        }
        if rows[i].hop == ip {
          still := true;
        }
      }
      i := i + 1;
    }
  }

  // ---------- what the listing means ----------

  /** The order of the query: by TTL, then by traceroute. */
  predicate Before(a: Row, b: Row) {
    a.ttl < b.ttl || (a.ttl == b.ttl && a.id < b.id)
  }

  predicate Lists(rows: seq<Row>, id: int, hops: map<uint8, uint32>) {
    && (forall j :: 0 <= j < |rows| && rows[j].id == id ==> rows[j].ttl in hops && hops[rows[j].ttl] == rows[j].hop)
    && (forall t :: t in hops ==> Row(id, hops[t], t) in rows)
  }

  /** The rows of two traceroutes with one hop per TTL each, in the order of the query. */
  predicate Listing(rows: seq<Row>, oldId: int, newId: int, old': map<uint8, uint32>, new': map<uint8, uint32>) {
    && oldId != newId && Lists(rows, oldId, old') && Lists(rows, newId, new')
    && (forall j :: 0 <= j < |rows| ==> rows[j].id == oldId || rows[j].id == newId)
    && (forall i, j :: 0 <= i < j < |rows| ==> Before(rows[i], rows[j]))
  }

  /** The old traceroute comes first at equal TTLs: the loop then remembers its hop at the same TTL, if there is one. */
  lemma CurrentOldFirst(rows: seq<Row>, oldId: int, newId: int, old': map<uint8, uint32>, new': map<uint8, uint32>, j: nat)
    requires Listing(rows, oldId, newId, old', new') && oldId < newId && j < |rows| && rows[j].id == newId
    ensures var t := rows[j].ttl;
      Differs(rows, oldId, j) <==> if t in old' then old'[t] != rows[j].hop else t == 0 && rows[j].hop != 0
  {
    var t := rows[j].ttl;
    var k := LastOld(rows, oldId, j);
    if t in old' {
      var i :| 0 <= i < |rows| && rows[i] == Row(oldId, old'[t], t);
      assert i < j && i == k;
    } else if k >= 0 {
      assert Before(rows[k], rows[j]);
    }
  }

  /** The new traceroute comes first: whatever is remembered has a smaller TTL, or is the initial zero. */
  lemma CurrentNewFirst(rows: seq<Row>, oldId: int, newId: int, old': map<uint8, uint32>, new': map<uint8, uint32>, j: nat)
    requires Listing(rows, oldId, newId, old', new') && oldId > newId && j < |rows| && rows[j].id == newId
    ensures Differs(rows, oldId, j) <==> rows[j].ttl == 0 && rows[j].hop != 0
  {
    var k := LastOld(rows, oldId, j);
    if k >= 0 {
      assert Before(rows[k], rows[j]);
    }
  }

  ghost predicate Changed(rows: seq<Row>, oldId: int) {
    exists j :: 0 <= j < |rows| && Differs(rows, oldId, j)
  }

  /** A new traceroute that starts with a non-zero hop at TTL zero, where the old one has no row. */
  predicate OnlyNewStart(old': map<uint8, uint32>, new': map<uint8, uint32>) {
    0 in new' && new'[0] != 0 && 0 !in old'
  }

  ghost predicate SharedTtlDiffers(old': map<uint8, uint32>, new': map<uint8, uint32>) {
    exists t :: t in old' && t in new' && old'[t] != new'[t]
  }

  /** With the old id below the new one a change is reported exactly when some shared TTL has different hops, or the
      new traceroute alone has a first hop. */
  lemma ChangedOldFirst(rows: seq<Row>, oldId: int, newId: int, old': map<uint8, uint32>, new': map<uint8, uint32>)
    requires Listing(rows, oldId, newId, old', new') && oldId < newId
    ensures Changed(rows, oldId) <==> SharedTtlDiffers(old', new') || OnlyNewStart(old', new')
  {
    forall j | 0 <= j < |rows| && Differs(rows, oldId, j) ensures SharedTtlDiffers(old', new') || OnlyNewStart(old', new') {
      CurrentOldFirst(rows, oldId, newId, old', new', j);
    }
    if SharedTtlDiffers(old', new') {
      var t :| t in old' && t in new' && old'[t] != new'[t];
      var j :| 0 <= j < |rows| && rows[j] == Row(newId, new'[t], t);
      CurrentOldFirst(rows, oldId, newId, old', new', j);
    }
    if OnlyNewStart(old', new') {
      var j :| 0 <= j < |rows| && rows[j] == Row(newId, new'[0], 0);
      CurrentOldFirst(rows, oldId, newId, old', new', j);
    }
  }

  /** The new traceroute alone answers at TTL zero: a change is reported although the shared TTL agrees. */
  lemma ReportsNewStart() returns (rows: seq<Row>, old': map<uint8, uint32>, new': map<uint8, uint32>)
    ensures Listing(rows, 1, 2, old', new') && Changed(rows, 1) && !SharedTtlDiffers(old', new')
  {
    rows, old', new' := [Row(2, 7, 0), Row(1, 5, 1), Row(2, 5, 1)], map[1 := 5], map[0 := 7, 1 := 5];
    assert rows[0] in rows && rows[1] in rows && rows[2] in rows;
    assert Differs(rows, 1, 0);
  }

  /** Both traceroutes have a row for the source itself: the comparison is exactly the merge join it is meant to be. */
  lemma ChangedIsMergeJoin(rows: seq<Row>, oldId: int, newId: int, old': map<uint8, uint32>, new': map<uint8, uint32>)
    requires Listing(rows, oldId, newId, old', new') && oldId < newId && 0 in old' && 0 in new'
    ensures Changed(rows, oldId) <==> SharedTtlDiffers(old', new')
  {
    ChangedOldFirst(rows, oldId, newId, old', new');
  }

  /** With the old id above the new one no shared TTL is ever compared. */
  lemma ChangedNewFirst(rows: seq<Row>, oldId: int, newId: int, old': map<uint8, uint32>, new': map<uint8, uint32>)
    requires Listing(rows, oldId, newId, old', new') && oldId > newId
    ensures Changed(rows, oldId) <==> 0 in new' && new'[0] != 0
  {
    forall j | 0 <= j < |rows| && Differs(rows, oldId, j) ensures 0 in new' && new'[0] != 0 {
      CurrentNewFirst(rows, oldId, newId, old', new', j);
    }
    if 0 in new' && new'[0] != 0 {
      var j :| 0 <= j < |rows| && rows[j] == Row(newId, new'[0], 0);
      CurrentNewFirst(rows, oldId, newId, old', new', j);
    }
  }

  /** The old id is the larger one: hops that differ at the same TTL are not reported. */
  lemma MissesChange() returns (rows: seq<Row>, old': map<uint8, uint32>, new': map<uint8, uint32>)
    ensures Listing(rows, 2, 1, old', new') && SharedTtlDiffers(old', new') && !Changed(rows, 2)
  {
    rows, old', new' := [Row(1, 6, 1), Row(2, 5, 1)], map[1 := 5], map[1 := 6];
    assert rows[0] in rows && rows[1] in rows;
    assert 1 in old' && 1 in new';
    ChangedNewFirst(rows, 2, 1, old', new');
  }

  /** The answer to "does it still intersect" is whether the new traceroute has the address, in either order. */
  lemma StillIntersects(rows: seq<Row>, ip: uint32, oldId: int, newId: int, old': map<uint8, uint32>, new': map<uint8, uint32>)
    requires Listing(rows, oldId, newId, old', new')
    ensures (exists j :: 0 <= j < |rows| && rows[j].id != oldId && rows[j].hop == ip) <==> exists t :: t in new' && new'[t] == ip
  {
    if t :| t in new' && new'[t] == ip {
      assert Row(newId, ip, t) in rows;
    }
  }
}
