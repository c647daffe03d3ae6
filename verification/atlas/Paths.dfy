/** How a path to the destination is cut out of the rows of a stored traceroute. */
module AtlasPaths {
  import opened AtlasHopIndex
  import opened Common

  /** One row of a traceroute; the queries return them ordered by TTL. */
  datatype HopRow = HopRow(hop: uint32, ttl: uint32)

  datatype PathHop = PathHop(ip: uint32, ttl: uint32, between: bool)

  datatype Path = Path(hops: seq<PathHop>, address: uint32, distance: uint32)

  predicate Ordered(rows: seq<HopRow>) {
    forall i, j :: 0 <= i < j < |rows| ==> rows[i].ttl <= rows[j].ttl
  }

  /** Subtraction of Go's uint32. */
  function Sub32(a: uint32, b: uint32): uint32 {
    if a >= b then a - b else a - b + 0x1_0000_0000
  }

  function Add32(a: uint32, b: uint32): uint32 {
    if a + b < 0x1_0000_0000 then a + b else a + b - 0x1_0000_0000
  }

  // ---------- the suffix from a hop ----------

  /** The first row whose hop is in `ips`, or |rows|. */
  function FirstIn(rows: seq<HopRow>, ips: set<uint32>): (k: nat)
    ensures k <= |rows|
    ensures forall i :: 0 <= i < k ==> rows[i].hop !in ips
    ensures k < |rows| ==> rows[k].hop in ips
  {
    if rows == [] || rows[0].hop in ips then 0 else 1 + FirstIn(rows[1..], ips)
  }

  /** The last row before n whose hop is x, or -1. */
  function LastBefore(rows: seq<HopRow>, x: uint32, n: nat): (k: int)
    requires n <= |rows|
    ensures -1 <= k < n
    ensures k >= 0 ==> rows[k].hop == x
    ensures forall i :: k < i < n ==> rows[i].hop != x
  {
    if n == 0 then -1 else if rows[n - 1].hop == x then n - 1 else LastBefore(rows, x, n - 1)
  }

  function Exact(rows: seq<HopRow>): (hops: seq<PathHop>)
    ensures |hops| == |rows| && forall i :: 0 <= i < |rows| ==> hops[i] == PathHop(rows[i].hop, rows[i].ttl, false)
  {
    seq(|rows|, i requires 0 <= i < |rows| => PathHop(rows[i].hop, rows[i].ttl, false))
  }

  /** TTLs from the last matched row up to the last row of the destination; 0 when the destination is not on the path. */
  function Distance(rows: seq<HopRow>, x: uint32, dest: uint32, n: nat): uint32
    requires n <= |rows|
  {
    var d := LastBefore(rows, dest, n);
    var m := LastBefore(rows, x, d + 1);
    if d < 0 || m < 0 then 0 else Sub32(rows[d].ttl, rows[m].ttl)
  }

  lemma DistanceOne(rows: seq<HopRow>, x: uint32, dest: uint32, i: nat)
    requires i < |rows|
    ensures rows[i].hop != dest ==> Distance(rows, x, dest, i + 1) == Distance(rows, x, dest, i)
    ensures rows[i].hop == dest ==> var m := LastBefore(rows, x, i + 1);
      Distance(rows, x, dest, i + 1) == if m < 0 then 0 else Sub32(rows[i].ttl, rows[m].ttl)
  {
  }

  lemma NoMatchYet(rows: seq<HopRow>, x: uint32, i: nat)
    requires i <= FirstIn(rows, {x})
    ensures LastBefore(rows, x, i) == -1
  {
  }

  lemma ExactOne(rows: seq<HopRow>, k: nat, i: nat)
    requires k <= i < |rows|
    ensures Exact(rows[k..i + 1]) == Exact(rows[k..i]) + [PathHop(rows[i].hop, rows[i].ttl, false)]
  {
  }

  /** The hops collected from the first i rows. */
  function HopsSoFar(rows: seq<HopRow>, ips: set<uint32>, i: nat): seq<PathHop>
    requires i <= |rows|
  {
    var first := FirstIn(rows, ips);
    if first < i then Exact(rows[first..i]) else []
  }

  lemma HopsOne(rows: seq<HopRow>, ips: set<uint32>, i: nat)
    requires i < |rows|
    ensures HopsSoFar(rows, ips, i + 1) == if FirstIn(rows, ips) <= i
      then HopsSoFar(rows, ips, i) + [PathHop(rows[i].hop, rows[i].ttl, false)] else []
    ensures FirstIn(rows, ips) >= i ==> HopsSoFar(rows, ips, i) == []
    ensures rows[i].hop in ips ==> FirstIn(rows, ips) <= i
    ensures FirstIn(rows, ips) == i ==> rows[i].hop in ips
  {
    if FirstIn(rows, ips) <= i {
      ExactOne(rows, FirstIn(rows, ips), i);
    }
  }

  lemma HopsAll(rows: seq<HopRow>, ips: set<uint32>)
    ensures HopsSoFar(rows, ips, |rows|) == PathFrom(rows, ips)
    ensures HopsSoFar(rows, ips, |rows|) == [] <==> FirstIn(rows, ips) == |rows|
  {
    assert rows[FirstIn(rows, ips)..] == rows[FirstIn(rows, ips)..|rows|];
  }

  function PathFrom(rows: seq<HopRow>, ips: set<uint32>): seq<PathHop> {
    Exact(rows[FirstIn(rows, ips)..])
  }

  function MatchTtl(rows: seq<HopRow>, x: uint32, n: nat): uint32
    requires n <= |rows|
  {
    var m := LastBefore(rows, x, n);
    if m < 0 then 0 else rows[m].ttl
  }

  /** One row: the TTL of the last match, and the distance. */
  lemma RowOne(rows: seq<HopRow>, x: uint32, dest: uint32, i: nat)
    requires i < |rows|
    ensures MatchTtl(rows, x, i + 1) == if rows[i].hop == x then rows[i].ttl else MatchTtl(rows, x, i)
    ensures Distance(rows, x, dest, i + 1) == if rows[i].hop == dest && FirstIn(rows, {x}) <= i
      then Sub32(rows[i].ttl, MatchTtl(rows, x, i + 1)) else Distance(rows, x, dest, i)
  {
    DistanceOne(rows, x, dest, i);
    if FirstIn(rows, {x}) > i {
      NoMatchYet(rows, x, i + 1);
      NoMatchYet(rows, x, LastBefore(rows, dest, i) + 1);
    }
  }

  /** One row of the loop, when x can match at all. */
  lemma PathOne(rows: seq<HopRow>, x: uint32, dest: uint32, i: nat)
    requires i < |rows|
    ensures var after, xTtl := FirstIn(rows, {x}) <= i, if rows[i].hop == x then rows[i].ttl else MatchTtl(rows, x, i);
      && (after <==> FirstIn(rows, {x}) < i || rows[i].hop == x)
      && MatchTtl(rows, x, i + 1) == xTtl
      && HopsSoFar(rows, {x}, i + 1) == (if after
           then HopsSoFar(rows, {x}, i) + [PathHop(rows[i].hop, rows[i].ttl, false)] else HopsSoFar(rows, {x}, i))
      && Distance(rows, x, dest, i + 1) == (if after && rows[i].hop == dest
           then Sub32(rows[i].ttl, xTtl) else Distance(rows, x, dest, i))
  {
    RowOne(rows, x, dest, i);
    HopsOne(rows, {x}, i);
  }

  /** The variables of the loop after n rows. */
  datatype Scan = Scan(after: bool, xTtl: uint32, hops: seq<PathHop>, distance: uint32)

  function Next(s: Scan, row: HopRow, x: uint32, dest: uint32): Scan {
    var after := s.after || (row.hop == x && x != 0);
    var xTtl := if row.hop == x && x != 0 then row.ttl else s.xTtl;
    if !after then Scan(after, xTtl, s.hops, s.distance)
    else Scan(after, xTtl, s.hops + [PathHop(row.hop, row.ttl, false)],
              if row.hop == dest then Sub32(row.ttl, xTtl) else s.distance)
  }

  function Scanned(rows: seq<HopRow>, x: uint32, dest: uint32, n: nat): Scan
    requires n <= |rows|
  {
    if n == 0 then Scan(false, 0, [], 0) else Next(Scanned(rows, x, dest, n - 1), rows[n - 1], x, dest)
  }

  lemma {:induction false} ScannedIs(rows: seq<HopRow>, x: uint32, dest: uint32, n: nat)
    requires n <= |rows| && x != 0
    ensures Scanned(rows, x, dest, n)
         == Scan(FirstIn(rows, {x}) < n, MatchTtl(rows, x, n), HopsSoFar(rows, {x}, n), Distance(rows, x, dest, n))
  {
    if n > 0 {
      ScannedIs(rows, x, dest, n - 1);
      PathOne(rows, x, dest, n - 1);
    }
  }

  lemma {:induction false} ZeroNeverMatches(rows: seq<HopRow>, dest: uint32, n: nat)
    requires n <= |rows|
    ensures Scanned(rows, 0, dest, n) == Scan(false, 0, [], 0)
  {
    if n > 0 {
      ZeroNeverMatches(rows, dest, n - 1);
    }
  }

  /** The hops are the rows from the first one that is in `ips` to the end, none of them marked. */
  ghost predicate EndsFrom(rows: seq<HopRow>, ips: set<uint32>, hops: seq<PathHop>) {
    && 0 < |hops| <= |rows| && rows[|rows| - |hops|].hop in ips
    && (forall i :: 0 <= i < |rows| - |hops| ==> rows[i].hop !in ips)
    && (forall j :: 0 <= j < |hops| ==>
         var row := rows[|rows| - |hops| + j]; hops[j] == PathHop(row.hop, row.ttl, false))
  }

  lemma PathFromEnds(rows: seq<HopRow>, ips: set<uint32>)
    requires FirstIn(rows, ips) < |rows|
    ensures EndsFrom(rows, ips, PathFrom(rows, ips))
  {
  }

  /** The row loop of FindIntersectingTraceroute without record route: x is the matched address. */
  method FindPath(rows: seq<HopRow>, x: uint32, dest: uint32) returns (r: Result<Path>)
    ensures r.Ok? <==> x != 0 && FirstIn(rows, {x}) < |rows|
    ensures r.Ok? ==> r.value == Path(PathFrom(rows, {x}), x, Distance(rows, x, dest, |rows|))
    ensures r.Ok? ==> EndsFrom(rows, {x}, r.value.hops)
  {
    var hops, address, distance := ScanRows(rows, x, dest);
    if x == 0 {
      ZeroNeverMatches(rows, dest, |rows|);
    } else {
      ScannedIs(rows, x, dest, |rows|);
      HopsAll(rows, {x});
      if FirstIn(rows, {x}) < |rows| {
        PathFromEnds(rows, {x});
      }
    }
    return if |hops| == 0 then Err else Ok(Path(hops, address, distance));
  }

  method ScanRows(rows: seq<HopRow>, x: uint32, dest: uint32)
    returns (hops: seq<PathHop>, address: uint32, distance: uint32)
    ensures hops == Scanned(rows, x, dest, |rows|).hops && distance == Scanned(rows, x, dest, |rows|).distance
    ensures hops != [] ==> address == x
  {
    var after, xTtl: uint32 := false, 0;
    hops, address, distance := [], 0, 0;
    var i := 0;
    while i < |rows|
      invariant 0 <= i <= |rows| && Scan(after, xTtl, hops, distance) == Scanned(rows, x, dest, i)
      invariant hops != [] ==> address == x
    {
      var row := rows[i];
      if row.hop == x && x != 0 {
        after, xTtl := true, row.ttl;
      }
      if after {
        hops, address := hops + [PathHop(row.hop, row.ttl, false)], x;
        if row.hop == dest {
          distance := Sub32(row.ttl, xTtl);
        }
      }
      i := i + 1;
    }
  }

  /** For rows ordered by TTL the subtraction never wraps: it is the TTL difference between the last row of the
      destination and the last matched row before it. */
  lemma DistanceNeverWraps(rows: seq<HopRow>, x: uint32, dest: uint32)
    requires Ordered(rows)
    ensures var d := LastBefore(rows, dest, |rows|);
      var m := LastBefore(rows, x, d + 1);
      Distance(rows, x, dest, |rows|) == if d < 0 || m < 0 then 0 else rows[d].ttl - rows[m].ttl
  {
  }

  // ---------- the chosen traceroute, fetched again ----------

  /** getAlias */
  function GetAlias(db: Db, ip: uint32): set<uint32> {
    set a, b | a in db.aliases && b in db.aliases && a.ip == ip && b.cluster == a.cluster :: b.ip
  }

  /** The addresses both queries take for ip itself: Z in findIntersecting, the alias set of CheckIntersectingPath. */
  function SameRouter(db: Db, ip: uint32): set<uint32> {
    {ip} + GetAlias(db, ip)
  }

  lemma SameRouterIs(db: Db, ip: uint32, a: uint32)
    ensures a in SameRouter(db, ip) <==> a == ip || Aliased(db, ip, a)
  {
    if Aliased(db, ip, a) {
      var c :| Alias(ip, c) in db.aliases && Alias(a, c) in db.aliases;
      assert Alias(ip, c).ip == ip && Alias(a, c).cluster == Alias(ip, c).cluster;
    }
    if a in GetAlias(db, ip) {
      var x, y :| x in db.aliases && y in db.aliases && x.ip == ip && y.cluster == x.cluster && y.ip == a;
      assert x == Alias(ip, x.cluster) && y == Alias(a, x.cluster);
    }
  }

  /** Find marks no hop when a record-route hop is placed on one TTL (`strict`); Check marks that TTL too. */
  predicate Between(start: uint32, end: uint32, ttl: uint32, strict: bool) {
    start <= ttl <= end && !(strict && start == end)
  }

  /** The hops that are not before the record-route hop. */
  function Kept(rows: seq<HopRow>, start: uint32, end: uint32, strict: bool): seq<PathHop> {
    if rows == [] then []
    else
      var before, row := Kept(rows[..|rows| - 1], start, end, strict), rows[|rows| - 1];
      if row.ttl < start then before else before + [PathHop(row.hop, row.ttl, Between(start, end, row.ttl, strict))]
  }

  lemma KeptOne(rows: seq<HopRow>, i: nat, start: uint32, end: uint32, strict: bool)
    requires i < |rows|
    ensures Kept(rows[..i + 1], start, end, strict) == if rows[i].ttl < start then Kept(rows[..i], start, end, strict)
      else Kept(rows[..i], start, end, strict) + [PathHop(rows[i].hop, rows[i].ttl, Between(start, end, rows[i].ttl, strict))]
  {
    assert rows[..i + 1][..i] == rows[..i];
  }

  /** Of the hops kept, which are at `start` or behind it, exactly those at or before `end` are marked; with `strict`
      none is when the two are equal. */
  lemma {:induction false} KeptMarks(rows: seq<HopRow>, start: uint32, end: uint32, strict: bool)
    ensures forall h :: h in Kept(rows, start, end, strict) ==>
      && start <= h.ttl && HopRow(h.ip, h.ttl) in rows
      && (h.between <==> h.ttl <= end && (strict ==> start != end))
    ensures Kept(rows, start, end, strict) == [] <==> forall i :: 0 <= i < |rows| ==> rows[i].ttl < start
  {
    if rows != [] {
      KeptMarks(rows[..|rows| - 1], start, end, strict);
    }
  }

  method Aliases(db: Db, ip: uint32) returns (aliases: set<uint32>)
    ensures aliases == SameRouter(db, ip)
  {
    var found := Enumerate(GetAlias(db, ip));
    aliases := {ip};
    var i := 0;
    while i < |found|
      invariant 0 <= i <= |found| && aliases == {ip} + set a | a in found[..i]
    {
      assert found[..i + 1] == found[..i] + [found[i]];
      aliases := aliases + {found[i]};
      i := i + 1;
    }
    assert found[..i] == found;
  }

  /** CheckIntersectingPath: `rows` are the hops of the traceroute, `rr` the record-route row if there is one. */
  method CheckPath(db: Db, ip: uint32, rows: seq<HopRow>, rr: Option<(uint32, uint32)>) returns (r: Option<seq<PathHop>>)
    ensures var k := FirstIn(rows, SameRouter(db, ip));
      r == if k < |rows| then Some(PathFrom(rows, SameRouter(db, ip)))
           else if rr.Some? then Some(Kept(rows, rr.value.0, rr.value.1, false))
           else None
    ensures r.Some? && FirstIn(rows, SameRouter(db, ip)) < |rows| ==> EndsFrom(rows, SameRouter(db, ip), r.value)
    ensures r.Some? && FirstIn(rows, SameRouter(db, ip)) == |rows| ==> forall h :: h in r.value ==>
      rr.value.0 <= h.ttl && (h.between <==> h.ttl <= rr.value.1)
  {
    var aliases := Aliases(db, ip);
    var hops := SuffixFrom(rows, aliases);
    if |hops| > 0 {
      PathFromEnds(rows, aliases);
      return Some(hops);
    }
    if rr.Some? {
      var kept := KeepFrom(rows, rr.value.0, rr.value.1, false);
      KeptMarks(rows, rr.value.0, rr.value.1, false);
      return Some(kept);
    }
    return None;
  }

  method SuffixFrom(rows: seq<HopRow>, aliases: set<uint32>) returns (hops: seq<PathHop>)
    ensures hops == PathFrom(rows, aliases)
    ensures hops == [] <==> FirstIn(rows, aliases) == |rows|
  {
    var after := false;
    hops := [];
    var i := 0;
    while i < |rows|
      invariant 0 <= i <= |rows| && (after <==> FirstIn(rows, aliases) < i)
      invariant hops == HopsSoFar(rows, aliases, i)
    {
      HopsOne(rows, aliases, i);
      if rows[i].hop in aliases {
        after := true;
      }
      if after {
        hops := hops + [PathHop(rows[i].hop, rows[i].ttl, false)];
      }
      i := i + 1;
    }
    HopsAll(rows, aliases);
  }

  method KeepFrom(rows: seq<HopRow>, start: uint32, end: uint32, strict: bool) returns (hops: seq<PathHop>)
    ensures hops == Kept(rows, start, end, strict)
  {
    hops := [];
    var i := 0;
    while i < |rows|
      invariant 0 <= i <= |rows| && hops == Kept(rows[..i], start, end, strict)
    {
      KeptOne(rows, i, start, end, strict);
      if rows[i].ttl >= start {
        hops := hops + [PathHop(rows[i].hop, rows[i].ttl, Between(start, end, rows[i].ttl, strict))];
      }
      i := i + 1;
    }
    assert rows[..i] == rows;
  }

  // ---------- how the two agree ----------

  predicate Suffix(a: seq<PathHop>, b: seq<PathHop>) {
    |a| <= |b| && a == b[|b| - |a|..]
  }

  lemma {:induction false} SuffixOfSuffix(rows: seq<HopRow>, j: nat, k: nat)
    requires j <= k < |rows|
    ensures Suffix(Exact(rows[k..]), Exact(rows[j..]))
    ensures Exact(rows[k..]) == Exact(rows[j..]) ==> k == j
  {
  }

  lemma {:induction false} FirstMatch(rows: seq<HopRow>, ips: set<uint32>, x: uint32)
    requires x in ips && exists i :: 0 <= i < |rows| && rows[i].hop == x
    ensures FirstIn(rows, ips) <= FirstIn(rows, {x}) < |rows|
    ensures rows[FirstIn(rows, ips)].hop == x <==> FirstIn(rows, ips) == FirstIn(rows, {x})
  {
    assert rows[FirstIn(rows, {x})].hop == x;
  }

  /** For one traceroute and one query address: the path found is a suffix of the path Check returns, and the whole of
      it exactly when the first row of the address's router is the matched address. */
  lemma {:induction false} FoundIsSuffixOfChecked(db: Db, ip: uint32, rows: seq<HopRow>, x: uint32)
    requires x in SameRouter(db, ip) && exists i :: 0 <= i < |rows| && rows[i].hop == x
    ensures Suffix(PathFrom(rows, {x}), PathFrom(rows, SameRouter(db, ip)))
    ensures var j := FirstIn(rows, SameRouter(db, ip));
      j < |rows| && (PathFrom(rows, {x}) == PathFrom(rows, SameRouter(db, ip)) <==> rows[j].hop == x)
  {
    FirstMatch(rows, SameRouter(db, ip), x);
    SuffixOfSuffix(rows, FirstIn(rows, SameRouter(db, ip)), FirstIn(rows, {x}));
  }

  /** When a single address of the router is on the traceroute the two paths are equal. */
  lemma {:induction false} OneAliasSamePath(db: Db, ip: uint32, rows: seq<HopRow>, x: uint32)
    requires x in SameRouter(db, ip) && exists i :: 0 <= i < |rows| && rows[i].hop == x
    requires forall i :: 0 <= i < |rows| && rows[i].hop in SameRouter(db, ip) ==> rows[i].hop == x
    ensures PathFrom(rows, {x}) == PathFrom(rows, SameRouter(db, ip))
  {
    FoundIsSuffixOfChecked(db, ip, rows, x);
  }

  // ---------- record-route intersections ----------

  /** The last kept row of the destination before n, or -1. */
  function LastKept(rows: seq<HopRow>, dest: uint32, start: uint32, n: nat): (k: int)
    requires n <= |rows|
    ensures -1 <= k < n
    ensures k >= 0 ==> rows[k].hop == dest && rows[k].ttl >= start
    ensures forall i :: k < i < n ==> rows[i].hop != dest || rows[i].ttl < start
  {
    if n == 0 then -1
    else if rows[n - 1].hop == dest && rows[n - 1].ttl >= start then n - 1
    else LastKept(rows, dest, start, n - 1)
  }

  /** The place the record-route hop is given: the middle of the TTLs it lies between. */
  function Middle(start: uint32, end: uint32): uint32 {
    Add32(start, end) / 2
  }

  function RRDistance(rows: seq<HopRow>, dest: uint32, start: uint32, end: uint32, n: nat): uint32
    requires n <= |rows|
  {
    var d := LastKept(rows, dest, start, n);
    if d < 0 then 0 else Sub32(rows[d].ttl, Middle(start, end))
  }

  /** The row loop of FindIntersectingTraceroute with record route: addr itself goes in front of the kept hops. */
  method FindRRPath(rows: seq<HopRow>, addr: uint32, dest: uint32, start: uint32, end: uint32) returns (r: Result<Path>)
    ensures var kept := Kept(rows, start, end, true);
      r == if kept == [] then Err
           else Ok(Path([PathHop(addr, kept[0].ttl, kept[0].between)] + kept, addr, RRDistance(rows, dest, start, end, |rows|)))
    ensures r.Err? <==> forall i :: 0 <= i < |rows| ==> rows[i].ttl < start
    ensures r.Ok? ==>
      && r.value.address == addr && |r.value.hops| > 1 && r.value.hops[0].ip == addr
      && (forall h :: h in r.value.hops ==> start <= h.ttl && (h.between <==> start != end && h.ttl <= end))
      && (forall j :: 1 <= j < |r.value.hops| ==> HopRow(r.value.hops[j].ip, r.value.hops[j].ttl) in rows)
  {
    var hops: seq<PathHop>, distance: uint32, address: uint32 := [], 0, 0;
    var i := 0;
    while i < |rows|
      invariant 0 <= i <= |rows|
      invariant distance == RRDistance(rows, dest, start, end, i)
      invariant var kept := Kept(rows[..i], start, end, true);
        if kept == [] then hops == [] else hops == [PathHop(addr, kept[0].ttl, kept[0].between)] + kept && address == addr
    {
      var row := rows[i];
      KeptOne(rows, i, start, end, true);
      if row.ttl >= start {
        var between := start != end && start <= row.ttl <= end;
        if |hops| == 0 {
          hops := [PathHop(addr, row.ttl, between)];
        }
        hops, address := hops + [PathHop(row.hop, row.ttl, between)], addr;
        if row.hop == dest {
          distance := Sub32(row.ttl, Middle(start, end));
        }
      }
      i := i + 1;
    }
    assert rows[..i] == rows;
    KeptMarks(rows, start, end, true);
    return if |hops| == 0 then Err else Ok(Path(hops, address, distance));
  }

  lemma Sub32Is(a: uint32, b: uint32)
    ensures Sub32(a, b) == (a - b) % 0x1_0000_0000
  {
  }

  lemma Add32Is(a: uint32, b: uint32)
    ensures Add32(a, b) == (a + b) % 0x1_0000_0000
  {
  }

  /** The distance of a record-route path counts, in 32 bits, from the middle of the segment to the last row of the
      destination that is not before the segment; it is 0 when there is none. */
  lemma RRDistanceIs(rows: seq<HopRow>, dest: uint32, start: uint32, end: uint32, d: nat)
    requires d < |rows| ==> rows[d].hop == dest && rows[d].ttl >= start
    requires forall i :: 0 <= i < |rows| && rows[i].hop == dest && rows[i].ttl >= start ==> i <= d < |rows|
    ensures RRDistance(rows, dest, start, end, |rows|)
         == if d < |rows| then (rows[d].ttl - (start + end) % 0x1_0000_0000 / 2) % 0x1_0000_0000 else 0
  {
    Add32Is(start, end);
    if d < |rows| {
      assert LastKept(rows, dest, start, |rows|) == d;
      Sub32Is(rows[d].ttl, Middle(start, end));
    }
  }

  /** What is stored for a record-route hop: it lies between two rows of a traceroute. */
  ghost predicate BetweenRows(rows: seq<HopRow>, start: uint32, end: uint32) {
    && Ordered(rows) && start <= end && start + end < 0x1_0000_0000
    && (exists i :: 0 <= i < |rows| && rows[i].ttl == start)
    && (exists i :: 0 <= i < |rows| && rows[i].ttl == end)
  }

  lemma MiddleIs(start: uint32, end: uint32)
    requires start <= end && start + end < 0x1_0000_0000
    ensures Middle(start, end) == start + (end - start) / 2 && start <= Middle(start, end) <= end
  {
  }

  /** The distance counts from the middle of the segment exactly when the destination is at least half the segment
      behind its start. Otherwise it lies strictly inside, some later row ends the segment, and the distance is within
      half a segment of 2^32. */
  lemma RRDistanceIff(rows: seq<HopRow>, dest: uint32, start: uint32, end: uint32)
    requires BetweenRows(rows, start, end) && LastKept(rows, dest, start, |rows|) >= 0
    ensures var d, distance := LastKept(rows, dest, start, |rows|), RRDistance(rows, dest, start, end, |rows|);
      && (distance == rows[d].ttl - (start + (end - start) / 2) <==> rows[d].ttl - start >= (end - start) / 2)
      && (rows[d].ttl - start < (end - start) / 2 ==>
            distance >= 0x1_0000_0000 - (end - start) / 2 && exists i :: d < i < |rows| && rows[i].ttl == end)
  {
    MiddleIs(start, end);
    var d := LastKept(rows, dest, start, |rows|);
    var i :| 0 <= i < |rows| && rows[i].ttl == end;
    if i <= d {
      assert rows[i].ttl <= rows[d].ttl;
    }
  }

  /** On a traceroute that ends at its destination the distance is always right. */
  lemma DestinationLastIsRight(rows: seq<HopRow>, dest: uint32, start: uint32, end: uint32)
    requires BetweenRows(rows, start, end) && rows[|rows| - 1].hop == dest
    ensures RRDistance(rows, dest, start, end, |rows|) == rows[|rows| - 1].ttl - (start + (end - start) / 2)
  {
    MiddleIs(start, end);
    var i :| 0 <= i < |rows| && rows[i].ttl == end;
    assert rows[i].ttl <= rows[|rows| - 1].ttl;
  }

  /** The destination answers at TTL 2 and again nowhere, in the first half of a segment from TTL 1 to 6. */
  lemma RRDistanceWraps() returns (rows: seq<HopRow>, dest: uint32, start: uint32, end: uint32)
    ensures BetweenRows(rows, start, end) && RRDistance(rows, dest, start, end, |rows|) == 0xFFFF_FFFF
  {
    rows, dest, start, end := [HopRow(5, 1), HopRow(9, 2), HopRow(8, 6)], 9, 1, 6;
    assert rows[0].ttl == 1 && rows[2].ttl == 6;
    assert LastKept(rows, dest, start, 3) == LastKept(rows, dest, start, 2) == 1;
  }

  /** A record-route hop on TTL 2 alone: only the path check marks the hop there. */
  lemma RRPathsDiffer() returns (rows: seq<HopRow>, start: uint32, end: uint32)
    ensures BetweenRows(rows, start, end) && Kept(rows, start, end, true) != Kept(rows, start, end, false)
  {
    rows, start, end := [HopRow(5, 2)], 2, 2;
    assert rows[0].ttl == 2;
    RRPathsAgreeIff(rows, start, end);
  }

  /** With rows ordered by TTL the kept hops are the end of the traceroute, from the first row not before `start`. */
  lemma {:induction false} KeptIsSuffix(rows: seq<HopRow>, start: uint32, end: uint32, strict: bool)
    requires Ordered(rows)
    ensures var kept := Kept(rows, start, end, strict);
      && |kept| <= |rows|
      && (forall i :: 0 <= i < |rows| - |kept| ==> rows[i].ttl < start)
      && (forall i :: |rows| - |kept| <= i < |rows| ==> rows[i].ttl >= start)
      && (forall i :: |rows| - |kept| <= i < |rows| ==>
            kept[i - (|rows| - |kept|)]
              == PathHop(rows[i].hop, rows[i].ttl, rows[i].ttl <= end && (strict ==> start != end)))
  {
    if rows != [] {
      KeptIsSuffix(rows[..|rows| - 1], start, end, strict);
    }
  }

  /** The path found and the path Check returns mark the same hops, unless the record-route hop sits on a single TTL
      that the traceroute has. */
  lemma {:induction false} RRPathsAgreeIff(rows: seq<HopRow>, start: uint32, end: uint32)
    ensures Kept(rows, start, end, true) == Kept(rows, start, end, false)
      <==> start != end || forall i :: 0 <= i < |rows| ==> rows[i].ttl != start
  {
    if rows != [] {
      var front, row := rows[..|rows| - 1], rows[|rows| - 1];
      RRPathsAgreeIff(front, start, end);
      SameLength(front, start, end);
      var a, b := Kept(front, start, end, true), Kept(front, start, end, false);
      AppendDiffers(a, b, PathHop(row.hop, row.ttl, Between(start, end, row.ttl, true)),
                    PathHop(row.hop, row.ttl, Between(start, end, row.ttl, false)));
      assert forall i :: 0 <= i < |front| ==> rows[i] == front[i];
    }
  }

  lemma AppendDiffers<T>(a: seq<T>, b: seq<T>, x: T, y: T)
    requires |a| == |b|
    ensures a + [x] == b + [y] <==> a == b && x == y
  {
    if a + [x] == b + [y] {
      assert a == (a + [x])[..|a|] && b == (b + [y])[..|b|];
      assert (a + [x])[|a|] == (b + [y])[|b|];
    }
  }

  lemma {:induction false} SameLength(rows: seq<HopRow>, start: uint32, end: uint32)
    ensures |Kept(rows, start, end, true)| == |Kept(rows, start, end, false)|
  {
    if rows != [] {
      SameLength(rows[..|rows| - 1], start, end);
    }
  }
}
