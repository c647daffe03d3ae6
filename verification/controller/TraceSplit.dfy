/** How doTraceroute splits a request: what the cache or the database answers is not measured, the rest is. */
module TraceSplit {
  import opened Common
  import opened CacheKeys

  datatype Measurement = Measurement(src: uint32, dst: uint32, checkCache: bool, checkDb: bool, ripe: bool, options: nat)

  datatype Service = RipeAtlas | PlanetLab

  /** A stored traceroute, and whether the client is told that it was cached. */
  datatype Answer = Answer(body: nat, fromCache: bool)

  type Answers = map<string, Answer>

  /** Where the answers for a stage are looked up; one lookup may find, miss or fail for any key. */
  datatype Stage = InCache | InDb

  /** What is sent back for an answer found: cached ones are marked. */
  function Sent(stage: Stage, a: Answer): Answer {
    if stage.InCache? then a.(fromCache := true) else a
  }

  function KeyOf(m: Measurement): string {
    PairKey("XXTR", m.src, m.dst)
  }

  predicate Asks(stage: Stage, m: Measurement) {
    if stage.InCache? then m.checkCache else m.checkDb
  }

  ghost predicate HasKey(ms: seq<Measurement>, key: string) {
    exists m :: m in ms && KeyOf(m) == key
  }

  function CountKey(ms: seq<Measurement>, key: string): nat {
    if ms == [] then 0 else CountKey(ms[..|ms| - 1], key) + (if KeyOf(ms[|ms| - 1]) == key then 1 else 0)
  }

  // ---------- one stage ----------

  type ByKey = map<string, Measurement>

  /** m is the last of the measurements of its key that ask. */
  ghost predicate LastAsking(stage: Stage, ms: seq<Measurement>, m: Measurement) {
    exists i :: 0 <= i < |ms| && ms[i] == m && Asks(stage, m)
      && forall j :: i < j < |ms| && Asks(stage, ms[j]) ==> KeyOf(ms[j]) != KeyOf(m)
  }

  /** After some of the measurements: those that do not ask are kept as they are, the others by key. */
  ghost predicate Parted(stage: Stage, ms: seq<Measurement>, rest: seq<Measurement>, kept: ByKey) {
    && (forall x :: !Asks(stage, x) ==> multiset(rest)[x] == multiset(ms)[x])
    && (forall x :: x in rest ==> !Asks(stage, x))
    && (forall key :: key in kept ==> KeyOf(kept[key]) == key && LastAsking(stage, ms, kept[key]))
    && (forall m :: m in ms && Asks(stage, m) ==> KeyOf(m) in kept)
  }

  lemma AddOne(ms: seq<Measurement>, m: Measurement, x: Measurement)
    ensures multiset(ms + [m])[x] == multiset(ms)[x] + if x == m then 1 else 0
  {
  }

  lemma StillLast(stage: Stage, ms: seq<Measurement>, x: Measurement, m: Measurement)
    requires LastAsking(stage, ms, x) && (Asks(stage, m) ==> KeyOf(x) != KeyOf(m))
    ensures LastAsking(stage, ms + [m], x)
  {
    var i :| 0 <= i < |ms| && ms[i] == x && Asks(stage, x)
      && forall j :: i < j < |ms| && Asks(stage, ms[j]) ==> KeyOf(ms[j]) != KeyOf(x);
    assert (ms + [m])[i] == x;
  }

  lemma PartOne(stage: Stage, ms: seq<Measurement>, m: Measurement, rest: seq<Measurement>, kept: ByKey)
    requires Parted(stage, ms, rest, kept)
    ensures if Asks(stage, m) then Parted(stage, ms + [m], rest, kept[KeyOf(m) := m])
            else Parted(stage, ms + [m], rest + [m], kept)
  {
    assert forall x :: x in ms + [m] <==> x in ms || x == m;
    if Asks(stage, m) {
      assert (ms + [m])[|ms|] == m;
      assert LastAsking(stage, ms + [m], m);
    }
    forall key | key in kept && (Asks(stage, m) ==> key != KeyOf(m)) ensures LastAsking(stage, ms + [m], kept[key]) {
      StillLast(stage, ms, kept[key], m);
    }
    forall x ensures multiset(ms + [m])[x] == multiset(ms)[x] + if x == m then 1 else 0 {
      AddOne(ms, m, x);
    }
    forall x ensures multiset(rest + [m])[x] == multiset(rest)[x] + if x == m then 1 else 0 {
      AddOne(rest, m, x);
    }
  }

  /** One round of the first loop: later measurements of a key replace earlier ones. */
  method PartNext(stage: Stage, ghost ms: seq<Measurement>, m: Measurement, rest: seq<Measurement>, kept: ByKey)
    returns (rest': seq<Measurement>, kept': ByKey)
    requires Parted(stage, ms, rest, kept)
    ensures Parted(stage, ms + [m], rest', kept')
  {
    PartOne(stage, ms, m, rest, kept);
    rest', kept' := rest, kept;
    if Asks(stage, m) {
      kept' := kept[KeyOf(m) := m];
    } else {
      rest' := rest + [m];
    }
  }

  /** First loop. */
  method Part(stage: Stage, ms: seq<Measurement>) returns (rest: seq<Measurement>, kept: ByKey)
    ensures Parted(stage, ms, rest, kept)
  {
    rest, kept := [], map[];
    var i := 0;
    while i < |ms|
      invariant 0 <= i <= |ms| && Parted(stage, ms[..i], rest, kept)
    {
      assert ms[..i + 1] == ms[..i] + [ms[i]];
      rest, kept := PartNext(stage, ms[..i], ms[i], rest, kept);
      i := i + 1;
    }
    assert ms[..i] == ms;
  }

  /** What a stage passes on: everything that did not ask, and for each key that was asked for and not found the last
      of the measurements that asked. */
  ghost predicate Passes(stage: Stage, ms: seq<Measurement>, found: Answers, rest: seq<Measurement>, answered: Answers) {
    && (forall x :: !Asks(stage, x) ==> multiset(rest)[x] == multiset(ms)[x])
    && (forall x :: Asks(stage, x) ==> multiset(rest)[x] <= if x in ms then 1 else 0)
    && (forall x, y :: x in rest && y in rest && Asks(stage, x) && Asks(stage, y) && KeyOf(x) == KeyOf(y) ==> x == y)
    && (forall m :: m in ms && Asks(stage, m) ==>
          if KeyOf(m) in found then KeyOf(m) in answered
          else exists x :: x in rest && Asks(stage, x) && KeyOf(x) == KeyOf(m))
    && (forall key :: key in answered ==> key in found && answered[key] == Sent(stage, found[key]))
    && (forall key :: key in answered ==> exists m :: m in ms && Asks(stage, m) && KeyOf(m) == key)
    && (forall x :: x in rest && Asks(stage, x) ==> KeyOf(x) !in found && LastAsking(stage, ms, x))
  }

  /** The part of the second loop that is done: `extra` was passed on, `answered` was answered. */
  ghost predicate Looked(stage: Stage, kept: ByKey, todo: set<string>, found: Answers, extra: seq<Measurement>, answered: Answers) {
    && NoDup(extra)
    && (forall x :: x in extra <==> KeyOf(x) in kept && kept[KeyOf(x)] == x && KeyOf(x) !in todo && KeyOf(x) !in found)
    && (forall key :: key in answered <==> key in kept && key !in todo && key in found)
    && (forall key :: key in answered ==> answered[key] == Sent(stage, found[key]))
  }

  lemma LookedOne(stage: Stage, kept: ByKey, todo: set<string>, found: Answers, extra: seq<Measurement>, answered: Answers,
                  key: string)
    requires Looked(stage, kept, todo, found, extra, answered) && key in kept && key in todo && KeyOf(kept[key]) == key
    ensures if key in found then Looked(stage, kept, todo - {key}, found, extra, answered[key := Sent(stage, found[key])])
            else Looked(stage, kept, todo - {key}, found, extra + [kept[key]], answered)
  {
    if key !in found {
      NoDupAppend(extra, kept[key]);
      assert forall x :: x in extra + [kept[key]] <==> x in extra || x == kept[key];
    }
  }

  lemma {:induction false} OnceEach(s: seq<Measurement>, x: Measurement)
    requires NoDup(s)
    ensures multiset(s)[x] == if x in s then 1 else 0
  {
    if s != [] {
      var t, last := s[..|s| - 1], s[|s| - 1];
      assert s == t + [last];
      assert last !in t;
      OnceEach(t, x);
      AddOne(t, last, x);
    }
  }

  lemma LookedPasses(stage: Stage, ms: seq<Measurement>, found: Answers, rest: seq<Measurement>, kept: ByKey,
                     extra: seq<Measurement>, answered: Answers)
    requires Parted(stage, ms, rest, kept) && Looked(stage, kept, {}, found, extra, answered)
    ensures Passes(stage, ms, found, rest + extra, answered)
  {
    forall x ensures multiset(rest + extra)[x] == multiset(rest)[x] + if x in extra then 1 else 0 {
      OnceEach(extra, x);
      assert multiset(rest + extra) == multiset(rest) + multiset(extra);
    }
    assert forall x :: x in rest + extra <==> x in rest || x in extra;
    forall x | Asks(stage, x) ensures multiset(rest)[x] == 0 {
      assert x !in rest;
    }
    forall m | m in ms && Asks(stage, m) && KeyOf(m) !in found
      ensures exists x :: x in rest + extra && Asks(stage, x) && KeyOf(x) == KeyOf(m)
    {
      assert kept[KeyOf(m)] in extra;
    }
  }

  /** Both loops of a stage; `found` is what the lookup returned. */
  method Handle(stage: Stage, ms: seq<Measurement>, found: Answers) returns (rest: seq<Measurement>, answered: Answers)
    ensures Passes(stage, ms, found, rest, answered)
  {
    var kept;
    rest, kept := Part(stage, ms);
    var extra;
    extra, answered := Look(stage, kept, found);
    LookedPasses(stage, ms, found, rest, kept, extra, answered);
    rest := rest + extra;
  }

  method Look(stage: Stage, kept: ByKey, found: Answers) returns (extra: seq<Measurement>, answered: Answers)
    requires forall key :: key in kept ==> KeyOf(kept[key]) == key
    ensures Looked(stage, kept, {}, found, extra, answered)
  {
    extra, answered := [], map[];
    var todo := kept.Keys;
    while todo != {}
      invariant todo <= kept.Keys && Looked(stage, kept, todo, found, extra, answered)
    {
      var key :| key in todo;
      LookedOne(stage, kept, todo, found, extra, answered, key);
      if key in found {
        answered := answered[key := Sent(stage, found[key])];
      } else {
        extra := extra + [kept[key]];
      }
      todo := todo - {key};
    }
  }

  // ---------- the request ----------

  function For(service: Service, ms: seq<Measurement>): seq<Measurement> {
    if ms == [] then []
    else
      var before, m := For(service, ms[..|ms| - 1]), ms[|ms| - 1];
      if m.ripe == service.RipeAtlas? then before + [m] else before
  }

  datatype Outcome = Outcome(fromCache: Answers, fromDb: Answers, ripe: seq<Measurement>, planetLab: seq<Measurement>,
                             errors: seq<(uint32, uint32)>)

  /** The last loop: each remaining measurement goes to its service. When PlanetLab is not known an error is reported
      for the measurement, which is dispatched all the same. */
  method Dispatch(ms: seq<Measurement>, planetLabKnown: bool)
    returns (ripe: seq<Measurement>, planetLab: seq<Measurement>, errors: seq<(uint32, uint32)>)
    ensures ripe == For(RipeAtlas, ms) && planetLab == For(PlanetLab, ms)
    ensures |errors| == if planetLabKnown then 0 else |planetLab|
    ensures forall k :: 0 <= k < |errors| ==> errors[k] == (planetLab[k].src, planetLab[k].dst)
  {
    ripe, planetLab, errors := [], [], [];
    var i := 0;
    while i < |ms|
      invariant 0 <= i <= |ms| && ripe == For(RipeAtlas, ms[..i]) && planetLab == For(PlanetLab, ms[..i])
      invariant |errors| == if planetLabKnown then 0 else |planetLab|
      invariant forall k :: 0 <= k < |errors| ==> errors[k] == (planetLab[k].src, planetLab[k].dst)
    {
      assert ms[..i + 1][..i] == ms[..i];
      var m := ms[i];
      if m.ripe {
        ripe := ripe + [m];
      } else {
        planetLab := planetLab + [m];
        if !planetLabKnown {
          errors := errors + [(m.src, m.dst)];
        }
      }
      i := i + 1;
    }
    assert ms[..i] == ms;
  }

  /** doTraceroute up to the dispatch, for any answers of the cache and the database; a failed lookup finds nothing. */
  method Split(tms: seq<Measurement>, inCache: Answers, inDb: Answers, planetLabKnown: bool)
    returns (o: Outcome, ghost missed: seq<Measurement>, ghost rest: seq<Measurement>)
    ensures Passes(InCache, tms, inCache, missed, o.fromCache) && Passes(InDb, missed, inDb, rest, o.fromDb)
    ensures o.ripe == For(RipeAtlas, rest) && o.planetLab == For(PlanetLab, rest)
    ensures forall m :: m in tms ==>
      KeyOf(m) in o.fromCache || KeyOf(m) in o.fromDb || HasKey(o.ripe, KeyOf(m)) || HasKey(o.planetLab, KeyOf(m))
    ensures multiset(o.ripe) + multiset(o.planetLab) <= multiset(tms)
    ensures forall key :: CountKey(o.ripe, key) + CountKey(o.planetLab, key) <= CountKey(tms, key)
    ensures Answered(tms, inCache, inDb, o.fromCache, o.fromDb) && Dispatched(tms, inCache, inDb, o.ripe, o.planetLab)
  {
    var afterCache, fromCache := Handle(InCache, tms, inCache);
    var afterDb, fromDb := Handle(InDb, afterCache, inDb);
    var ripe, planetLab, errors := Dispatch(afterDb, planetLabKnown);
    o, missed, rest := Outcome(fromCache, fromDb, ripe, planetLab, errors), afterCache, afterDb;
    NothingLost(tms, inCache, inDb, missed, rest, fromCache, fromDb);
    NothingMore(tms, inCache, inDb, missed, rest, fromCache, fromDb);
    AnsweredAsAsked(tms, inCache, inDb, missed, rest, fromCache, fromDb);
    DispatchedAsAsked(tms, inCache, inDb, missed, rest, fromCache, fromDb);
  }

  /** The answers sent: the cache answers exactly the keys that a measurement asks it for and that it has, marked as
      cached; the database answers only keys that a measurement asks it for that the cache did not answer, unmarked; both
      send the body they have. */
  ghost predicate Answered(tms: seq<Measurement>, inCache: Answers, inDb: Answers, fromCache: Answers, fromDb: Answers) {
    && (forall key :: key in fromCache <==> key in inCache && exists m :: m in tms && m.checkCache && KeyOf(m) == key)
    && (forall key :: key in fromCache ==> fromCache[key] == Answer(inCache[key].body, true))
    && (forall key :: key in fromDb ==> key in inDb && fromDb[key] == inDb[key])
    && (forall key :: key in fromDb ==>
         exists m :: m in tms && m.checkDb && KeyOf(m) == key && (m.checkCache ==> key !in inCache))
  }

  /** The measurements dispatched: each to its own service, none that asks for what is found, and those that ask for
      nothing as often as they were requested. */
  ghost predicate Dispatched(tms: seq<Measurement>, inCache: Answers, inDb: Answers, ripe: seq<Measurement>,
                             planetLab: seq<Measurement>) {
    && (forall m :: m in ripe ==> m.ripe) && (forall m :: m in planetLab ==> !m.ripe)
    && (forall m :: m in ripe + planetLab ==> (m.checkCache ==> KeyOf(m) !in inCache) && (m.checkDb ==> KeyOf(m) !in inDb))
    && (forall m: Measurement :: !m.checkCache && !m.checkDb ==>
         multiset(if m.ripe then ripe else planetLab)[m] == multiset(tms)[m])
  }

  /** Which keys a stage answers, and with what. */
  ghost predicate AnswersAre(stage: Stage, ms: seq<Measurement>, found: Answers, answered: Answers) {
    && (forall key :: key in answered <==> key in found && exists m :: m in ms && Asks(stage, m) && KeyOf(m) == key)
    && (forall key :: key in answered ==> answered[key] == Sent(stage, found[key]))
  }

  lemma StageAnswers(stage: Stage, ms: seq<Measurement>, found: Answers, rest: seq<Measurement>, answered: Answers)
    requires Passes(stage, ms, found, rest, answered)
    ensures AnswersAre(stage, ms, found, answered)
  {
  }

  lemma AnsweredWhen(tms: seq<Measurement>, inCache: Answers, inDb: Answers, missed: seq<Measurement>,
                     fromCache: Answers, fromDb: Answers)
    requires AnswersAre(InCache, tms, inCache, fromCache) && AnswersAre(InDb, missed, inDb, fromDb)
    requires forall m :: m in missed ==> m in tms && (m.checkCache ==> KeyOf(m) !in inCache)
    ensures Answered(tms, inCache, inDb, fromCache, fromDb)
  {
    forall key | key in fromDb
      ensures exists m :: m in tms && m.checkDb && KeyOf(m) == key && (m.checkCache ==> key !in inCache)
    {
      var m :| m in missed && Asks(InDb, m) && KeyOf(m) == key;
    }
    forall key | key in fromCache ensures exists m :: m in tms && m.checkCache && KeyOf(m) == key {
      var m :| m in tms && Asks(InCache, m) && KeyOf(m) == key;
    }
  }

  lemma AnsweredAsAsked(tms: seq<Measurement>, inCache: Answers, inDb: Answers, missed: seq<Measurement>,
                        rest: seq<Measurement>, fromCache: Answers, fromDb: Answers)
    requires Passes(InCache, tms, inCache, missed, fromCache) && Passes(InDb, missed, inDb, rest, fromDb)
    ensures Answered(tms, inCache, inDb, fromCache, fromDb)
  {
    StageAnswers(InCache, tms, inCache, missed, fromCache);
    StageAnswers(InDb, missed, inDb, rest, fromDb);
    AllMissedAsked(tms, inCache, missed, fromCache);
    AnsweredWhen(tms, inCache, inDb, missed, fromCache, fromDb);
  }

  lemma AllMissedAsked(tms: seq<Measurement>, inCache: Answers, missed: seq<Measurement>, fromCache: Answers)
    requires Passes(InCache, tms, inCache, missed, fromCache)
    ensures forall m :: m in missed ==> m in tms && (m.checkCache ==> KeyOf(m) !in inCache)
  {
    forall m | m in missed ensures m in tms && (m.checkCache ==> KeyOf(m) !in inCache) {
      MissedIsAsked(tms, inCache, missed, fromCache, m);
    }
  }

  /** What the first stage passes on was requested, and does not ask for what it found. */
  lemma MissedIsAsked(tms: seq<Measurement>, inCache: Answers, missed: seq<Measurement>, fromCache: Answers, m: Measurement)
    requires Passes(InCache, tms, inCache, missed, fromCache) && m in missed
    ensures m in tms && (m.checkCache ==> KeyOf(m) !in inCache)
  {
    PassesCount(InCache, tms, inCache, missed, fromCache);
    assert multiset(missed)[m] > 0;
  }

  lemma DispatchedAsAsked(tms: seq<Measurement>, inCache: Answers, inDb: Answers, missed: seq<Measurement>,
                          rest: seq<Measurement>, fromCache: Answers, fromDb: Answers)
    requires Passes(InCache, tms, inCache, missed, fromCache) && Passes(InDb, missed, inDb, rest, fromDb)
    ensures Dispatched(tms, inCache, inDb, For(RipeAtlas, rest), For(PlanetLab, rest))
  {
    forall m: Measurement
      ensures multiset(For(RipeAtlas, rest))[m] == if m.ripe then multiset(rest)[m] else 0
      ensures multiset(For(PlanetLab, rest))[m] == if m.ripe then 0 else multiset(rest)[m]
    {
      ForIs(RipeAtlas, rest, m);
      ForIs(PlanetLab, rest, m);
    }
    forall m | m in multiset(For(RipeAtlas, rest)) || m in multiset(For(PlanetLab, rest)) ensures m in rest {
      assert multiset(rest)[m] > 0;
    }
    forall m | m in rest ensures (m.checkCache ==> KeyOf(m) !in inCache) && (m.checkDb ==> KeyOf(m) !in inDb) {
      PassesCount(InDb, missed, inDb, rest, fromDb);
      assert multiset(rest)[m] > 0;
      MissedIsAsked(tms, inCache, missed, fromCache, m);
    }
  }

  lemma {:induction false} ForIs(service: Service, ms: seq<Measurement>, x: Measurement)
    ensures multiset(For(service, ms))[x] == if x.ripe == service.RipeAtlas? then multiset(ms)[x] else 0
  {
    if ms != [] {
      var front, m := ms[..|ms| - 1], ms[|ms| - 1];
      ForIs(service, front, x);
      assert ms == front + [m];
      AddOne(front, m, x);
      AddOne(For(service, front), m, x);
    }
  }

  lemma PassesKey(stage: Stage, ms: seq<Measurement>, found: Answers, rest: seq<Measurement>, answered: Answers, m: Measurement)
    requires Passes(stage, ms, found, rest, answered) && m in ms
    ensures KeyOf(m) in answered || HasKey(rest, KeyOf(m))
  {
    if !Asks(stage, m) {
      assert multiset(rest)[m] == multiset(ms)[m] > 0;
      assert m in rest;
    }
  }

  lemma PassesCount(stage: Stage, ms: seq<Measurement>, found: Answers, rest: seq<Measurement>, answered: Answers)
    requires Passes(stage, ms, found, rest, answered)
    ensures multiset(rest) <= multiset(ms)
  {
    assert forall x :: x in ms ==> multiset(ms)[x] >= 1;
  }

  lemma {:induction false} ForAll(ms: seq<Measurement>)
    ensures multiset(For(RipeAtlas, ms)) + multiset(For(PlanetLab, ms)) == multiset(ms)
  {
    if ms != [] {
      var front, m := ms[..|ms| - 1], ms[|ms| - 1];
      ForAll(front);
      assert multiset(ms) == multiset(front) + multiset{m} by {
        assert ms == front + [m];
      }
      ForMore(For(RipeAtlas, front), For(PlanetLab, front), m);
    }
  }

  lemma ForMore(a: seq<Measurement>, b: seq<Measurement>, m: Measurement)
    ensures multiset(a + [m]) + multiset(b) == multiset(a) + multiset(b) + multiset{m}
    ensures multiset(a) + multiset(b + [m]) == multiset(a) + multiset(b) + multiset{m}
  {
    assert multiset(a + [m]) == multiset(a) + multiset{m};
    assert multiset(b + [m]) == multiset(b) + multiset{m};
  }

  lemma {:induction false} ForCount(ms: seq<Measurement>, key: string)
    ensures CountKey(For(RipeAtlas, ms), key) + CountKey(For(PlanetLab, ms), key) == CountKey(ms, key)
  {
    if ms != [] {
      var front, m := ms[..|ms| - 1], ms[|ms| - 1];
      ForCount(front, key);
      CountOne(For(if m.ripe then RipeAtlas else PlanetLab, front), m, key);
    }
  }

  lemma {:induction false} ForHas(ms: seq<Measurement>, x: Measurement)
    requires x in ms
    ensures x in For(if x.ripe then RipeAtlas else PlanetLab, ms)
  {
    var front, m := ms[..|ms| - 1], ms[|ms| - 1];
    if x != m {
      ForHas(front, x);
    }
  }

  lemma CountOne(ms: seq<Measurement>, m: Measurement, key: string)
    ensures CountKey(ms + [m], key) == CountKey(ms, key) + if KeyOf(m) == key then 1 else 0
    ensures forall x :: x in ms + [m] <==> x in ms || x == m
  {
    assert (ms + [m])[..|ms|] == ms;
  }

  /** Every requested key is answered from the cache, answered from the database, or dispatched. */
  lemma NothingLost(tms: seq<Measurement>, inCache: Answers, inDb: Answers, missed: seq<Measurement>,
                    rest: seq<Measurement>, fromCache: Answers, fromDb: Answers)
    requires Passes(InCache, tms, inCache, missed, fromCache) && Passes(InDb, missed, inDb, rest, fromDb)
    ensures forall m :: m in tms ==>
      KeyOf(m) in fromCache || KeyOf(m) in fromDb || HasKey(For(RipeAtlas, rest), KeyOf(m)) || HasKey(For(PlanetLab, rest), KeyOf(m))
  {
    forall m | m in tms && KeyOf(m) !in fromCache && KeyOf(m) !in fromDb
      ensures HasKey(For(RipeAtlas, rest), KeyOf(m)) || HasKey(For(PlanetLab, rest), KeyOf(m))
    {
      PassesKey(InCache, tms, inCache, missed, fromCache, m);
      var x :| x in missed && KeyOf(x) == KeyOf(m);
      PassesKey(InDb, missed, inDb, rest, fromDb, x);
      var y :| y in rest && KeyOf(y) == KeyOf(m);
      ForHas(rest, y);
    }
  }

  /** Dispatched measurements are requested ones, and no key is dispatched more often than it was requested. */
  lemma NothingMore(tms: seq<Measurement>, inCache: Answers, inDb: Answers, missed: seq<Measurement>,
                    rest: seq<Measurement>, fromCache: Answers, fromDb: Answers)
    requires Passes(InCache, tms, inCache, missed, fromCache) && Passes(InDb, missed, inDb, rest, fromDb)
    ensures multiset(For(RipeAtlas, rest)) + multiset(For(PlanetLab, rest)) <= multiset(tms)
    ensures forall key :: CountKey(For(RipeAtlas, rest), key) + CountKey(For(PlanetLab, rest), key) <= CountKey(tms, key)
  {
    PassesCount(InCache, tms, inCache, missed, fromCache);
    PassesCount(InDb, missed, inDb, rest, fromDb);
    ForAll(rest);
    forall key ensures CountKey(For(RipeAtlas, rest), key) + CountKey(For(PlanetLab, rest), key) <= CountKey(tms, key) {
      ForCount(rest, key);
      CountWithin(rest, tms, key);
    }
  }

  lemma {:induction false} CountWithin(a: seq<Measurement>, b: seq<Measurement>, key: string)
    requires multiset(a) <= multiset(b)
    ensures CountKey(a, key) <= CountKey(b, key)
    decreases |a|
  {
    if a != [] {
      var a', m := a[..|a| - 1], a[|a| - 1];
      assert a == a' + [m];
      var u, v := TakeOut(a', b, m);
      CountWithin(a', u + v, key);
      CountCut(u, m, v, key);
    }
  }

  /** A list that contains more than `a` and m still contains `a` without one m. */
  lemma TakeOut(a: seq<Measurement>, b: seq<Measurement>, m: Measurement) returns (u: seq<Measurement>, v: seq<Measurement>)
    requires multiset(a + [m]) <= multiset(b)
    ensures b == u + [m] + v && multiset(a) <= multiset(u + v)
  {
    assert multiset(a + [m]) == multiset(a) + multiset{m};
    assert m in multiset(b);
    var i :| 0 <= i < |b| && b[i] == m;
    u, v := b[..i], b[i + 1..];
    assert b == u + [m] + v;
    assert multiset(b) == multiset(u) + multiset{m} + multiset(v);
    assert multiset(u + v) == multiset(u) + multiset(v);
    forall x ensures multiset(a)[x] <= multiset(u + v)[x] {
      assert multiset(a)[x] + multiset{m}[x] <= multiset(b)[x];
    }
  }

  lemma {:induction false} CountCut(u: seq<Measurement>, m: Measurement, v: seq<Measurement>, key: string)
    ensures CountKey(u + [m] + v, key) == CountKey(u + v, key) + if KeyOf(m) == key then 1 else 0
  {
    if v == [] {
      assert u + [m] + v == u + [m] && u + v == u;
      CountOne(u, m, key);
    } else {
      var v', x := v[..|v| - 1], v[|v| - 1];
      CountCut(u, m, v', key);
      assert u + [m] + v == (u + [m] + v') + [x] && u + v == (u + v') + [x];
      CountOne(u + [m] + v', x, key);
      CountOne(u + v', x, key);
    }
  }

  lemma KeyExample(m: Measurement)
    requires m.src == 10 && m.dst == 7
    ensures KeyOf(m) == "XXTR_10_7"
  {
    KeyExamples();
  }

  /** A key is a source and a destination, nothing less. */
  lemma KeyIsPair(m: Measurement, n: Measurement)
    ensures KeyOf(m) == KeyOf(n) <==> m.src == n.src && m.dst == n.dst
  {
    if KeyOf(m) == KeyOf(n) {
      PairKeyUnique("XXTR", m.src, m.dst, n.src, n.dst);
    }
  }
}
