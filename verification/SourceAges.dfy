/** How old a schema can be when the cache hands it out: exactly which sequences of requests keep to the TTL. */
module SourceAges {
  import opened Common
  import opened Strings
  import opened SourceRegistry
  import opened SourceRequests

  function Waited(s: State, elapsed: nat): State { s.(clock := s.clock + elapsed) }

  /** A fresh daemon after the first `k` requests, none of which overlap; the i-th waits for `delays[i]`. */
  function StateAt(qs: seq<Request>, delays: seq<nat>, k: nat): State
    requires k <= |qs| == |delays|
  {
    if k == 0 then INIT else After(Waited(StateAt(qs, delays, k - 1), delays[k - 1]), qs[k - 1])
  }

  lemma RequestRuns(s: State, delay: nat, q: Request) returns (es: seq<Event>)
    requires Quiet(s)
    ensures Run(s, es) == Some(After(Waited(s, delay), q)) && Quiet(After(Waited(s, delay), q))
  {
    var t := Waited(s, delay);
    RunOne(s, Tick(delay));
    AfterIsRun(t, q);
    RunAppend(s, [Tick(delay)], EventsOf(t, q));
    es := [Tick(delay)] + EventsOf(t, q);
  }

  /** Such a state is reached by the requests' own steps. */
  lemma {:induction false} StateAtIsReached(qs: seq<Request>, delays: seq<nat>, k: nat) returns (es: seq<Event>)
    requires k <= |qs| == |delays|
    ensures Run(INIT, es) == Some(StateAt(qs, delays, k)) && Quiet(StateAt(qs, delays, k))
    decreases k
  {
    if k == 0 {
      es := [];
    } else {
      var before := StateAtIsReached(qs, delays, k - 1);
      var more := RequestRuns(StateAt(qs, delays, k - 1), delays[k - 1], qs[k - 1]);
      RunAppend(INIT, before, more);
      es := before + more;
    }
  }

  // ---------- what does not depend on time ----------

  /** The names and registrations of a state, without times, schemas and history. */
  datatype Shape = Shape(
    catalog: map<string, CatalogKind>,
    registrations: map<string, Registration>,
    nextGeneration: nat,
    tables: set<TableRef>)

  function ShapeOf(s: State): Shape { Shape(s.catalog, s.registrations, s.nextGeneration, s.registry.Keys) }

  /** The load a request comes to, which the shape decides. */
  function LoadIn(shape: Shape, q: Request): Option<Job>
    ensures LoadIn(shape, q).Some? ==> LoadIn(shape, q).value.LoadingTable?
  {
    if !q.LoadTable? || q.alias !in shape.registrations
      || !(q.alias == q.requestedAlias
           || (q.requestedAlias !in shape.registrations && EqIgnoreAsciiCase(q.alias, q.requestedAlias)))
      || TableRef(Some(q.alias), q.requested) in shape.tables
    then None
    else match FindTable(shape.registrations[q.alias].tables, q.requested)
         case None => None
         case Some(table) => Some(LoadingTable(q.alias, shape.registrations[q.alias], table, q.requested, Checking))
  }

  function NextShape(shape: Shape, q: Request): Shape {
    match q
    case RegisterDatabase(alias, connection, tables) =>
      shape.(catalog := shape.catalog[alias := DatabaseSource],
             registrations := shape.registrations[alias := Registration(shape.nextGeneration, connection, tables)],
             nextGeneration := shape.nextGeneration + 1)
    case RegisterFile(name) =>
      shape.(catalog := shape.catalog[name := FileSource], tables := shape.tables + {TableRef(None, name)})
    case RemoveSource(name) =>
      shape.(catalog := shape.catalog - {name},
             registrations := shape.registrations - {name},
             tables := if name in shape.catalog && shape.catalog[name].DatabaseSource?
                       then set r | r in shape.tables && r.schema != Some(name)
                       else shape.tables - {TableRef(None, name)})
    case LoadTable(_, _, _, succeeds) =>
      if LoadIn(shape, q).Some? && succeeds then shape.(tables := shape.tables + {RefOf(LoadIn(shape, q).value)})
      else shape
    case Wait(_) => shape
  }

  lemma LoadFollows(s: State, q: Request)
    ensures LoadOf(s, q) == LoadIn(ShapeOf(s), q)
  {}

  lemma LoadingFollows(s: State, q: Request)
    requires q.LoadTable?
    ensures ShapeOf(After(s, q)) == NextShape(ShapeOf(s), q)
  {
    LoadFollows(s, q);
    var job := LoadIn(ShapeOf(s), q);
    if job.Some? && q.succeeds {
      assert Loaded(s, job.value).registry.Keys == s.registry.Keys + {RefOf(job.value)};
    }
  }

  lemma RemovalFollows(s: State, name: string)
    ensures ShapeOf(After(s, RemoveSource(name))) == NextShape(ShapeOf(s), RemoveSource(name))
  {
    assert After(s, RemoveSource(name)).registry.Keys == NextShape(ShapeOf(s), RemoveSource(name)).tables;
  }

  lemma ShapeFollows(s: State, q: Request)
    ensures ShapeOf(After(s, q)) == NextShape(ShapeOf(s), q)
  {
    match q
    case LoadTable(_, _, _, _) => LoadingFollows(s, q);
    case RemoveSource(name) => RemovalFollows(s, name);
    case _ =>
  }

  function ShapeAt(qs: seq<Request>, k: nat): Shape
    requires k <= |qs|
  {
    if k == 0 then Shape(map[], map[], 1, {}) else NextShape(ShapeAt(qs, k - 1), qs[k - 1])
  }

  /** The k-th request's load, whatever the delays. */
  function JobAsked(qs: seq<Request>, k: nat): (r: Option<Job>)
    requires k < |qs|
    ensures r.Some? ==> r.value.LoadingTable?
  {
    LoadIn(ShapeAt(qs, k), qs[k])
  }

  function KeyAsked(qs: seq<Request>, k: nat): Option<CacheKey>
    requires k < |qs|
  {
    match JobAsked(qs, k) case None => None case Some(job) => Some(KeyOf(job))
  }

  predicate Loads(qs: seq<Request>, k: nat, key: CacheKey)
    requires k < |qs|
  {
    KeyAsked(qs, k) == Some(key) && qs[k].LoadTable? && qs[k].succeeds
  }

  /** How many of the first `k` requests load the key. */
  function LoadCount(qs: seq<Request>, k: nat, key: CacheKey): nat
    requires k <= |qs|
  {
    if k == 0 then 0 else LoadCount(qs, k - 1, key) + if Loads(qs, k - 1, key) then 1 else 0
  }

  // ---------- what time decides ----------

  /** The clock, the cache and the history of a state. */
  datatype Memory = Memory(clock: nat, cache: map<CacheKey, CacheEntry>, served: seq<Served>)

  function MemoryOf(s: State): Memory { Memory(s.clock, s.cache, s.served) }

  predicate IsHit(m: Memory, key: CacheKey) {
    key in m.cache && m.clock - m.cache[key].cachedAt <= SCHEMA_CACHE_TTL
  }

  /** A look-up of a key, and a store of the schema found or introspected. */
  function Recalled(m: Memory, job: Job): Memory
    requires job.LoadingTable?
  {
    var key := KeyOf(job);
    if IsHit(m, key) then m.(served := m.served + [Served(key, job.requested, m.cache[key], m.clock)])
    else m.(cache := m.cache - {key})
  }

  function Stored(m: Memory, job: Job): Memory
    requires job.LoadingTable?
  {
    var key := KeyOf(job);
    var schema := if IsHit(m, key) then m.cache[key].schema
                  else RemoteSchema(job.registration.connection, job.table, m.clock);
    Recalled(m, job).(cache := Recalled(m, job).cache[key := CacheEntry(schema, m.clock)])
  }

  function NextMemory(m: Memory, q: Request, job: Option<Job>): Memory
    requires job.Some? ==> job.value.LoadingTable?
  {
    match q
    case LoadTable(_, _, _, succeeds) =>
      if job.None? then m else if succeeds then Stored(m, job.value) else Recalled(m, job.value)
    case RemoveSource(name) => m.(cache := map k | k in m.cache && k.alias != name :: m.cache[k])
    case Wait(elapsed) => m.(clock := m.clock + elapsed)
    case _ => m
  }

  lemma MemoryFollows(s: State, q: Request)
    ensures MemoryOf(After(s, q)) == NextMemory(MemoryOf(s), q, LoadOf(s, q))
  {
    match q
    case LoadTable(_, _, _, succeeds) =>
      if LoadOf(s, q).Some? {
        LoadRemembers(s, LoadOf(s, q).value);
      }
    case RegisterDatabase(_, _, _) => assert MemoryOf(After(s, q)) == MemoryOf(s);
    case RegisterFile(_) => assert MemoryOf(After(s, q)) == MemoryOf(s);
    case RemoveSource(_) =>
    case Wait(elapsed) => assert MemoryOf(After(s, q)) == Later(MemoryOf(s), elapsed);
  }

  lemma LoadRemembers(s: State, job: Job)
    requires job.LoadingTable?
    ensures MemoryOf(LookedUp(s, job)) == Recalled(MemoryOf(s), job)
    ensures MemoryOf(Loaded(s, job)) == Stored(MemoryOf(s), job)
  {}

  function Later(m: Memory, elapsed: nat): Memory { m.(clock := m.clock + elapsed) }

  function MemoryAt(qs: seq<Request>, delays: seq<nat>, k: nat): Memory
    requires k <= |qs| == |delays|
  {
    if k == 0 then Memory(0, map[], [])
    else NextMemory(Later(MemoryAt(qs, delays, k - 1), delays[k - 1]), qs[k - 1], JobAsked(qs, k - 1))
  }

  /** Shape and memory evolve by themselves. */
  lemma {:induction false} StateParts(qs: seq<Request>, delays: seq<nat>, k: nat)
    requires k <= |qs| == |delays|
    ensures ShapeOf(StateAt(qs, delays, k)) == ShapeAt(qs, k)
    ensures MemoryOf(StateAt(qs, delays, k)) == MemoryAt(qs, delays, k)
    decreases k
  {
    if k == 0 {
      assert INIT.registry.Keys == {};
    } else {
      StateParts(qs, delays, k - 1);
      PartsFollow(StateAt(qs, delays, k - 1), delays[k - 1], qs[k - 1]);
    }
  }

  lemma PartsFollow(s: State, delay: nat, q: Request)
    ensures ShapeOf(After(Waited(s, delay), q)) == NextShape(ShapeOf(s), q)
    ensures MemoryOf(After(Waited(s, delay), q)) == NextMemory(Later(MemoryOf(s), delay), q, LoadIn(ShapeOf(s), q))
  {
    LoadFollows(Waited(s, delay), q);
    ShapeFollows(Waited(s, delay), q);
    MemoryFollows(Waited(s, delay), q);
  }

  // ---------- the condition ----------

  /** Time passes only between the requests. */
  ghost predicate NobodyWaits(qs: seq<Request>) { forall i :: 0 <= i < |qs| ==> !qs[i].Wait? }

  /** Some table of some registration is asked for once more after two loads of it. */
  ghost predicate AsksThirdTime(qs: seq<Request>) {
    exists k, key :: 0 <= k < |qs| && KeyAsked(qs, k) == Some(key) && LoadCount(qs, k, key) >= 2
  }

  /** Every schema handed out was introspected at most the TTL before. */
  ghost predicate ServedFresh(served: seq<Served>) {
    forall i :: 0 <= i < |served| ==> served[i].at - served[i].entry.schema.at <= SCHEMA_CACHE_TTL
  }

  /**
   * For requests that do not overlap: whatever time passes between them, no schema older than the TTL is
   * handed out, if and only if no table of a registration is asked for again after two loads of it.
   */
  lemma AgesAreBounded(qs: seq<Request>)
    requires NobodyWaits(qs)
    ensures (forall delays: seq<nat> :: |delays| == |qs| ==> ServedFresh(StateAt(qs, delays, |qs|).served))
            <==> !AsksThirdTime(qs)
  {
    if AsksThirdTime(qs) {
      var delays, v := ThirdTimeIsStale(qs);
      OldIsNotFresh(StateAt(qs, delays, |qs|).served, v);
      assert |delays| == |qs| && !ServedFresh(StateAt(qs, delays, |qs|).served);
    } else {
      forall delays: seq<nat> | |delays| == |qs| ensures ServedFresh(StateAt(qs, delays, |qs|).served) {
        StateParts(qs, delays, |qs|);
        TwoLoadsAreFresh(qs, delays, |qs|);
      }
    }
  }

  // ---------- two loads keep to the TTL ----------

  /** An entry comes from a load, and from the first one with the schema introspected at that time. */
  ghost predicate EntriesCounted(qs: seq<Request>, m: Memory, k: nat)
    requires k <= |qs|
  {
    forall key :: key in m.cache ==>
      && LoadCount(qs, k, key) >= 1
      && (LoadCount(qs, k, key) == 1 ==> m.cache[key].schema.at == m.cache[key].cachedAt)
  }

  lemma {:induction false} EntriesAreCounted(qs: seq<Request>, delays: seq<nat>, k: nat)
    requires k <= |qs| == |delays|
    ensures EntriesCounted(qs, MemoryAt(qs, delays, k), k)
    decreases k
  {
    if k > 0 {
      EntriesAreCounted(qs, delays, k - 1);
      EntriesStep(qs, Later(MemoryAt(qs, delays, k - 1), delays[k - 1]), k - 1);
    }
  }

  lemma EntriesStep(qs: seq<Request>, m: Memory, k: nat)
    requires k < |qs| && EntriesCounted(qs, m, k)
    ensures EntriesCounted(qs, NextMemory(m, qs[k], JobAsked(qs, k)), k + 1)
  {
    var after := NextMemory(m, qs[k], JobAsked(qs, k));
    forall key | key in after.cache
      ensures LoadCount(qs, k + 1, key) >= 1
      ensures LoadCount(qs, k + 1, key) == 1 ==> after.cache[key].schema.at == after.cache[key].cachedAt
    {
      if !Loads(qs, k, key) {
        assert key in m.cache && after.cache[key] == m.cache[key];
      } else if key !in m.cache {
        assert after.cache[key].schema.at == after.cache[key].cachedAt;
      }
    }
  }

  lemma {:induction false} TwoLoadsAreFresh(qs: seq<Request>, delays: seq<nat>, k: nat)
    requires k <= |qs| == |delays| && !AsksThirdTime(qs)
    ensures ServedFresh(MemoryAt(qs, delays, k).served)
    decreases k
  {
    if k > 0 {
      var m := Later(MemoryAt(qs, delays, k - 1), delays[k - 1]);
      assert ServedFresh(m.served) by {
        TwoLoadsAreFresh(qs, delays, k - 1);
      }
      assert EntriesCounted(qs, m, k - 1) by {
        EntriesAreCounted(qs, delays, k - 1);
      }
      assert NoThirdTime(qs, k - 1) by {
        NeverThirdTime(qs, k - 1);
      }
      FreshStep(qs, m, k - 1);
    }
  }

  /** The request does not ask again for what was loaded twice. */
  ghost predicate NoThirdTime(qs: seq<Request>, k: nat)
    requires k < |qs|
  {
    KeyAsked(qs, k).Some? ==> LoadCount(qs, k, KeyAsked(qs, k).value) < 2
  }

  lemma NeverThirdTime(qs: seq<Request>, k: nat)
    requires k < |qs| && !AsksThirdTime(qs)
    ensures NoThirdTime(qs, k)
  {}

  lemma FreshStep(qs: seq<Request>, m: Memory, k: nat)
    requires k < |qs| && EntriesCounted(qs, m, k) && ServedFresh(m.served) && NoThirdTime(qs, k)
    ensures ServedFresh(NextMemory(m, qs[k], JobAsked(qs, k)).served)
  {
    var job := JobAsked(qs, k);
    if job.Some? && IsHit(m, KeyOf(job.value)) {
      assert LoadCount(qs, k, KeyOf(job.value)) == 1;
    }
  }

  // ---------- first, second and third request ----------

  lemma {:induction false} NthLoad(qs: seq<Request>, k: nat, key: CacheKey, n: nat) returns (i: nat)
    requires k <= |qs| && LoadCount(qs, k, key) > n
    ensures i < k && Loads(qs, i, key) && LoadCount(qs, i, key) == n
    decreases k
  {
    i := k - 1;
    if !(Loads(qs, k - 1, key) && LoadCount(qs, k - 1, key) == n) {
      i := NthLoad(qs, k - 1, key, n);
    }
  }

  lemma {:induction false} CountsGrow(qs: seq<Request>, i: nat, k: nat, key: CacheKey)
    requires i <= k <= |qs|
    ensures LoadCount(qs, i, key) <= LoadCount(qs, k, key)
    ensures i < k && Loads(qs, i, key) ==> LoadCount(qs, i, key) < LoadCount(qs, k, key)
    decreases k
  {
    if i < k {
      CountsGrow(qs, i, k - 1, key);
    }
  }

  lemma {:induction false} NextAsked(qs: seq<Request>, b: nat, k: nat, key: CacheKey) returns (c: nat)
    requires b < k < |qs| && KeyAsked(qs, k) == Some(key)
    ensures b < c <= k && KeyAsked(qs, c) == Some(key)
    ensures forall i :: b < i < c ==> KeyAsked(qs, i) != Some(key)
    decreases k
  {
    c := k;
    if i :| b < i < k && KeyAsked(qs, i) == Some(key) {
      c := NextAsked(qs, b, i, key);
    }
  }

  lemma OrderedLoads(qs: seq<Request>, a: nat, b: nat, key: CacheKey)
    requires a < |qs| && b < |qs| && Loads(qs, a, key) && Loads(qs, b, key)
    requires LoadCount(qs, a, key) == 0 && LoadCount(qs, b, key) == 1
    ensures a < b && forall i :: a < i < b ==> !Loads(qs, i, key)
  {
    if b <= a {
      CountsGrow(qs, b, a, key);
    }
    forall i | a < i < b ensures !Loads(qs, i, key) {
      CountsGrow(qs, a, i, key);
      CountsGrow(qs, i, b, key);
    }
  }

  // ---------- a registration from its first request to its last ----------

  /** The key's registration is the live one of its alias. */
  predicate Alive(shape: Shape, key: CacheKey) {
    && key.alias in shape.registrations && shape.registrations[key.alias].generation == key.generation
    && key.generation < shape.nextGeneration
  }

  lemma {:induction false} GenerationsStayBounded(qs: seq<Request>, k: nat)
    requires k <= |qs|
    ensures forall a :: a in ShapeAt(qs, k).registrations ==>
              ShapeAt(qs, k).registrations[a].generation < ShapeAt(qs, k).nextGeneration
    decreases k
  {
    if k > 0 {
      GenerationsStayBounded(qs, k - 1);
      BoundedStep(ShapeAt(qs, k - 1), qs[k - 1]);
    }
  }

  lemma BoundedStep(shape: Shape, q: Request)
    requires forall a :: a in shape.registrations ==> shape.registrations[a].generation < shape.nextGeneration
    ensures var after := NextShape(shape, q);
            forall a :: a in after.registrations ==> after.registrations[a].generation < after.nextGeneration
  {}

  lemma AskedIsAlive(qs: seq<Request>, k: nat, key: CacheKey)
    requires k < |qs| && KeyAsked(qs, k) == Some(key)
    ensures Alive(ShapeAt(qs, k), key)
  {
    GenerationsStayBounded(qs, k);
  }

  /** A registration that is alive after a request, and old enough, was so before, and was not removed. */
  lemma AliveStep(shape: Shape, q: Request, key: CacheKey)
    requires Alive(NextShape(shape, q), key) && key.generation < shape.nextGeneration
    ensures Alive(shape, key) && q != RemoveSource(key.alias)
  {}

  lemma OldStaysOld(shape: Shape, q: Request)
    ensures shape.nextGeneration <= NextShape(shape, q).nextGeneration
  {}

  lemma {:induction false} AliveBefore(qs: seq<Request>, i: nat, k: nat, key: CacheKey)
    requires i <= k <= |qs| && Alive(ShapeAt(qs, k), key) && key.generation < ShapeAt(qs, i).nextGeneration
    ensures Alive(ShapeAt(qs, i), key) && (i < k ==> qs[i] != RemoveSource(key.alias))
    decreases k - i
  {
    if i < k {
      OldStaysOld(ShapeAt(qs, i), qs[i]);
      AliveBefore(qs, i + 1, k, key);
      AliveStep(ShapeAt(qs, i), qs[i], key);
    }
  }

  lemma {:induction false} AliveBetween(qs: seq<Request>, i: nat, m: nat, k: nat, key: CacheKey)
    requires i <= m < k < |qs| && KeyAsked(qs, k) == Some(key) && key.generation < ShapeAt(qs, i).nextGeneration
    ensures Alive(ShapeAt(qs, m), key) && qs[m] != RemoveSource(key.alias)
    decreases m
  {
    GenerationsGrow(qs, i, m);
    AskedIsAlive(qs, k, key);
    AliveBefore(qs, m, k, key);
  }

  lemma {:induction false} GenerationsGrow(qs: seq<Request>, i: nat, k: nat)
    requires i <= k <= |qs|
    ensures ShapeAt(qs, i).nextGeneration <= ShapeAt(qs, k).nextGeneration
    decreases k
  {
    if i < k {
      GenerationsGrow(qs, i, k - 1);
      OldStaysOld(ShapeAt(qs, k - 1), qs[k - 1]);
    }
  }

  // ---------- a third request can find an old schema ----------

  /** What a request leaves of a fresh entry that it does not load and whose source it does not remove. */
  lemma EntryStays(m: Memory, q: Request, job: Option<Job>, key: CacheKey)
    requires job.Some? ==> job.value.LoadingTable?
    requires IsHit(m, key) && q != RemoveSource(key.alias) && !q.Wait?
    requires job.Some? && KeyOf(job.value) == key && q.LoadTable? ==> !q.succeeds
    ensures var after := NextMemory(m, q, job);
            key in after.cache && after.cache[key] == m.cache[key] && after.clock == m.clock
  {}

  /** At time `clock` the schema held for a key was stored at `cachedAt` and introspected at `at`. */
  ghost predicate Remembers(m: Memory, key: CacheKey, cachedAt: nat, at: nat, clock: nat) {
    m.clock == clock && key in m.cache && m.cache[key].cachedAt == cachedAt && m.cache[key].schema.at == at
  }

  /** A request that comes at once, loads another table and removes another source. */
  ghost predicate Passes(qs: seq<Request>, delays: seq<nat>, m: nat, key: CacheKey)
    requires m < |qs| == |delays|
  {
    delays[m] == 0 && !qs[m].Wait? && !Loads(qs, m, key) && qs[m] != RemoveSource(key.alias)
  }

  /** Between two requests for a key, no time passing, its entry stays as it is. */
  lemma {:induction false} EntryWaits(qs: seq<Request>, delays: seq<nat>, i: nat, k: nat, to: nat, key: CacheKey,
                                      cachedAt: nat, at: nat, clock: nat)
    requires i <= k <= to < |qs| == |delays| && KeyAsked(qs, to) == Some(key)
    requires key.generation < ShapeAt(qs, i).nextGeneration
    requires Remembers(MemoryAt(qs, delays, i), key, cachedAt, at, clock) && clock - cachedAt <= SCHEMA_CACHE_TTL
    requires forall m :: i <= m < to ==> delays[m] == 0 && !qs[m].Wait? && !Loads(qs, m, key)
    ensures Remembers(MemoryAt(qs, delays, k), key, cachedAt, at, clock)
    decreases k
  {
    if i < k {
      var m := MemoryAt(qs, delays, k - 1);
      EntryWaits(qs, delays, i, k - 1, to, key, cachedAt, at, clock);
      AliveBetween(qs, i, k - 1, to, key);
      assert Passes(qs, delays, k - 1, key);
      EntryPasses(m, qs, delays, k - 1, key, cachedAt, at, clock);
    }
  }

  lemma EntryPasses(m: Memory, qs: seq<Request>, delays: seq<nat>, k: nat, key: CacheKey,
                    cachedAt: nat, at: nat, clock: nat)
    requires k < |qs| == |delays| && Passes(qs, delays, k, key)
    requires Remembers(m, key, cachedAt, at, clock) && clock - cachedAt <= SCHEMA_CACHE_TTL
    ensures Remembers(NextMemory(Later(m, delays[k]), qs[k], JobAsked(qs, k)), key, cachedAt, at, clock)
  {
    assert Later(m, 0) == m;
    EntryStays(m, qs[k], JobAsked(qs, k), key);
  }

  /** The delays after which the third request finds what the first one introspected. */
  function LongDelays(n: nat, b: nat, c: nat): (delays: seq<nat>)
    ensures |delays| == n
  {
    seq(n, i => if i == b || i == c then SCHEMA_CACHE_TTL else 0)
  }

  lemma {:induction false} ClockStands(qs: seq<Request>, delays: seq<nat>, k: nat)
    requires k <= |qs| == |delays| && forall i :: 0 <= i < k ==> delays[i] == 0 && !qs[i].Wait?
    ensures MemoryAt(qs, delays, k).clock == 0
    decreases k
  {
    if k > 0 {
      ClockStands(qs, delays, k - 1);
      assert !qs[k - 1].Wait?;
    }
  }

  /** A load that finds no entry introspects; one that finds a fresh entry stores its schema again. */
  lemma LoadStores(m: Memory, q: Request, job: Job)
    requires q.LoadTable? && q.succeeds && job.LoadingTable?
    ensures var after, key := NextMemory(m, q, Some(job)), KeyOf(job);
            && key in after.cache && after.cache[key].cachedAt == m.clock == after.clock
            && (key !in m.cache ==> after.cache[key].schema.at == m.clock)
            && (IsHit(m, key) ==> after.cache[key].schema == m.cache[key].schema)
  {}

  lemma ThirdTimeRemembers(qs: seq<Request>, a: nat, b: nat, c: nat, key: CacheKey)
    returns (delays: seq<nat>, v: Served)
    requires a < b < c < |qs| && Loads(qs, a, key) && Loads(qs, b, key) && KeyAsked(qs, c) == Some(key)
    requires LoadCount(qs, a, key) == 0 && forall i :: a < i < b ==> !Loads(qs, i, key)
    requires forall i :: b < i < c ==> KeyAsked(qs, i) != Some(key)
    requires NobodyWaits(qs)
    ensures |delays| == |qs| && v in MemoryAt(qs, delays, |qs|).served
    ensures v.at - v.entry.schema.at == 2 * SCHEMA_CACHE_TTL
  {
    delays := LongDelays(|qs|, b, c);
    FirstLoad(qs, delays, a, b, key);
    SecondLoad(qs, delays, b, c, key);
    v := ThirdRequest(qs, delays, c, key);
  }

  /** A table asked for a third time is handed out a schema of twice the TTL, if the delays are long. */
  lemma ThirdTimeIsStale(qs: seq<Request>) returns (delays: seq<nat>, v: Served)
    requires AsksThirdTime(qs) && NobodyWaits(qs)
    ensures |delays| == |qs| && v in StateAt(qs, delays, |qs|).served
    ensures v.at - v.entry.schema.at == 2 * SCHEMA_CACHE_TTL
  {
    var k, key :| 0 <= k < |qs| && KeyAsked(qs, k) == Some(key) && LoadCount(qs, k, key) >= 2;
    var a := NthLoad(qs, k, key, 0);
    var b := NthLoad(qs, k, key, 1);
    OrderedLoads(qs, a, b, key);
    var c := NextAsked(qs, b, k, key);
    delays, v := ThirdTimeRemembers(qs, a, b, c, key);
    StateParts(qs, delays, |qs|);
  }

  lemma OldIsNotFresh(served: seq<Served>, v: Served)
    requires v in served && v.at - v.entry.schema.at == 2 * SCHEMA_CACHE_TTL
    ensures !ServedFresh(served)
  {
    var i :| 0 <= i < |served| && served[i] == v;
    assert served[i].at - served[i].entry.schema.at > SCHEMA_CACHE_TTL;
  }

  lemma FirstLoad(qs: seq<Request>, delays: seq<nat>, a: nat, b: nat, key: CacheKey)
    requires a < b < |qs| == |delays| && Loads(qs, a, key) && Loads(qs, b, key) && LoadCount(qs, a, key) == 0
    requires NobodyWaits(qs)
    requires forall i :: 0 <= i < b ==> delays[i] == 0
    requires forall i :: a < i < b ==> !Loads(qs, i, key)
    ensures Remembers(MemoryAt(qs, delays, b), key, 0, 0, 0)
  {
    ClockStands(qs, delays, a);
    EntriesAreCounted(qs, delays, a);
    AskedIsAlive(qs, a, key);
    OldStaysOld(ShapeAt(qs, a), qs[a]);
    var m := MemoryAt(qs, delays, a);
    assert Later(m, 0) == m && key !in m.cache;
    LoadStores(m, qs[a], JobAsked(qs, a).value);
    EntryWaits(qs, delays, a + 1, b, b, key, 0, 0, 0);
  }

  lemma SecondLoad(qs: seq<Request>, delays: seq<nat>, b: nat, c: nat, key: CacheKey)
    requires b < c < |qs| == |delays| && Loads(qs, b, key) && KeyAsked(qs, c) == Some(key)
    requires delays[b] == SCHEMA_CACHE_TTL
    requires forall i :: b < i < c ==> delays[i] == 0 && !qs[i].Wait? && KeyAsked(qs, i) != Some(key)
    requires Remembers(MemoryAt(qs, delays, b), key, 0, 0, 0)
    ensures Remembers(MemoryAt(qs, delays, c), key, SCHEMA_CACHE_TTL, 0, SCHEMA_CACHE_TTL)
  {
    AskedIsAlive(qs, b, key);
    OldStaysOld(ShapeAt(qs, b), qs[b]);
    LoadStores(Later(MemoryAt(qs, delays, b), SCHEMA_CACHE_TTL), qs[b], JobAsked(qs, b).value);
    assert forall i :: b < i < c ==> !Loads(qs, i, key);
    EntryWaits(qs, delays, b + 1, c, c, key, SCHEMA_CACHE_TTL, 0, SCHEMA_CACHE_TTL);
  }

  lemma ThirdRequest(qs: seq<Request>, delays: seq<nat>, c: nat, key: CacheKey) returns (v: Served)
    requires c < |qs| == |delays| && KeyAsked(qs, c) == Some(key) && delays[c] == SCHEMA_CACHE_TTL
    requires Remembers(MemoryAt(qs, delays, c), key, SCHEMA_CACHE_TTL, 0, SCHEMA_CACHE_TTL)
    ensures v in MemoryAt(qs, delays, |qs|).served && v.at - v.entry.schema.at == 2 * SCHEMA_CACHE_TTL
  {
    var m := Later(MemoryAt(qs, delays, c), SCHEMA_CACHE_TTL);
    v := Served(key, JobAsked(qs, c).value.requested, m.cache[key], m.clock);
    HitIsServed(m, qs[c], JobAsked(qs, c).value);
    HistoryStays(qs, delays, c + 1, |qs|, v);
  }

  lemma HitIsServed(m: Memory, q: Request, job: Job)
    requires q.LoadTable? && job.LoadingTable? && IsHit(m, KeyOf(job))
    ensures Served(KeyOf(job), job.requested, m.cache[KeyOf(job)], m.clock) in NextMemory(m, q, Some(job)).served
  {}

  lemma {:induction false} HistoryStays(qs: seq<Request>, delays: seq<nat>, i: nat, k: nat, v: Served)
    requires i <= k <= |qs| == |delays| && v in MemoryAt(qs, delays, i).served
    ensures v in MemoryAt(qs, delays, k).served
    decreases k
  {
    if i < k {
      HistoryStays(qs, delays, i, k - 1, v);
      HistoryGrows(Later(MemoryAt(qs, delays, k - 1), delays[k - 1]), qs[k - 1], JobAsked(qs, k - 1));
    }
  }

  lemma HistoryGrows(m: Memory, q: Request, job: Option<Job>)
    requires job.Some? ==> job.value.LoadingTable?
    ensures m.served <= NextMemory(m, q, job).served
  {}

  // ---------- spellings ----------

  /** A table is loaded once under each spelling: what was loaded is not asked for again in that spelling. */
  lemma SpellingsDiffer(qs: seq<Request>, i: nat, k: nat, key: CacheKey)
    requires i < k < |qs| && Loads(qs, i, key) && KeyAsked(qs, k) == Some(key)
    ensures qs[i].requested != qs[k].requested
  {
    var r := RefOf(JobAsked(qs, i).value);
    AskedIsAlive(qs, i, key);
    OldStaysOld(ShapeAt(qs, i), qs[i]);
    assert r in ShapeAt(qs, i + 1).tables;
    TableStays(qs, i + 1, k, k, r, key);
  }

  lemma {:induction false} TableStays(qs: seq<Request>, i: nat, k: nat, to: nat, r: TableRef, key: CacheKey)
    requires i <= k <= to < |qs| && KeyAsked(qs, to) == Some(key) && r.schema == Some(key.alias)
    requires key.generation < ShapeAt(qs, i).nextGeneration && r in ShapeAt(qs, i).tables
    ensures r in ShapeAt(qs, k).tables
    decreases k
  {
    if i < k {
      TableStays(qs, i, k - 1, to, r, key);
      AliveBetween(qs, i, k - 1, to, key);
      TableStep(ShapeAt(qs, k - 1), qs[k - 1], r, key.alias);
    }
  }

  lemma TableStep(shape: Shape, q: Request, r: TableRef, alias: string)
    requires r in shape.tables && r.schema == Some(alias) && q != RemoveSource(alias)
    ensures r in NextShape(shape, q).tables
  {}

  /** From a fresh daemon: one table, asked for in three spellings. */
  function ThreeSpellings(): seq<Request> {
    [RegisterDatabase("db", "a.db", ["ab"]), LoadTable("db", "db", "ab", true),
     LoadTable("db", "db", "Ab", true), LoadTable("db", "db", "AB", true)]
  }

  lemma NobodyWaitsForSpellings()
    ensures NobodyWaits(ThreeSpellings())
  {}

  lemma ThreeSpellingsAskThreeTimes()
    ensures AsksThirdTime(ThreeSpellings())
  {
    var qs, key := ThreeSpellings(), CacheKey("db", 1, "ab");
    assert EqIgnoreAsciiCase("ab", "Ab") && EqIgnoreAsciiCase("ab", "AB");
    assert FindTable(["ab"], "ab") == FindTable(["ab"], "Ab") == FindTable(["ab"], "AB") == Some("ab");
    var s1, s2, s3 := ShapeAt(qs, 1), ShapeAt(qs, 2), ShapeAt(qs, 3);
    assert s1 == Shape(map["db" := DatabaseSource], map["db" := Registration(1, "a.db", ["ab"])], 2, {});
    assert Loads(qs, 1, key) && s2 == s1.(tables := {TableRef(Some("db"), "ab")});
    assert Loads(qs, 2, key) && s3 == s2.(tables := {TableRef(Some("db"), "ab"), TableRef(Some("db"), "Ab")});
    assert KeyAsked(qs, 3) == Some(key);
    assert LoadCount(qs, 3, key) == LoadCount(qs, 2, key) + 1 == LoadCount(qs, 1, key) + 2;
  }

  /** A run of a fresh daemon in which a schema of twice the TTL is handed out. */
  lemma OldSchemaIsServed() returns (es: seq<Event>, v: Served)
    ensures Run(INIT, es).Some? && v in Run(INIT, es).value.served
    ensures v.at - v.entry.schema.at == 2 * SCHEMA_CACHE_TTL
  {
    ThreeSpellingsAskThreeTimes();
    NobodyWaitsForSpellings();
    es, v := ThirdTimeRuns(ThreeSpellings());
  }

  /** Any requests that ask for a table a third time have delays under which an old schema is served. */
  lemma ThirdTimeRuns(qs: seq<Request>) returns (es: seq<Event>, v: Served)
    requires AsksThirdTime(qs) && NobodyWaits(qs)
    ensures Run(INIT, es).Some? && v in Run(INIT, es).value.served
    ensures v.at - v.entry.schema.at == 2 * SCHEMA_CACHE_TTL
  {
    var delays: seq<nat>;
    delays, v := ThirdTimeIsStale(qs);
    es := StateAtIsReached(qs, delays, |qs|);
  }
}
