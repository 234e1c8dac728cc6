/** What makes a schema older than the TTL, over every interleaving: only that a hit stored it again. */
module SourceRenewals {
  import opened Common
  import opened SourceRegistry

  ghost predicate HandedOut(served: seq<Served>, key: CacheKey, schema: RemoteSchema) {
    exists i :: 0 <= i < |served| && served[i].key == key && served[i].entry.schema == schema
  }

  /** How long a load that introspected its schema itself has held it when it stores it. */
  ghost function StoreDelay(s: State, e: Event): nat {
    if e.Advance? && e.j in s.jobs && s.jobs[e.j].LoadingTable? && s.jobs[e.j].stage.Storing?
       && !HandedOut(s.served, KeyOf(s.jobs[e.j]), s.jobs[e.j].stage.schema)
    then SatSub(s.clock, s.jobs[e.j].stage.schema.at) else 0
  }

  /** The longest such delay in a run. */
  ghost function SlowestStore(s: State, es: seq<Event>): nat
    decreases es
  {
    if es == [] || !Enabled(s, es[0]) then 0
    else Max(StoreDelay(s, es[0]), SlowestStore(Step(s, es[0]), es[1..]))
  }

  /** A schema that a load found in the cache was handed out. */
  ghost predicate JobHasOrigin(served: seq<Served>, job: Job) {
    job.LoadingTable? && job.stage.Introspecting? && job.stage.hint.Some? ==>
      HandedOut(served, KeyOf(job), job.stage.hint.value)
  }

  /** What is in the cache was stored soon after its introspection, or had been handed out. */
  ghost predicate EntriesHaveOrigins(s: State, lag: nat) {
    forall k :: k in s.cache ==>
      s.cache[k].cachedAt - s.cache[k].schema.at <= lag || HandedOut(s.served, k, s.cache[k].schema)
  }

  ghost predicate JobsHaveOrigins(s: State) {
    forall j :: j in s.jobs ==> JobHasOrigin(s.served, s.jobs[j])
  }

  /** Only what had been handed out before is handed out later than the TTL, and the delay, after its introspection. */
  ghost predicate OldOnesWereHandedOut(served: seq<Served>, lag: nat) {
    forall i :: 0 <= i < |served| ==>
      served[i].at - served[i].entry.schema.at <= SCHEMA_CACHE_TTL + lag
      || HandedOut(served[..i], served[i].key, served[i].entry.schema)
  }

  ghost predicate HaveOrigins(s: State, lag: nat) {
    EntriesHaveOrigins(s, lag) && JobsHaveOrigins(s) && OldOnesWereHandedOut(s.served, lag)
  }

  lemma HandedOutStays(served: seq<Served>, v: Served, key: CacheKey, schema: RemoteSchema)
    requires HandedOut(served, key, schema)
    ensures HandedOut(served + [v], key, schema)
  {
    var i :| 0 <= i < |served| && served[i].key == key && served[i].entry.schema == schema;
    assert (served + [v])[i] == served[i];
  }

  lemma HandingOut(s: State, key: CacheKey, requested: string, lag: nat)
    requires HaveOrigins(s, lag) && CacheHit(s, key)
    ensures var v := Served(key, requested, s.cache[key], s.clock);
            HaveOrigins(s.(served := s.served + [v]), lag) && HandedOut(s.served + [v], key, s.cache[key].schema)
  {
    var v := Served(key, requested, s.cache[key], s.clock);
    var after := s.(served := s.served + [v]);
    assert after.served[|s.served|] == v && after.served[..|s.served|] == s.served;
    forall k, schema | HandedOut(s.served, k, schema) ensures HandedOut(after.served, k, schema) {
      HandedOutStays(s.served, v, k, schema);
    }
    forall i | 0 <= i < |s.served| ensures after.served[..i] == s.served[..i] && after.served[i] == s.served[i] {}
    forall j | j in after.jobs ensures JobHasOrigin(after.served, after.jobs[j]) {
      assert JobHasOrigin(s.served, s.jobs[j]);
    }
  }

  lemma ContinueHasOrigins(s: State, j: JobId, job: Job, lag: nat)
    requires HaveOrigins(s, lag) && JobHasOrigin(s.served, job)
    ensures HaveOrigins(Continue(s, j, job), lag) && HaveOrigins(Done(s, j), lag)
  {}

  lemma LookUpHasOrigins(s: State, j: JobId, job: Job, lag: nat)
    requires HaveOrigins(s, lag) && job.LoadingTable? && job.stage.Looking?
    ensures HaveOrigins(LookUpStep(s, j, job), lag)
  {
    var key := KeyOf(job);
    if CacheHit(s, key) {
      var next := job.(stage := Introspecting(Some(s.cache[key].schema)));
      var v := Served(key, job.requested, s.cache[key], s.clock);
      var handed := s.(served := s.served + [v]);
      HandingOut(s, key, job.requested, lag);
      ContinueHasOrigins(handed, j, next, lag);
      assert LookUpStep(s, j, job) == Continue(handed, j, next);
    } else {
      ContinueHasOrigins(s, j, job.(stage := Introspecting(None)), lag);
    }
  }

  lemma StoreHasOrigins(s: State, key: CacheKey, schema: RemoteSchema, lag: nat)
    requires HaveOrigins(s, lag) && (s.clock - schema.at <= lag || HandedOut(s.served, key, schema))
    ensures HaveOrigins(s.(cache := s.cache[key := CacheEntry(schema, s.clock)]), lag)
  {}

  lemma LoadHasOrigins(s: State, j: JobId, lag: nat)
    requires HaveOrigins(s, lag) && j in s.jobs && s.jobs[j].LoadingTable? && StoreDelay(s, Advance(j)) <= lag
    ensures HaveOrigins(LoadStep(s, j, s.jobs[j]), lag)
  {
    var job := s.jobs[j];
    assert JobHasOrigin(s.served, job);
    match job.stage
    case Looking => LookUpHasOrigins(s, j, job, lag);
    case Checking => ContinueHasOrigins(s, j, job.(stage := Looking), lag);
    case Introspecting(hint) =>
      var schema := if hint.Some? then hint.value else RemoteSchema(job.registration.connection, job.table, s.clock);
      ContinueHasOrigins(s, j, job.(stage := Storing(schema)), lag);
    case Storing(schema) =>
      ContinueHasOrigins(s, j, job.(stage := Publishing(schema)), lag);
      StoreHasOrigins(Continue(s, j, job.(stage := Publishing(schema))), KeyOf(job), schema, lag);
    case Publishing(schema) => ContinueHasOrigins(s, j, job.(stage := Inserting(schema)), lag);
    case Inserting(_) => ContinueHasOrigins(s, j, job, lag);
  }

  lemma AdvanceHasOrigins(s: State, j: JobId, lag: nat)
    requires HaveOrigins(s, lag) && j in s.jobs && StoreDelay(s, Advance(j)) <= lag
    ensures HaveOrigins(AdvanceStep(s, j), lag)
  {
    match s.jobs[j]
    case LoadingTable(_, _, _, _, _) => LoadHasOrigins(s, j, lag);
    case RegisteringDatabase(_, _, _) => ContinueHasOrigins(s, j, s.jobs[j], lag);
    case RegisteringFile(_) => ContinueHasOrigins(s, j, s.jobs[j], lag);
    case Removing(name, stage) => RemovalHasOrigins(s, j, name, stage, lag);
  }

  lemma RemovalHasOrigins(s: State, j: JobId, name: string, stage: RemovalStage, lag: nat)
    requires HaveOrigins(s, lag)
    ensures HaveOrigins(RemovalStep(s, j, name, stage), lag)
  {
    match stage
    case Deregistering(_) => ContinueHasOrigins(s, j, Removing(name, Uncataloguing), lag);
    case Uncataloguing => ContinueHasOrigins(s, j, Removing(name, Unregistering), lag);
    case Unregistering => ContinueHasOrigins(s, j, Removing(name, Clearing), lag);
    case Clearing => ContinueHasOrigins(s, j, Removing(name, Clearing), lag);
  }

  lemma OriginsStep(s: State, e: Event, lag: nat)
    requires Enabled(s, e) && HaveOrigins(s, lag) && StoreDelay(s, e) <= lag
    ensures HaveOrigins(Step(s, e), lag)
  {
    match e
    case Tick(_) =>
    case CatalogDatabase(j, alias, connection, tables) =>
      ContinueHasOrigins(s, j, RegisteringDatabase(alias, connection, tables), lag);
    case CatalogFile(j, name) => ContinueHasOrigins(s, j, RegisteringFile(name), lag);
    case BeginRemoval(j, name) => ContinueHasOrigins(s, j, Removing(name, Deregistering(IsDatabase(s, name))), lag);
    case BeginLoad(j, alias, _, requested) =>
      var table := FindTable(s.registrations[alias].tables, requested);
      if table.Some? {
        ContinueHasOrigins(s, j, LoadingTable(alias, s.registrations[alias], table.value, requested, Checking), lag);
      }
    case Advance(j) => AdvanceHasOrigins(s, j, lag);
    case LoadFails(j) => ContinueHasOrigins(s, j, s.jobs[j], lag);
  }

  lemma {:induction false} RunKeepsOrigins(s: State, es: seq<Event>, lag: nat)
    requires HaveOrigins(s, lag) && Run(s, es).Some? && SlowestStore(s, es) <= lag
    ensures HaveOrigins(Run(s, es).value, lag)
    decreases es
  {
    if es != [] {
      OriginsStep(s, es[0], lag);
      RunKeepsOrigins(Step(s, es[0]), es[1..], lag);
    }
  }

  /**
   * Over every interleaving, however long requests wait: the first time that a schema is handed out for a
   * key it is older than the TTL by at most the time that a load held the schema it introspected before it
   * stored it. So only the renewal of an entry by a hit can make it older.
   */
  lemma FirstHitsAreFresh(es: seq<Event>, i: nat)
    requires Run(INIT, es).Some? && i < |Run(INIT, es).value.served|
    ensures var served := Run(INIT, es).value.served;
            var v := served[i];
            !HandedOut(served[..i], v.key, v.entry.schema) ==>
              v.at - v.entry.schema.at <= SCHEMA_CACHE_TTL + SlowestStore(INIT, es)
  {
    RunKeepsOrigins(INIT, es, SlowestStore(INIT, es));
  }

  /** What a load found in the cache instead of introspecting it was handed out: such loads do not delay. */
  lemma FoundMeansHandedOut(es: seq<Event>, j: JobId)
    requires Run(INIT, es).Some? && j in Run(INIT, es).value.jobs
    ensures JobHasOrigin(Run(INIT, es).value.served, Run(INIT, es).value.jobs[j])
  {
    RunKeepsOrigins(INIT, es, SlowestStore(INIT, es));
  }
}
