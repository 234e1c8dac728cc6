/** Requests that run alone, from their first step to their last, and what whole sequences of them keep. */
module SourceRequests {
  import opened Common
  import opened SourceRegistry
  import opened Strings

  // ---------- running a job to its end ----------

  function StepsLeft(job: Job): nat {
    match job
    case RegisteringDatabase(_, _, _) => 1
    case RegisteringFile(_) => 1
    case Removing(_, stage) => (
      match stage case Deregistering(_) => 4 case Uncataloguing => 3 case Unregistering => 2 case Clearing => 1)
    case LoadingTable(_, _, _, _, stage) =>
      match stage
      case Checking => 6
      case Looking => 5
      case Introspecting(_) => 4
      case Storing(_) => 3
      case Publishing(_) => 2
      case Inserting(_) => 1
  }

  function RefOf(job: Job): TableRef
    requires job.LoadingTable?
  {
    TableRef(Some(job.alias), job.requested)
  }

  /** A step ends its job or brings it closer to its end, and leaves the other jobs alone. */
  ghost predicate Shrinks(s: State, after: State, j: JobId, job: Job) {
    || after.jobs == s.jobs - {j}
    || (j in after.jobs && after.jobs == s.jobs[j := after.jobs[j]] && StepsLeft(after.jobs[j]) < StepsLeft(job))
  }

  lemma RemovalShrinks(s: State, j: JobId, name: string, stage: RemovalStage)
    ensures Shrinks(s, RemovalStep(s, j, name, stage), j, Removing(name, stage))
  {}

  lemma LookUpShrinks(s: State, j: JobId, job: Job)
    requires job.LoadingTable? && job.stage.Looking?
    ensures Shrinks(s, LookUpStep(s, j, job), j, job)
  {}

  lemma LoadShrinks(s: State, j: JobId, job: Job)
    requires job.LoadingTable?
    ensures Shrinks(s, LoadStep(s, j, job), j, job)
  {
    var r, after := RefOf(job), LoadStep(s, j, job);
    match job.stage
    case Looking => LookUpShrinks(s, j, job);
    case Checking => assert after.jobs == if r in s.registry then s.jobs - {j} else s.jobs[j := job.(stage := Looking)];
    case Introspecting(_) => assert after.jobs == s.jobs[j := after.jobs[j]] && after.jobs[j].stage.Storing?;
    case Storing(schema) => assert after.jobs == s.jobs[j := job.(stage := Publishing(schema))];
    case Publishing(schema) =>
      assert after.jobs == if r in s.registry then s.jobs - {j} else s.jobs[j := job.(stage := Inserting(schema))];
    case Inserting(_) => assert after.jobs == s.jobs - {j};
  }

  lemma AdvanceShrinks(s: State, j: JobId)
    requires j in s.jobs
    ensures var after := AdvanceStep(s, j);
            && after.jobs - {j} == s.jobs - {j}
            && (j in after.jobs ==> StepsLeft(after.jobs[j]) < StepsLeft(s.jobs[j]))
  {
    match s.jobs[j]
    case Removing(name, stage) => RemovalShrinks(s, j, name, stage);
    case LoadingTable(_, _, _, _, _) => LoadShrinks(s, j, s.jobs[j]);
    case _ =>
  }

  /** The remaining steps of a job, in which every wait ends well. */
  function AllSteps(s: State, j: JobId): seq<Event>
    requires j in s.jobs
    decreases StepsLeft(s.jobs[j])
  {
    AdvanceShrinks(s, j);
    var after := AdvanceStep(s, j);
    [Advance(j)] + if j in after.jobs then AllSteps(after, j) else []
  }

  function Finish(s: State, j: JobId): State
    requires j in s.jobs
    decreases StepsLeft(s.jobs[j])
  {
    AdvanceShrinks(s, j);
    var after := AdvanceStep(s, j);
    if j in after.jobs then Finish(after, j) else after
  }

  lemma {:induction false} FinishRuns(s: State, j: JobId)
    requires j in s.jobs
    ensures Run(s, AllSteps(s, j)) == Some(Finish(s, j)) && Finish(s, j).jobs == s.jobs - {j}
    decreases StepsLeft(s.jobs[j])
  {
    AdvanceShrinks(s, j);
    var after := AdvanceStep(s, j);
    RunOne(s, Advance(j));
    if j in after.jobs {
      FinishRuns(after, j);
      RunAppend(s, [Advance(j)], AllSteps(after, j));
    } else {
      assert [Advance(j)] + [] == [Advance(j)];
    }
  }

  // ---------- what finished jobs leave ----------

  function Removed(s: State, name: string, database: bool): State {
    s.(registry := if database then map r | r in s.registry && r.schema != Some(name) :: s.registry[r]
                   else s.registry - {TableRef(None, name)},
       catalog := s.catalog - {name},
       registrations := s.registrations - {name},
       cache := map k | k in s.cache && k.alias != name :: s.cache[k])
  }

  lemma RemovalFinishes(s: State, j: JobId, name: string, database: bool)
    requires j in s.jobs && s.jobs[j] == Removing(name, Deregistering(database))
    ensures Finish(s, j) == Removed(Done(s, j), name, database)
  {
    var s1 := AdvanceStep(s, j);
    var s2 := AdvanceStep(s1, j);
    var s3 := AdvanceStep(s2, j);
    assert s3.jobs[j] == Removing(name, Clearing) && s3.jobs - {j} == s.jobs - {j};
    assert Finish(s3, j) == AdvanceStep(s3, j);
    assert Finish(s, j) == Finish(s1, j) == Finish(s2, j) == Finish(s3, j);
  }

  /** What a load leaves behind once it has its schema. */
  function Published(s: State, job: Job, schema: RemoteSchema): State
    requires job.LoadingTable?
  {
    s.(cache := s.cache[KeyOf(job) := CacheEntry(schema, s.clock)],
       registry := if RefOf(job) in s.registry then s.registry
                   else s.registry[RefOf(job) := RemoteProvider(job.registration, schema)])
  }

  function FreshSchema(s: State, job: Job): RemoteSchema
    requires job.LoadingTable?
  {
    RemoteSchema(job.registration.connection, job.table, s.clock)
  }

  /** A look-up hands out a fresh entry, and drops an expired one. */
  function LookedUp(s: State, job: Job): State
    requires job.LoadingTable?
  {
    var key := KeyOf(job);
    if CacheHit(s, key) then s.(served := s.served + [Served(key, job.requested, s.cache[key], s.clock)])
    else s.(cache := s.cache - {key})
  }

  /** Loading a table without interference. */
  function Loaded(s: State, job: Job): State
    requires job.LoadingTable?
  {
    var key := KeyOf(job);
    Published(LookedUp(s, job), job, if CacheHit(s, key) then s.cache[key].schema else FreshSchema(s, job))
  }

  lemma InsertingLoadFinishes(s: State, j: JobId, schema: RemoteSchema)
    requires j in s.jobs && s.jobs[j].LoadingTable? && s.jobs[j].stage == Inserting(schema)
    ensures var job := s.jobs[j];
            Finish(s, j) == Done(s, j).(registry := s.registry[RefOf(job) := RemoteProvider(job.registration, schema)])
  {
    assert Finish(s, j) == AdvanceStep(s, j);
  }

  lemma PublishingLoadFinishes(s: State, j: JobId, schema: RemoteSchema)
    requires j in s.jobs && s.jobs[j].LoadingTable? && s.jobs[j].stage == Publishing(schema)
    ensures var job := s.jobs[j];
            Finish(s, j) == if RefOf(job) in s.registry then Done(s, j)
                            else Done(s, j).(registry := s.registry[RefOf(job) :=
                                                           RemoteProvider(job.registration, schema)])
  {
    var job := s.jobs[j];
    var next := job.(stage := Inserting(schema));
    FinishGoesOn(s, j);
    PublishingAdvances(s, j, schema);
    if RefOf(job) !in s.registry {
      ContinueIsThere(s, j, next);
      InsertingLoadFinishes(Continue(s, j, next), j, schema);
    }
  }

  lemma PublishingAdvances(s: State, j: JobId, schema: RemoteSchema)
    requires j in s.jobs && s.jobs[j].LoadingTable? && s.jobs[j].stage == Publishing(schema)
    ensures AdvanceStep(s, j) == if RefOf(s.jobs[j]) in s.registry then Done(s, j)
                                 else Continue(s, j, s.jobs[j].(stage := Inserting(schema)))
  {}

  lemma CheckingAdvances(s: State, j: JobId)
    requires j in s.jobs && s.jobs[j].LoadingTable? && s.jobs[j].stage.Checking?
    ensures AdvanceStep(s, j) == if RefOf(s.jobs[j]) in s.registry then Done(s, j)
                                 else Continue(s, j, s.jobs[j].(stage := Looking))
  {}

  lemma ContinueIsThere(s: State, j: JobId, job: Job)
    ensures var s1 := Continue(s, j, job);
            j in s1.jobs && s1.jobs[j] == job && Done(s1, j) == Done(s, j) && s1.registry == s.registry
  {
    assert s.jobs[j := job] - {j} == s.jobs - {j};
  }

  lemma StoredLoadFinishes(s: State, j: JobId, schema: RemoteSchema)
    requires j in s.jobs && s.jobs[j].LoadingTable? && s.jobs[j].stage == Storing(schema)
    ensures Finish(s, j) == Published(Done(s, j), s.jobs[j], schema)
  {
    var job, s1 := s.jobs[j], AdvanceStep(s, j);
    assert s1.jobs[j] == job.(stage := Publishing(schema)) && s1.jobs - {j} == s.jobs - {j};
    PublishingLoadFinishes(s1, j, schema);
    FinishGoesOn(s, j);
  }

  lemma WaitingLoadFinishes(s: State, j: JobId, hint: Option<RemoteSchema>)
    requires j in s.jobs && s.jobs[j].LoadingTable? && s.jobs[j].stage == Introspecting(hint)
    ensures Finish(s, j) ==
            Published(Done(s, j), s.jobs[j], if hint.Some? then hint.value else FreshSchema(s, s.jobs[j]))
  {
    var job, s1 := s.jobs[j], AdvanceStep(s, j);
    var schema := if hint.Some? then hint.value else FreshSchema(s, job);
    assert s1 == Continue(s, j, job.(stage := Storing(schema))) && Done(s1, j) == Done(s, j);
    StoredLoadFinishes(s1, j, schema);
    FinishGoesOn(s, j);
  }

  lemma LookUpLooksUp(s: State, j: JobId)
    requires j in s.jobs && s.jobs[j].LoadingTable? && s.jobs[j].stage.Looking?
    ensures var job, after := s.jobs[j], AdvanceStep(s, j);
            && j in after.jobs
            && after.jobs[j] == job.(stage := Introspecting(
                                  if CacheHit(s, KeyOf(job)) then Some(s.cache[KeyOf(job)].schema) else None))
            && Done(after, j) == LookedUp(Done(s, j), job)
  {
    var job, after := s.jobs[j], AdvanceStep(s, j);
    assert after.jobs - {j} == s.jobs - {j};
    if KeyOf(job) !in s.cache {
      assert s.cache - {KeyOf(job)} == s.cache;
    }
  }

  /** A load from its first check to its end: a registered table ends it, otherwise it loads. */
  lemma LoadFinishes(s: State, j: JobId)
    requires j in s.jobs && s.jobs[j].LoadingTable? && s.jobs[j].stage.Checking?
    ensures Finish(s, j) == if RefOf(s.jobs[j]) in s.registry then Done(s, j) else Loaded(Done(s, j), s.jobs[j])
  {
    var job := s.jobs[j];
    FinishGoesOn(s, j);
    CheckingAdvances(s, j);
    if RefOf(job) !in s.registry {
      ContinueIsThere(s, j, job.(stage := Looking));
      LookingLoadFinishes(Continue(s, j, job.(stage := Looking)), j);
      StageDoesNotMatter(Done(s, j), job, Looking);
    }
  }

  lemma FinishGoesOn(s: State, j: JobId)
    requires j in s.jobs
    ensures var after := AdvanceStep(s, j); Finish(s, j) == if j in after.jobs then Finish(after, j) else after
  {}

  lemma StageDoesNotMatter(s: State, job: Job, stage: LoadStage)
    requires job.LoadingTable?
    ensures Loaded(s, job) == Loaded(s, job.(stage := stage))
  {
    assert KeyOf(job) == KeyOf(job.(stage := stage));
  }

  lemma LookingLoadFinishes(s: State, j: JobId)
    requires j in s.jobs && s.jobs[j].LoadingTable? && s.jobs[j].stage.Looking?
    ensures Finish(s, j) == Loaded(Done(s, j), s.jobs[j])
  {
    var s1 := AdvanceStep(s, j);
    LookUpLooksUp(s, j);
    WaitingLoadFinishes(s1, j, s1.jobs[j].stage.hint);
    FinishGoesOn(s, j);
  }

  // ---------- requests ----------

  datatype Request =
    | RegisterDatabase(alias: string, connection: string, tables: seq<string>)
    | RegisterFile(name: string)
    | RemoveSource(name: string)
    | LoadTable(alias: string, requestedAlias: string, requested: string, succeeds: bool)
    | Wait(elapsed: nat)

  ghost predicate Quiet(s: State) { s.jobs == map[] }

  function FirstEvent(q: Request): Event {
    match q
    case RegisterDatabase(alias, connection, tables) => CatalogDatabase(0, alias, connection, tables)
    case RegisterFile(name) => CatalogFile(0, name)
    case RemoveSource(name) => BeginRemoval(0, name)
    case LoadTable(alias, requestedAlias, requested, _) => BeginLoad(0, alias, requestedAlias, requested)
    case Wait(elapsed) => Tick(elapsed)
  }

  /** The load a request for a table comes to, unless the alias, the listing or the registry ends it. */
  function LoadOf(s: State, q: Request): Option<Job>
    ensures LoadOf(s, q).Some? ==> LoadOf(s, q).value.LoadingTable? && q.LoadTable?
  {
    if !q.LoadTable? || !Resolves(s, q.alias, q.requestedAlias) || TableRef(Some(q.alias), q.requested) in s.registry
    then None
    else match FindTable(s.registrations[q.alias].tables, q.requested)
         case None => None
         case Some(table) => Some(LoadingTable(q.alias, s.registrations[q.alias], table, q.requested, Checking))
  }

  /** The steps of a request that runs alone; a load may fail while it waits for the remote schema. */
  function EventsOf(s: State, q: Request): seq<Event> {
    var e := FirstEvent(q);
    if !Enabled(s, e) then []
    else if LoadOf(s, q).Some? && !q.succeeds then [e, Advance(0), Advance(0), LoadFails(0)]
    else [e] + if 0 in Step(s, e).jobs then AllSteps(Step(s, e), 0) else []
  }

  /** What a request that runs alone leaves. */
  function After(s: State, q: Request): State {
    match q
    case RegisterDatabase(alias, connection, tables) =>
      var registration := Registration(s.nextGeneration, connection, tables);
      s.(catalog := s.catalog[alias := DatabaseSource],
         registrations := s.registrations[alias := registration],
         nextGeneration := s.nextGeneration + 1,
         published := s.published[s.nextGeneration := Publication(alias, registration)])
    case RegisterFile(name) =>
      s.(catalog := s.catalog[name := FileSource], registry := s.registry[TableRef(None, name) := FileProvider])
    case RemoveSource(name) => Removed(s, name, IsDatabase(s, name))
    case LoadTable(_, _, _, succeeds) =>
      (match LoadOf(s, q)
       case None => s
       case Some(job) => if succeeds then Loaded(s, job) else LookedUp(s, job))
    case Wait(elapsed) => s.(clock := s.clock + elapsed)
  }

  /** The closed form is what the steps come to. */
  lemma AfterIsRun(s: State, q: Request)
    requires Quiet(s)
    ensures Run(s, EventsOf(s, q)) == Some(After(s, q)) && Quiet(After(s, q))
  {
    var e := FirstEvent(q);
    if Enabled(s, e) {
      var s1 := Step(s, e);
      RunOne(s, e);
      if LoadOf(s, q).Some? && !q.succeeds {
        FailedLoadRuns(s, q);
      } else if 0 in s1.jobs {
        FinishRuns(s1, 0);
        RunAppend(s, [e], AllSteps(s1, 0));
        AfterIsFinish(s, q);
      } else {
        assert [e] + [] == [e];
      }
    }
  }

  lemma AfterIsFinish(s: State, q: Request)
    requires Quiet(s) && Enabled(s, FirstEvent(q)) && 0 in Step(s, FirstEvent(q)).jobs
    requires LoadOf(s, q).Some? ==> q.succeeds
    ensures Finish(Step(s, FirstEvent(q)), 0) == After(s, q)
  {
    var s1 := Step(s, FirstEvent(q));
    assert Done(s1, 0).jobs == map[];
    match q
    case RegisterDatabase(_, _, _) => assert Finish(s1, 0) == AdvanceStep(s1, 0);
    case RegisterFile(_) => assert Finish(s1, 0) == AdvanceStep(s1, 0);
    case RemoveSource(name) => RemovalFinishes(s1, 0, name, IsDatabase(s, name));
    case LoadTable(_, _, _, _) =>
      assert Done(s1, 0) == s;
      LoadFinishes(s1, 0);
  }

  lemma FailedLoadRuns(s: State, q: Request)
    requires Quiet(s) && LoadOf(s, q).Some? && !q.succeeds
    ensures Run(s, EventsOf(s, q)) == Some(After(s, q))
  {
    var e, job := FirstEvent(q), LoadOf(s, q).value;
    LoadBegins(s, q);
    FailedLoadEnds(Step(s, e), 0);
    RunOne(s, e);
    RunAppend(s, [e], [Advance(0), Advance(0), LoadFails(0)]);
    assert [e] + [Advance(0), Advance(0), LoadFails(0)] == EventsOf(s, q);
  }

  lemma LoadBegins(s: State, q: Request)
    requires Quiet(s) && LoadOf(s, q).Some?
    ensures var s1, job := Continue(s, 0, LoadOf(s, q).value), LoadOf(s, q).value;
            && Enabled(s, FirstEvent(q)) && Step(s, FirstEvent(q)) == s1
            && Done(s1, 0) == s && s1.jobs[0] == job && job.stage.Checking? && RefOf(job) !in s1.registry
  {
    ContinueIsThere(s, 0, LoadOf(s, q).value);
    assert s.jobs - {0} == s.jobs;
  }

  /** A load that finds nothing registered looks the schema up, and fails while it waits. */
  lemma FailedLoadEnds(s: State, j: JobId)
    requires j in s.jobs && s.jobs[j].LoadingTable? && s.jobs[j].stage.Checking? && RefOf(s.jobs[j]) !in s.registry
    ensures Run(s, [Advance(j), Advance(j), LoadFails(j)]) == Some(LookedUp(Done(s, j), s.jobs[j]))
  {
    var next := s.jobs[j].(stage := Looking);
    var s1 := Continue(s, j, next);
    CheckingAdvances(s, j);
    ContinueIsThere(s, j, next);
    LookUpLooksUp(s1, j);
    RunThree(s, j);
    assert KeyOf(next) == KeyOf(s.jobs[j]);
  }

  lemma RunThree(s: State, j: JobId)
    requires j in s.jobs && j in AdvanceStep(s, j).jobs
    requires Enabled(AdvanceStep(AdvanceStep(s, j), j), LoadFails(j))
    ensures Run(s, [Advance(j), Advance(j), LoadFails(j)]) == Some(Done(AdvanceStep(AdvanceStep(s, j), j), j))
  {
    var s1 := AdvanceStep(s, j);
    var s2 := AdvanceStep(s1, j);
    RunOne(s, Advance(j));
    RunOne(s1, Advance(j));
    RunOne(s2, LoadFails(j));
    RunAppend(s1, [Advance(j)], [LoadFails(j)]);
    RunAppend(s, [Advance(j)], [Advance(j)] + [LoadFails(j)]);
    assert [Advance(j)] + ([Advance(j)] + [LoadFails(j)]) == [Advance(j), Advance(j), LoadFails(j)];
  }

  // ---------- removal ----------

  predicate NamesNothing(s: State, name: string) {
    && name !in s.catalog && name !in s.registrations
    && TableRef(None, name) !in s.registry
    && (forall r :: r in s.registry ==> r.schema != Some(name))
    && (forall k :: k in s.cache ==> k.alias != name)
  }

  /** The catalog's kind for the name matches every table registered under it. */
  predicate CatalogCovers(s: State, name: string) {
    if IsDatabase(s, name) then TableRef(None, name) !in s.registry
    else forall r :: r in s.registry ==> r.schema != Some(name)
  }

  /**
   * An uninterrupted removal leaves nothing of that name in catalog, registrations, registry and
   * cache exactly when the catalog's kind covers the tables registered under the name.
   */
  lemma RemovalIsComplete(s: State, j: JobId, name: string)
    requires j !in s.jobs
    ensures var s1 := Step(s, BeginRemoval(j, name));
            var after := Run(s, [BeginRemoval(j, name)] + AllSteps(s1, j));
            after.Some? && after.value.jobs == s.jobs && (NamesNothing(after.value, name) <==> CatalogCovers(s, name))
  {
    var s1 := Step(s, BeginRemoval(j, name));
    RunOne(s, BeginRemoval(j, name));
    FinishRuns(s1, j);
    RunAppend(s, [BeginRemoval(j, name)], AllSteps(s1, j));
    RemovalFinishes(s1, j, name, IsDatabase(s, name));
    assert Done(s1, j).jobs == s.jobs;
    RemovedNamesNothing(s, name);
  }

  lemma RemovedNamesNothing(s: State, name: string)
    ensures NamesNothing(Removed(s, name, IsDatabase(s, name)), name) <==> CatalogCovers(s, name)
  {
    var after := Removed(s, name, IsDatabase(s, name));
    if !CatalogCovers(s, name) {
      if IsDatabase(s, name) {
        assert TableRef(None, name) in after.registry;
      } else {
        var r :| r in s.registry && r.schema == Some(name);
        assert r in after.registry;
      }
    }
  }

  // ---------- what a request for a table comes to ----------

  /** The registered alias a request means: its own name, else one that is the same but for case. */
  predicate Means(s: State, alias: string, requestedAlias: string) {
    && alias in s.registrations
    && if requestedAlias in s.registrations then alias == requestedAlias else SameButForCase(alias, requestedAlias)
  }

  /** Nothing is loaded for an unknown alias, a table that is not listed, or one that is registered already. */
  lemma NothingToLoad(s: State, q: Request)
    requires q.LoadTable?
    requires Means(s, q.alias, q.requestedAlias) ==>
               || TableRef(Some(q.alias), q.requested) in s.registry
               || forall i :: 0 <= i < |s.registrations[q.alias].tables| ==>
                    !SameButForCase(s.registrations[q.alias].tables[i], q.requested)
    ensures After(s, q) == s
  {
    CaseIsIgnored(q.alias, q.requestedAlias);
    if q.alias in s.registrations {
      FoundIsPicked(s.registrations[q.alias].tables, q.requested);
    }
  }

  /**
   * Otherwise the table picked for its name is registered under the name asked for, with the schema that the
   * cache holds if it was stored within the TTL, or else one introspected now; and the schema is stored.
   */
  lemma WhatIsLoaded(s: State, q: Request, table: string)
    requires q.LoadTable? && Means(s, q.alias, q.requestedAlias)
    requires Picked(s.registrations[q.alias].tables, q.requested, table)
    requires TableRef(Some(q.alias), q.requested) !in s.registry
    ensures var registration, after := s.registrations[q.alias], After(s, q);
            var key := CacheKey(q.alias, registration.generation, table);
            var hit := key in s.cache && s.clock - s.cache[key].cachedAt <= 300;
            var schema := if hit then s.cache[key].schema else RemoteSchema(registration.connection, table, s.clock);
            && after.registry == (if q.succeeds then s.registry[TableRef(Some(q.alias), q.requested) :=
                                                                  RemoteProvider(registration, schema)]
                                  else s.registry)
            && after.cache == (if q.succeeds then s.cache[key := CacheEntry(schema, s.clock)]
                               else if hit then s.cache else s.cache - {key})
            && after.served == s.served + (if hit then [Served(key, q.requested, s.cache[key], s.clock)] else [])
            && after.registrations == s.registrations && after.catalog == s.catalog
  {
    var job := LoadingTable(q.alias, s.registrations[q.alias], table, q.requested, Checking);
    PickedIsLoaded(s, q, table);
    LoadLeaves(s, job);
    assert After(s, q) == if q.succeeds then Loaded(s, job) else LookedUp(s, job);
  }

  lemma PickedIsLoaded(s: State, q: Request, table: string)
    requires q.LoadTable? && Means(s, q.alias, q.requestedAlias)
    requires Picked(s.registrations[q.alias].tables, q.requested, table)
    requires TableRef(Some(q.alias), q.requested) !in s.registry
    ensures LoadOf(s, q) == Some(LoadingTable(q.alias, s.registrations[q.alias], table, q.requested, Checking))
  {
    var tables := s.registrations[q.alias].tables;
    CaseIsIgnored(q.alias, q.requestedAlias);
    FoundIsPicked(tables, q.requested);
    PickedIsListed(tables, q.requested, table);
    OnePicked(tables, q.requested, table, FindTable(tables, q.requested).value);
  }

  lemma LoadLeaves(s: State, job: Job)
    requires job.LoadingTable? && TableRef(Some(job.alias), job.requested) !in s.registry
    ensures var key := CacheKey(job.alias, job.registration.generation, job.table);
            var hit := key in s.cache && s.clock - s.cache[key].cachedAt <= 300;
            var schema := if hit then s.cache[key].schema
                          else RemoteSchema(job.registration.connection, job.table, s.clock);
            var served := s.served + (if hit then [Served(key, job.requested, s.cache[key], s.clock)] else []);
            && LookedUp(s, job) == s.(cache := if hit then s.cache else s.cache - {key}, served := served)
            && Loaded(s, job) ==
               s.(registry := s.registry[TableRef(Some(job.alias), job.requested) :=
                                           RemoteProvider(job.registration, schema)],
                  cache := s.cache[key := CacheEntry(schema, s.clock)],
                  served := served)
  {
    var key := KeyOf(job);
    assert s.served + [] == s.served;
    assert forall schema :: (s.cache - {key})[key := CacheEntry(schema, s.clock)]
                         == s.cache[key := CacheEntry(schema, s.clock)];
  }

  // ---------- what registrations and removals come to ----------

  /** A registered file is a table of its own, and nothing else changes. */
  lemma FileIsRegistered(s: State, name: string)
    ensures var after := After(s, RegisterFile(name));
            && after.registry == s.registry[TableRef(None, name) := FileProvider]
            && after.catalog == s.catalog[name := FileSource]
            && after.registrations == s.registrations && after.cache == s.cache
  {}

  /**
   * A table listed for a database is read, once it is asked for, through the connection the database was
   * registered with: a new registration finds no schema in the cache, whoever had its alias before.
   */
  lemma RegisteredThenLoaded(s: State, alias: string, connection: string, tables: seq<string>, requested: string,
                             table: string)
    requires Isolated(s) && Picked(tables, requested, table) && TableRef(Some(alias), requested) !in s.registry
    ensures var registered := After(s, RegisterDatabase(alias, connection, tables));
            var loaded := After(registered, LoadTable(alias, alias, requested, true));
            var provider := RemoteProvider(Registration(s.nextGeneration, connection, tables),
                                           RemoteSchema(connection, table, s.clock));
            && alias in registered.catalog && registered.catalog[alias] == DatabaseSource
            && registered.registry == s.registry
            && loaded.registry == s.registry[TableRef(Some(alias), requested) := provider]
            && loaded.served == s.served
  {
    var registered := After(s, RegisterDatabase(alias, connection, tables));
    WhatIsLoaded(registered, LoadTable(alias, alias, requested, true), table);
    assert CacheKey(alias, s.nextGeneration, table) !in s.cache;
    assert s.served + [] == s.served;
  }

  predicate BelongsTo(r: TableRef, name: string, database: bool) {
    if database then r.schema == Some(name) else r.schema == None && r.table == name
  }

  /** A removal takes the tables of a database, or the table of a file, and leaves those of all other names. */
  lemma WhatIsRemoved(s: State, name: string, r: TableRef, other: string, key: CacheKey)
    ensures var after := After(s, RemoveSource(name));
            var database := name in s.catalog && s.catalog[name] == DatabaseSource;
            && (r in after.registry <==> r in s.registry && !BelongsTo(r, name, database))
            && (r in after.registry ==> after.registry[r] == s.registry[r])
            && (other in after.catalog <==> other in s.catalog && other != name)
            && (other in after.catalog ==> after.catalog[other] == s.catalog[other])
            && (other in after.registrations <==> other in s.registrations && other != name)
            && (other in after.registrations ==> after.registrations[other] == s.registrations[other])
            && (key in after.cache <==> key in s.cache && key.alias != name)
            && (key in after.cache ==> after.cache[key] == s.cache[key])
  {}

  // ---------- sequences of requests ----------

  /** Names are not shared between files and databases, and tables belong to live registrations. */
  ghost predicate Orderly(s: State) {
    && Quiet(s)
    && (forall a :: a in s.registrations ==> IsDatabase(s, a))
    && (forall r :: r in s.registry ==>
          match r.schema
          case None => r.table in s.catalog && s.catalog[r.table].FileSource?
          case Some(a) => a in s.registrations)
  }

  /** Every table of a database is read through the present registration of its alias. */
  ghost predicate ProvidersCurrent(s: State) {
    forall r :: r in s.registry && r.schema.Some? ==>
      && r.schema.value in s.registrations && s.registry[r].RemoteProvider?
      && s.registry[r].registration == s.registrations[r.schema.value]
  }

  ghost predicate GenerationsBounded(s: State) {
    forall a :: a in s.registrations ==> s.registrations[a].generation < s.nextGeneration
  }

  ghost predicate ServedWell(s: State) { Orderly(s) && ProvidersCurrent(s) && GenerationsBounded(s) }

  /** What the caller sees to: no name for both a file and a database, no alias registered twice. */
  predicate Admissible(s: State, q: Request) {
    match q
    case RegisterDatabase(alias, _, _) => alias !in s.catalog
    case RegisterFile(name) => name in s.catalog ==> s.catalog[name].FileSource?
    case _ => true
  }

  /** A request that runs alone and is admissible keeps names, tables and providers in order. */
  lemma ServeKeepsOrder(s: State, q: Request)
    requires ServedWell(s) && Admissible(s, q)
    ensures ServedWell(After(s, q))
  {
    match q
    case LoadTable(_, _, _, _) =>
      if LoadOf(s, q).Some? && q.succeeds {
        LoadedKeepsOrder(s, LoadOf(s, q).value);
      } else if LoadOf(s, q).Some? {
        LookedUpKeepsOrder(s, LoadOf(s, q).value);
      }
    case RemoveSource(name) => RemovedKeepsOrder(s, name);
    case _ => RegisteredKeepsOrder(s, q);
  }

  lemma LookedUpKeepsOrder(s: State, job: Job)
    requires ServedWell(s) && job.LoadingTable?
    ensures ServedWell(LookedUp(s, job))
  {}

  lemma RemovedKeepsOrder(s: State, name: string)
    requires ServedWell(s)
    ensures ServedWell(Removed(s, name, IsDatabase(s, name)))
  {}

  lemma RegisteredKeepsOrder(s: State, q: Request)
    requires ServedWell(s) && Admissible(s, q) && !q.LoadTable? && !q.RemoveSource?
    ensures ServedWell(After(s, q))
  {}

  lemma LoadedKeepsOrder(s: State, job: Job)
    requires ServedWell(s) && job.LoadingTable?
    requires job.alias in s.registrations && job.registration == s.registrations[job.alias]
    ensures ServedWell(Loaded(s, job))
  {}

  function AfterAll(s: State, qs: seq<Request>): State
    decreases qs
  {
    if qs == [] then s else AfterAll(After(s, qs[0]), qs[1..])
  }

  ghost predicate AllAdmissible(s: State, qs: seq<Request>)
    decreases qs
  {
    qs != [] ==> Admissible(s, qs[0]) && AllAdmissible(After(s, qs[0]), qs[1..])
  }

  /**
   * Requests that do not overlap and share no name: every database table is read through the present
   * registration of its alias, and removing any source then leaves nothing of its name.
   */
  lemma {:induction false} SerialRequestsStayCurrent(s: State, qs: seq<Request>, name: string)
    requires ServedWell(s) && AllAdmissible(s, qs)
    ensures var t := AfterAll(s, qs); ServedWell(t) && NamesNothing(After(t, RemoveSource(name)), name)
    decreases qs
  {
    if qs == [] {
      OrderlyIsCovered(s, name);
      RemovedNamesNothing(s, name);
    } else {
      ServeKeepsOrder(s, qs[0]);
      SerialRequestsStayCurrent(After(s, qs[0]), qs[1..], name);
    }
  }

  /** What removals need of the caller: a name in the catalog keeps its kind, however often it is registered. */
  predicate KeepsKinds(s: State, q: Request) {
    match q
    case RegisterDatabase(alias, _, _) => alias in s.catalog ==> s.catalog[alias].DatabaseSource?
    case RegisterFile(name) => name in s.catalog ==> s.catalog[name].FileSource?
    case _ => true
  }

  ghost predicate AllKeepKinds(s: State, qs: seq<Request>)
    decreases qs
  {
    qs != [] ==> KeepsKinds(s, qs[0]) && AllKeepKinds(After(s, qs[0]), qs[1..])
  }

  lemma KindsKeepOrder(s: State, q: Request)
    requires Orderly(s) && KeepsKinds(s, q)
    ensures Orderly(After(s, q))
  {
    match q
    case LoadTable(_, _, _, _) =>
      if LoadOf(s, q).Some? {
        LoadKeepsNames(s, LoadOf(s, q).value);
      }
    case RemoveSource(name) => RemovalKeepsNames(s, name);
    case _ =>
  }

  lemma LoadKeepsNames(s: State, job: Job)
    requires Orderly(s) && job.LoadingTable? && job.alias in s.registrations
    ensures Orderly(Loaded(s, job)) && Orderly(LookedUp(s, job))
  {}

  lemma RemovalKeepsNames(s: State, name: string)
    requires Orderly(s)
    ensures Orderly(Removed(s, name, IsDatabase(s, name)))
  {}

  lemma OrderlyIsCovered(s: State, name: string)
    requires Orderly(s)
    ensures CatalogCovers(s, name)
  {
    forall r | r in s.registry
      ensures r.schema == Some(name) ==> IsDatabase(s, name)
    {}
  }

  /**
   * Requests that do not overlap and keep the kinds of names, also those that register an alias again:
   * removing any source then leaves nothing of its name.
   */
  lemma {:induction false} SerialRemovalsAreComplete(s: State, qs: seq<Request>, name: string)
    requires Orderly(s) && AllKeepKinds(s, qs)
    ensures var t := AfterAll(s, qs); Orderly(t) && NamesNothing(After(t, RemoveSource(name)), name)
    decreases qs
  {
    if qs == [] {
      OrderlyIsCovered(s, name);
      RemovedNamesNothing(s, name);
    } else {
      KindsKeepOrder(s, qs[0]);
      SerialRemovalsAreComplete(After(s, qs[0]), qs[1..], name);
    }
  }

  /** Registering an alias again keeps the kinds, though it keeps providers current only under a fresh name. */
  lemma RegisteringAgainKeepsKinds(alias: string, a: string, b: string, tables: seq<string>)
    ensures AllKeepKinds(INIT, [RegisterDatabase(alias, a, tables), RegisterDatabase(alias, b, tables)])
    ensures !AllAdmissible(INIT, [RegisterDatabase(alias, a, tables), RegisterDatabase(alias, b, tables)])
  {
    var qs := [RegisterDatabase(alias, a, tables), RegisterDatabase(alias, b, tables)];
    assert qs[1..] == [qs[1]] && [qs[1]][1..] == [];
    assert AllKeepKinds(After(INIT, qs[0]), [qs[1]]);
    assert !AllAdmissible(After(INIT, qs[0]), [qs[1]]);
  }

  lemma FreshDaemonIsOrderly()
    ensures ServedWell(INIT)
  {}

  // ---------- registering an alias again ----------

  ghost predicate CurrentUnder(s: State, alias: string) {
    alias in s.registrations &&
    forall r :: r in s.registry && r.schema == Some(alias) && s.registry[r].RemoteProvider? ==>
      s.registry[r].registration == s.registrations[alias]
  }

  /**
   * Registering an alias again keeps the tables loaded before: they are read through the new
   * registration exactly when there are none.
   */
  lemma ReRegistrationKeepsOldTables(s: State, alias: string, connection: string, tables: seq<string>)
    requires ServedWell(s)
    ensures CurrentUnder(After(s, RegisterDatabase(alias, connection, tables)), alias)
            <==> forall r :: r in s.registry ==> r.schema != Some(alias)
  {
    var after := After(s, RegisterDatabase(alias, connection, tables));
    assert after.registry == s.registry && after.registrations[alias].generation == s.nextGeneration;
    if r :| r in s.registry && r.schema == Some(alias) {
      assert s.registry[r].RemoteProvider? && s.registry[r].registration.generation < s.nextGeneration;
    }
  }
}
