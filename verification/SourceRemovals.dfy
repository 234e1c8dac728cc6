/** Removing a source while other requests are under way: exactly when nothing of its name stays behind. */
module SourceRemovals {
  import opened Common
  import opened SourceRegistry
  import opened SourceRequests

  /** Time, and the steps of requests under way; a load may fail while it waits for the remote schema. */
  predicate IsJobEvent(e: Event) { e.Tick? || e.Advance? || e.LoadFails? }

  ghost predicate OnlyJobEvents(es: seq<Event>) { forall i :: 0 <= i < |es| ==> IsJobEvent(es[i]) }

  /** Some order and outcome in which all requests under way come to their ends, and no other begins. */
  ghost predicate Completes(s: State, es: seq<Event>) {
    OnlyJobEvents(es) && Run(s, es).Some? && Quiet(Run(s, es).value)
  }

  /** A request that brings the name back: it registers it, or loads one of its tables. */
  predicate Reintroduces(job: Job, name: string) {
    match job
    case RegisteringDatabase(alias, _, _) => alias == name
    case RegisteringFile(n) => n == name
    case LoadingTable(alias, _, _, _, _) => alias == name
    case Removing(_, _) => false
  }

  /** Some removal of the name is still to deregister its database tables, or its file table. */
  ghost predicate WillDeregister(s: State, name: string, database: bool) {
    exists j :: j in s.jobs && s.jobs[j] == Removing(name, Deregistering(database))
  }

  /** The table is one of the name's, of the one kind or the other. */
  predicate TableOf(r: TableRef, name: string, database: bool) {
    if database then r.schema == Some(name) else r == TableRef(None, name)
  }

  /** The removals under way deregister all tables of the name. */
  ghost predicate TablesCovered(s: State, name: string) {
    forall r, database :: r in s.registry && TableOf(r, name, database) ==> WillDeregister(s, name, database)
  }

  ghost predicate NobodyReintroduces(s: State, name: string) {
    forall j :: j in s.jobs ==> !Reintroduces(s.jobs[j], name)
  }

  /**
   * However the requests under way, the removal among them, interleave and end: nothing of the name stays
   * if and only if none of them brings it back and the removals cover the tables registered under it.
   */
  lemma OverlappedRemoval(s: State, k: JobId, name: string)
    requires k !in s.jobs
    ensures var begun := Step(s, BeginRemoval(k, name));
            (forall es :: Completes(begun, es) ==> NamesNothing(Run(begun, es).value, name))
            <==> NobodyReintroduces(s, name) && TablesCovered(begun, name)
  {
    var begun := Step(s, BeginRemoval(k, name));
    assert begun.jobs[k].Removing?;
    if NobodyReintroduces(s, name) && TablesCovered(begun, name) {
      assert StepsToRemoval(begun.jobs[k], name) == 4;
      forall es | Completes(begun, es) ensures NamesNothing(Run(begun, es).value, name) {
        RunFades(begun, es, name);
      }
    } else if !TablesCovered(begun, name) {
      var r, database :| r in begun.registry && TableOf(r, name, database) && !WillDeregister(begun, name, database);
      var es := FinishOthers(begun, {});
      RunLeaves(begun, es, name, r, database);
      assert Completes(begun, es) && !NamesNothing(Run(begun, es).value, name);
    } else {
      var j :| j in s.jobs && Reintroduces(s.jobs[j], name);
      var es := SomeoneReintroduces(begun, j, name);
      assert Completes(begun, es) && !NamesNothing(Run(begun, es).value, name);
    }
  }

  /** Without another removal of the name under way, the catalog's kind has to cover the tables. */
  lemma OneRemovalCovers(s: State, k: JobId, name: string)
    requires k !in s.jobs && forall j, database :: j in s.jobs ==> s.jobs[j] != Removing(name, Deregistering(database))
    ensures TablesCovered(Step(s, BeginRemoval(k, name)), name) <==> CatalogCovers(s, name)
  {
    var begun := Step(s, BeginRemoval(k, name));
    assert begun.jobs[k] == Removing(name, Deregistering(IsDatabase(s, name)));
    assert WillDeregister(begun, name, IsDatabase(s, name)) && !WillDeregister(begun, name, !IsDatabase(s, name));
    if TablesCovered(begun, name) {
      forall r | r in s.registry ensures !TableOf(r, name, !IsDatabase(s, name)) {}
    }
  }

  // ---------- nothing stays ----------

  /** How many steps a removal of the name has left. */
  function StepsToRemoval(job: Job, name: string): nat {
    if job.Removing? && job.name == name then StepsLeft(job) else 0
  }

  ghost predicate SomeRemoval(s: State, name: string, steps: nat) {
    exists j :: j in s.jobs && StepsToRemoval(s.jobs[j], name) >= steps
  }

  /** Whatever is left of the name is still to be removed by some removal under way. */
  ghost predicate Fading(s: State, name: string) {
    && NobodyReintroduces(s, name) && TablesCovered(s, name)
    && (name in s.catalog ==> SomeRemoval(s, name, 3))
    && (name in s.registrations ==> SomeRemoval(s, name, 2))
    && ((exists k :: k in s.cache && k.alias == name) ==> SomeRemoval(s, name, 1))
  }

  /** A job of another name changes nothing of the name. */
  lemma OthersFade(s: State, after: State, j: JobId, name: string)
    requires Fading(s, name) && j in s.jobs && StepsToRemoval(s.jobs[j], name) == 0
    requires after.jobs - {j} == s.jobs - {j} && (j in after.jobs ==> !Reintroduces(after.jobs[j], name))
    requires forall r, database :: r in after.registry && TableOf(r, name, database) ==> r in s.registry
    requires name in after.catalog ==> name in s.catalog
    requires name in after.registrations ==> name in s.registrations
    requires forall k :: k in after.cache && k.alias == name ==> k in s.cache
    ensures Fading(after, name)
  {
    forall i | i in s.jobs && i != j ensures i in after.jobs && after.jobs[i] == s.jobs[i] {
      assert i in s.jobs - {j} && (s.jobs - {j})[i] == s.jobs[i];
    }
    forall i | i in after.jobs && i != j ensures i in s.jobs && after.jobs[i] == s.jobs[i] {
      assert i in after.jobs - {j};
    }
    forall r, database | r in after.registry && TableOf(r, name, database)
      ensures WillDeregister(after, name, database)
    {
      var i :| i in s.jobs && s.jobs[i] == Removing(name, Deregistering(database));
      assert StepsToRemoval(s.jobs[i], name) == 4;
    }
  }

  lemma RemovalFades(s: State, j: JobId, name: string, stage: RemovalStage)
    requires Fading(s, name) && j in s.jobs && s.jobs[j] == Removing(name, stage)
    ensures Fading(AdvanceStep(s, j), name)
  {
    var after := AdvanceStep(s, j);
    assert j in after.jobs ==> StepsToRemoval(after.jobs[j], name) == StepsToRemoval(s.jobs[j], name) - 1;
    forall i | i in s.jobs && i != j ensures i in after.jobs && after.jobs[i] == s.jobs[i] {}
    forall r, database | r in after.registry && TableOf(r, name, database)
      ensures WillDeregister(after, name, database)
    {
      var i :| i in s.jobs && s.jobs[i] == Removing(name, Deregistering(database));
      assert i != j;
    }
  }

  lemma LoadFades(s: State, j: JobId, name: string)
    requires Fading(s, name) && j in s.jobs && s.jobs[j].LoadingTable? && s.jobs[j].alias != name
    requires KeepsAlias(s, AdvanceStep(s, j), j, s.jobs[j]) && AdvanceStep(s, j).jobs - {j} == s.jobs - {j}
    ensures Fading(AdvanceStep(s, j), name)
  {
    OthersFade(s, AdvanceStep(s, j), j, name);
  }

  lemma AdvanceFades(s: State, j: JobId, name: string)
    requires Fading(s, name) && j in s.jobs
    ensures Fading(AdvanceStep(s, j), name)
  {
    assert !Reintroduces(s.jobs[j], name);
    AdvanceShrinks(s, j);
    match s.jobs[j]
    case Removing(n, stage) =>
      if n == name {
        RemovalFades(s, j, name, stage);
      } else {
        OtherRemovalFades(s, j, name, n, stage);
      }
    case LoadingTable(_, _, _, _, _) =>
      LoadKeepsAlias(s, j);
      LoadFades(s, j, name);
    case RegisteringDatabase(_, _, _) => OthersFade(s, AdvanceStep(s, j), j, name);
    case RegisteringFile(_) => OthersFade(s, AdvanceStep(s, j), j, name);
  }

  lemma OtherRemovalFades(s: State, j: JobId, name: string, other: string, stage: RemovalStage)
    requires Fading(s, name) && j in s.jobs && s.jobs[j] == Removing(other, stage) && other != name
    requires AdvanceStep(s, j).jobs - {j} == s.jobs - {j}
    ensures Fading(AdvanceStep(s, j), name)
  {
    OthersFade(s, AdvanceStep(s, j), j, name);
  }

  /** A load touches no table and no cache entry but its own alias's. */
  ghost predicate KeepsAlias(s: State, after: State, j: JobId, job: Job)
    requires job.LoadingTable?
  {
    && (j in after.jobs ==> after.jobs[j].LoadingTable? && after.jobs[j].(stage := job.stage) == job)
    && after.catalog == s.catalog && after.registrations == s.registrations
    && (forall r :: r in s.registry ==> r in after.registry)
    && (forall r :: r in after.registry ==> r in s.registry || r == RefOf(job))
    && (forall k :: k in after.cache ==> k in s.cache || k.alias == job.alias)
    && (j !in after.jobs ==> RefOf(job) in after.registry)
  }

  lemma LookUpKeepsAlias(s: State, j: JobId, job: Job)
    requires job.LoadingTable? && job.stage.Looking?
    ensures KeepsAlias(s, LookUpStep(s, j, job), j, job)
  {
    var after := LookUpStep(s, j, job);
    LookUpContinues(s, j, job);
    assert after.jobs[j].(stage := job.stage) == job;
  }

  lemma LookUpContinues(s: State, j: JobId, job: Job)
    requires job.LoadingTable? && job.stage.Looking?
    ensures var after := LookUpStep(s, j, job);
            && j in after.jobs && after.jobs[j].LoadingTable? && after.jobs[j] == job.(stage := after.jobs[j].stage)
            && after.catalog == s.catalog && after.registrations == s.registrations && after.registry == s.registry
            && (after.cache == s.cache || after.cache == s.cache - {KeyOf(job)})
  {
    var key := KeyOf(job);
    var found := if CacheHit(s, key) then Some(s.cache[key].schema) else None;
    var next := job.(stage := Introspecting(found));
    assert LookUpStep(s, j, job).jobs == Continue(s, j, next).jobs == s.jobs[j := next];
  }

  lemma LoadKeepsAlias(s: State, j: JobId)
    requires j in s.jobs && s.jobs[j].LoadingTable?
    ensures KeepsAlias(s, AdvanceStep(s, j), j, s.jobs[j])
  {
    var job, after := s.jobs[j], AdvanceStep(s, j);
    match job.stage
    case Looking => LookUpKeepsAlias(s, j, job);
    case Checking =>
      assert after == if RefOf(job) in s.registry then Done(s, j) else Continue(s, j, job.(stage := Looking));
    case Introspecting(_) => assert after == Continue(s, j, after.jobs[j]);
    case Storing(schema) => StoreKeepsAlias(s, j, schema);
    case Publishing(schema) =>
      assert after == if RefOf(job) in s.registry then Done(s, j) else Continue(s, j, job.(stage := Inserting(schema)));
    case Inserting(schema) => InsertKeepsAlias(s, j, schema);
  }

  lemma StoreKeepsAlias(s: State, j: JobId, schema: RemoteSchema)
    requires j in s.jobs && s.jobs[j].LoadingTable? && s.jobs[j].stage == Storing(schema)
    ensures KeepsAlias(s, AdvanceStep(s, j), j, s.jobs[j])
  {
    var job, after := s.jobs[j], AdvanceStep(s, j);
    assert after.registry == s.registry && after.jobs[j] == job.(stage := Publishing(schema));
  }

  lemma InsertKeepsAlias(s: State, j: JobId, schema: RemoteSchema)
    requires j in s.jobs && s.jobs[j].LoadingTable? && s.jobs[j].stage == Inserting(schema)
    ensures KeepsAlias(s, AdvanceStep(s, j), j, s.jobs[j])
  {
    var after := AdvanceStep(s, j);
    assert after.cache == s.cache && j !in after.jobs;
  }

  lemma {:induction false} RunFades(s: State, es: seq<Event>, name: string)
    requires Fading(s, name) && OnlyJobEvents(es) && Run(s, es).Some?
    ensures Fading(Run(s, es).value, name)
    ensures Quiet(Run(s, es).value) ==> NamesNothing(Run(s, es).value, name)
    decreases es
  {
    if es == [] {
      if Quiet(s) {
        QuietNamesNothing(s, name);
      }
    } else {
      var e := es[0];
      if e.Advance? {
        AdvanceFades(s, e.j, name);
      } else if e.LoadFails? {
        OthersFade(s, Done(s, e.j), e.j, name);
      }
      RunFades(Step(s, e), es[1..], name);
    }
  }

  lemma QuietNamesNothing(s: State, name: string)
    requires Fading(s, name) && Quiet(s)
    ensures NamesNothing(s, name)
  {
    forall r, database | r in s.registry ensures !TableOf(r, name, database) {
      assert !WillDeregister(s, name, database);
    }
    if r :| r in s.registry && r.schema == Some(name) {
      assert TableOf(r, name, true);
    }
    if TableRef(None, name) in s.registry {
      assert TableOf(TableRef(None, name), name, false);
    }
  }

  // ---------- something stays ----------

  /** A table of the name that no removal under way will deregister. */
  ghost predicate Leftover(s: State, name: string, r: TableRef, database: bool) {
    r in s.registry && TableOf(r, name, database) && !WillDeregister(s, name, database)
  }

  lemma AdvanceLeaves(s: State, j: JobId, name: string, r: TableRef, database: bool)
    requires Leftover(s, name, r, database) && j in s.jobs
    ensures Leftover(AdvanceStep(s, j), name, r, database)
  {
    assert s.jobs[j] != Removing(name, Deregistering(database));
    AdvanceKeepsTable(s, j, name, r, database);
    NoRemovalStarts(s, j, name, database);
  }

  lemma AdvanceKeepsTable(s: State, j: JobId, name: string, r: TableRef, database: bool)
    requires j in s.jobs && s.jobs[j] != Removing(name, Deregistering(database))
    requires r in s.registry && TableOf(r, name, database)
    ensures r in AdvanceStep(s, j).registry
  {
    if s.jobs[j].LoadingTable? {
      LoadKeepsAlias(s, j);
    }
  }

  lemma NoRemovalStarts(s: State, j: JobId, name: string, database: bool)
    requires j in s.jobs && !WillDeregister(s, name, database)
    ensures !WillDeregister(AdvanceStep(s, j), name, database)
  {
    var after := AdvanceStep(s, j);
    AdvanceShrinks(s, j);
    assert s.jobs[j] != Removing(name, Deregistering(database));
    if s.jobs[j].LoadingTable? {
      LoadKeepsAlias(s, j);
    }
    forall i | i in after.jobs ensures after.jobs[i] != Removing(name, Deregistering(database)) {
      if i != j {
        assert i in after.jobs - {j} && i in s.jobs && s.jobs[i] == after.jobs[i];
      }
    }
  }

  lemma {:induction false} RunLeaves(s: State, es: seq<Event>, name: string, r: TableRef, database: bool)
    requires Leftover(s, name, r, database) && OnlyJobEvents(es) && Run(s, es).Some?
    ensures !NamesNothing(Run(s, es).value, name)
    decreases es
  {
    if es != [] {
      if es[0].Advance? {
        AdvanceLeaves(s, es[0].j, name, r, database);
      }
      RunLeaves(Step(s, es[0]), es[1..], name, r, database);
    }
  }

  lemma {:induction false} AllStepsAreJobEvents(s: State, j: JobId)
    requires j in s.jobs
    ensures OnlyJobEvents(AllSteps(s, j))
    decreases StepsLeft(s.jobs[j])
  {
    AdvanceShrinks(s, j);
    if j in AdvanceStep(s, j).jobs {
      AllStepsAreJobEvents(AdvanceStep(s, j), j);
    }
  }

  /** All requests under way but some can be brought to their ends, one after the other. */
  lemma {:induction false} FinishOthers(s: State, keep: set<JobId>) returns (es: seq<Event>)
    ensures OnlyJobEvents(es) && Run(s, es).Some?
    ensures var after := Run(s, es).value;
            && (forall j :: j in after.jobs <==> j in s.jobs && j in keep)
            && (forall j :: j in after.jobs ==> after.jobs[j] == s.jobs[j])
    decreases |s.jobs.Keys - keep|
  {
    var others := s.jobs.Keys - keep;
    if others == {} {
      es := [];
      forall j | j in s.jobs ensures j in keep {
        assert j !in others;
      }
    } else {
      var j :| j in others;
      OneFinishes(s, j, keep);
      var rest := FinishOthers(Finish(s, j), keep);
      es := AllSteps(s, j) + rest;
      RunAppend(s, AllSteps(s, j), rest);
    }
  }

  lemma OneFinishes(s: State, j: JobId, keep: set<JobId>)
    requires j in s.jobs && j !in keep
    ensures OnlyJobEvents(AllSteps(s, j)) && Run(s, AllSteps(s, j)) == Some(Finish(s, j))
    ensures var next := Finish(s, j);
            && (forall k :: k in next.jobs <==> k in s.jobs && k != j)
            && (forall k :: k in next.jobs ==> next.jobs[k] == s.jobs[k])
            && next.jobs.Keys - keep == s.jobs.Keys - keep - {j}
  {
    FinishRuns(s, j);
    AllStepsAreJobEvents(s, j);
    assert Finish(s, j).jobs.Keys == s.jobs.Keys - {j};
  }

  lemma {:induction false} FinishedLoadRegisters(s: State, j: JobId)
    requires j in s.jobs && s.jobs[j].LoadingTable?
    ensures RefOf(s.jobs[j]) in Finish(s, j).registry
    decreases StepsLeft(s.jobs[j])
  {
    var after := AdvanceStep(s, j);
    AdvanceShrinks(s, j);
    LoadKeepsAlias(s, j);
    if j in after.jobs {
      FinishedLoadRegisters(after, j);
    }
  }

  lemma FinishedJobStays(s: State, j: JobId, name: string)
    requires j in s.jobs && Reintroduces(s.jobs[j], name)
    ensures !NamesNothing(Finish(s, j), name)
  {
    if s.jobs[j].LoadingTable? {
      FinishedLoadRegisters(s, j);
      assert RefOf(s.jobs[j]).schema == Some(name);
    } else {
      assert Finish(s, j) == AdvanceStep(s, j);
    }
  }

  /** The request that brings the name back may be the last to end. */
  lemma SomeoneReintroduces(s: State, j: JobId, name: string) returns (es: seq<Event>)
    requires j in s.jobs && Reintroduces(s.jobs[j], name)
    ensures Completes(s, es) && !NamesNothing(Run(s, es).value, name)
  {
    var first := FinishOthers(s, {j});
    var t := Run(s, first).value;
    FinishRuns(t, j);
    AllStepsAreJobEvents(t, j);
    FinishedJobStays(t, j, name);
    RunAppend(s, first, AllSteps(t, j));
    es := first + AllSteps(t, j);
    assert t.jobs - {j} == map[];
  }

  /** A fresh daemon gets there: a load waits for its schema while its source is removed. */
  lemma LoadOutlivesRemoval() returns (begin: seq<Event>, rest: seq<Event>)
    ensures Run(INIT, begin).Some? && CatalogCovers(Run(INIT, begin).value, "db")
    ensures var s := Run(INIT, begin).value;
            && 2 !in s.jobs
            && var begun := Step(s, BeginRemoval(2, "db"));
            Completes(begun, rest) && !NamesNothing(Run(begun, rest).value, "db")
  {
    var registering := [CatalogDatabase(0, "db", "a.db", ["t"]), Advance(0)];
    var s1 := Step(INIT, registering[0]);
    var s2 := Step(s1, Advance(0));
    assert registering == [registering[0]] + [Advance(0)];
    RunOne(INIT, registering[0]);
    RunOne(s1, Advance(0));
    RunAppend(INIT, [registering[0]], [Advance(0)]);
    assert s2.jobs == map[] && s2.registrations == map["db" := Registration(1, "a.db", ["t"])];
    var load := BeginLoad(1, "db", "db", "t");
    var s3 := Step(s2, load);
    RunOne(s2, load);
    RunAppend(INIT, registering, [load]);
    begin := registering + [load];
    var begun := Step(s3, BeginRemoval(2, "db"));
    assert begun.jobs[1].LoadingTable? && Reintroduces(begun.jobs[1], "db");
    rest := SomeoneReintroduces(begun, 1, "db");
  }
}
