/**
 * Registered sources, their generations, the schema cache and lazily registered tables, as a step
 * system. A request is a job whose steps are its separate lock acquisitions and its wait for the
 * remote schema, so runs interleave registration, removal and table loading freely.
 */
module SourceRegistry {
  import opened Common
  import opened Strings

  const SCHEMA_CACHE_TTL: nat := 300

  type JobId = nat

  /** A schema, known by the connection and table it was introspected through, and when. */
  datatype RemoteSchema = RemoteSchema(connection: string, table: string, at: nat)

  datatype Registration = Registration(generation: nat, connection: string, tables: seq<string>)

  /** A registration as it was published, and under which alias. */
  datatype Publication = Publication(alias: string, registration: Registration)

  datatype CacheKey = CacheKey(alias: string, generation: nat, table: string)
  datatype CacheEntry = CacheEntry(schema: RemoteSchema, cachedAt: nat)
  datatype CatalogKind = DatabaseSource | FileSource
  datatype TableRef = TableRef(schema: Option<string>, table: string)
  datatype Provider = FileProvider | RemoteProvider(registration: Registration, schema: RemoteSchema)

  datatype LoadStage =
    | Checking
    | Looking
    | Introspecting(hint: Option<RemoteSchema>)
    | Storing(schema: RemoteSchema)
    | Publishing(schema: RemoteSchema)
    | Inserting(schema: RemoteSchema)

  datatype RemovalStage = Deregistering(database: bool) | Uncataloguing | Unregistering | Clearing

  /** A load keeps the registration it found at its beginning. */
  datatype Job =
    | RegisteringDatabase(alias: string, connection: string, tables: seq<string>)
    | RegisteringFile(name: string)
    | Removing(name: string, removal: RemovalStage)
    | LoadingTable(alias: string, registration: Registration, table: string, requested: string, stage: LoadStage)

  /** A schema handed out by the cache, for the table `requested`, instead of being introspected again. */
  datatype Served = Served(key: CacheKey, requested: string, entry: CacheEntry, at: nat)

  /** The daemon's state; `published` and `served` are its history. */
  datatype State = State(
    clock: nat,
    nextGeneration: nat,
    catalog: map<string, CatalogKind>,
    registrations: map<string, Registration>,
    registry: map<TableRef, Provider>,
    cache: map<CacheKey, CacheEntry>,
    jobs: map<JobId, Job>,
    published: map<nat, Publication>,
    served: seq<Served>)

  const INIT := State(0, 1, map[], map[], map[], map[], map[], map[], [])

  datatype Event =
    | Tick(elapsed: nat)
    | CatalogDatabase(j: JobId, alias: string, connection: string, tables: seq<string>)
    | CatalogFile(j: JobId, name: string)
    | BeginRemoval(j: JobId, name: string)
    | BeginLoad(j: JobId, alias: string, requestedAlias: string, requested: string)
    | Advance(j: JobId)
    | LoadFails(j: JobId)

  // ---------- names ----------

  predicate EqIgnoreAsciiCase(a: string, b: string) {
    |a| == |b| && forall i :: 0 <= i < |a| ==> LowerAscii(a[i]) == LowerAscii(b[i])
  }

  function FirstIgnoringCase(tables: seq<string>, name: string): Option<string> {
    if tables == [] then None
    else if EqIgnoreAsciiCase(tables[0], name) then Some(tables[0])
    else FirstIgnoringCase(tables[1..], name)
  }

  /** The listed table a name refers to: the exact one, else the first that differs only in case. */
  function FindTable(tables: seq<string>, name: string): Option<string> {
    if name in tables then Some(name) else FirstIgnoringCase(tables, name)
  }

  /** The requested table, if it is listed, else the first listed one that is the same but for case. */
  ghost predicate Picked(tables: seq<string>, requested: string, table: string) {
    exists i ::
      && 0 <= i < |tables| && tables[i] == table
      && if exists k :: 0 <= k < |tables| && tables[k] == requested then table == requested
         else SameButForCase(table, requested) && forall j :: 0 <= j < i ==> !SameButForCase(tables[j], requested)
  }

  lemma {:induction false} FirstIsPicked(tables: seq<string>, requested: string)
    ensures match FirstIgnoringCase(tables, requested)
            case Some(table) =>
              exists i ::
                && 0 <= i < |tables| && tables[i] == table && SameButForCase(table, requested)
                && forall j :: 0 <= j < i ==> !SameButForCase(tables[j], requested)
            case None => forall j :: 0 <= j < |tables| ==> !SameButForCase(tables[j], requested)
  {
    if tables != [] {
      CaseIsIgnored(tables[0], requested);
      if EqIgnoreAsciiCase(tables[0], requested) {
        assert tables[0] == FirstIgnoringCase(tables, requested).value;
      } else {
        var rest := tables[1..];
        FirstIsPicked(rest, requested);
        var found := FirstIgnoringCase(rest, requested);
        if found.Some? {
          var i :| 0 <= i < |rest| && rest[i] == found.value && SameButForCase(found.value, requested)
                   && forall j :: 0 <= j < i ==> !SameButForCase(rest[j], requested);
          assert tables[i + 1] == found.value;
          assert forall j :: 1 <= j < i + 1 ==> tables[j] == rest[j - 1];
        }
      }
    }
  }

  /** The table found is the picked one, and there is one if a listed table is the same but for case. */
  lemma FoundIsPicked(tables: seq<string>, requested: string)
    ensures FindTable(tables, requested).Some? ==> Picked(tables, requested, FindTable(tables, requested).value)
    ensures FindTable(tables, requested).Some? <==>
            exists i :: 0 <= i < |tables| && SameButForCase(tables[i], requested)
  {
    FirstIsPicked(tables, requested);
  }

  lemma PickedIsListed(tables: seq<string>, requested: string, table: string)
    requires Picked(tables, requested, table)
    ensures exists i :: 0 <= i < |tables| && SameButForCase(tables[i], requested)
  {
    var i :| 0 <= i < |tables| && tables[i] == table;
    assert SameButForCase(tables[i], requested);
  }

  lemma OnePicked(tables: seq<string>, requested: string, a: string, b: string)
    requires Picked(tables, requested, a) && Picked(tables, requested, b)
    ensures a == b
  {
    if !exists k :: 0 <= k < |tables| && tables[k] == requested {
      var i :| 0 <= i < |tables| && tables[i] == a && forall j :: 0 <= j < i ==> !SameButForCase(tables[j], requested);
      var k :| 0 <= k < |tables| && tables[k] == b && forall j :: 0 <= j < k ==> !SameButForCase(tables[j], requested);
      assert i == k;
    }
  }

  /** The registered alias a request may resolve to. */
  predicate Resolves(s: State, alias: string, requested: string) {
    && alias in s.registrations
    && (alias == requested || (requested !in s.registrations && EqIgnoreAsciiCase(alias, requested)))
  }

  function KeyOf(job: Job): CacheKey
    requires job.LoadingTable?
  {
    CacheKey(job.alias, job.registration.generation, job.table)
  }

  // ---------- the steps ----------

  predicate Enabled(s: State, e: Event) {
    match e
    case Tick(_) => true
    case CatalogDatabase(j, _, _, _) => j !in s.jobs
    case CatalogFile(j, _) => j !in s.jobs
    case BeginRemoval(j, _) => j !in s.jobs
    case BeginLoad(j, alias, requestedAlias, requested) => j !in s.jobs && Resolves(s, alias, requestedAlias)
    case Advance(j) => j in s.jobs
    case LoadFails(j) => j in s.jobs && s.jobs[j].LoadingTable? && s.jobs[j].stage.Introspecting?
  }

  function Done(s: State, j: JobId): State { s.(jobs := s.jobs - {j}) }

  function Continue(s: State, j: JobId, job: Job): State { s.(jobs := s.jobs[j := job]) }

  /** The read of the catalog, which tells databases from files. */
  predicate IsDatabase(s: State, name: string) { name in s.catalog && s.catalog[name].DatabaseSource? }

  /** A load begins with the registration it finds; a table that is not listed ends it at once. */
  function BeginLoadStep(s: State, j: JobId, alias: string, requested: string): State
    requires alias in s.registrations
  {
    match FindTable(s.registrations[alias].tables, requested)
    case None => s
    case Some(table) => Continue(s, j, LoadingTable(alias, s.registrations[alias], table, requested, Checking))
  }

  predicate CacheHit(s: State, key: CacheKey) {
    key in s.cache && s.clock - s.cache[key].cachedAt <= SCHEMA_CACHE_TTL
  }

  /** `cached_schema`: a fresh entry is handed out, an expired one dropped. */
  function LookUpStep(s: State, j: JobId, job: Job): State
    requires job.LoadingTable?
  {
    var key := KeyOf(job);
    if key !in s.cache then Continue(s, j, job.(stage := Introspecting(None)))
    else if CacheHit(s, key) then
      Continue(s, j, job.(stage := Introspecting(Some(s.cache[key].schema))))
        .(served := s.served + [Served(key, job.requested, s.cache[key], s.clock)])
    else Continue(s, j, job.(stage := Introspecting(None))).(cache := s.cache - {key})
  }

  function LoadStep(s: State, j: JobId, job: Job): State
    requires job.LoadingTable?
  {
    var r := TableRef(Some(job.alias), job.requested);
    match job.stage
    case Checking => if r in s.registry then Done(s, j) else Continue(s, j, job.(stage := Looking))
    case Looking => LookUpStep(s, j, job)
    case Introspecting(hint) =>
      var schema := if hint.Some? then hint.value else RemoteSchema(job.registration.connection, job.table, s.clock);
      Continue(s, j, job.(stage := Storing(schema)))
    case Storing(schema) =>
      Continue(s, j, job.(stage := Publishing(schema))).(cache := s.cache[KeyOf(job) := CacheEntry(schema, s.clock)])
    case Publishing(schema) =>
      if r in s.registry then Done(s, j) else Continue(s, j, job.(stage := Inserting(schema)))
    case Inserting(schema) => Done(s, j).(registry := s.registry[r := RemoteProvider(job.registration, schema)])
  }

  function RemovalStep(s: State, j: JobId, name: string, stage: RemovalStage): State {
    match stage
    case Deregistering(database) =>
      Continue(s, j, Removing(name, Uncataloguing))
        .(registry := if database then map r | r in s.registry && r.schema != Some(name) :: s.registry[r]
                      else s.registry - {TableRef(None, name)})
    case Uncataloguing => Continue(s, j, Removing(name, Unregistering)).(catalog := s.catalog - {name})
    case Unregistering => Continue(s, j, Removing(name, Clearing)).(registrations := s.registrations - {name})
    case Clearing => Done(s, j).(cache := map k | k in s.cache && k.alias != name :: s.cache[k])
  }

  function PublishStep(s: State, j: JobId, alias: string, connection: string, tables: seq<string>): State {
    var registration := Registration(s.nextGeneration, connection, tables);
    Done(s, j).(registrations := s.registrations[alias := registration],
                nextGeneration := s.nextGeneration + 1,
                published := s.published[s.nextGeneration := Publication(alias, registration)])
  }

  function AdvanceStep(s: State, j: JobId): State
    requires j in s.jobs
  {
    match s.jobs[j]
    case RegisteringDatabase(alias, connection, tables) => PublishStep(s, j, alias, connection, tables)
    case RegisteringFile(name) => Done(s, j).(registry := s.registry[TableRef(None, name) := FileProvider])
    case Removing(name, stage) => RemovalStep(s, j, name, stage)
    case LoadingTable(_, _, _, _, _) => LoadStep(s, j, s.jobs[j])
  }

  function Step(s: State, e: Event): State
    requires Enabled(s, e)
  {
    match e
    case Tick(elapsed) => s.(clock := s.clock + elapsed)
    case CatalogDatabase(j, alias, connection, tables) =>
      Continue(s, j, RegisteringDatabase(alias, connection, tables)).(catalog := s.catalog[alias := DatabaseSource])
    case CatalogFile(j, name) =>
      Continue(s, j, RegisteringFile(name)).(catalog := s.catalog[name := FileSource])
    case BeginRemoval(j, name) => Continue(s, j, Removing(name, Deregistering(IsDatabase(s, name))))
    case BeginLoad(j, alias, _, requested) => BeginLoadStep(s, j, alias, requested)
    case Advance(j) => AdvanceStep(s, j)
    case LoadFails(j) => Done(s, j)
  }

  function Run(s: State, es: seq<Event>): Option<State>
    decreases es
  {
    if es == [] then Some(s)
    else if Enabled(s, es[0]) then Run(Step(s, es[0]), es[1..])
    else None
  }

  lemma {:induction false} RunAppend(s: State, a: seq<Event>, b: seq<Event>)
    requires Run(s, a).Some?
    ensures Run(s, a + b) == Run(Run(s, a).value, b)
    decreases a
  {
    if a == [] {
      assert a + b == b;
    } else {
      assert (a + b)[1..] == a[1..] + b;
      RunAppend(Step(s, a[0]), a[1..], b);
    }
  }

  lemma RunOne(s: State, e: Event)
    requires Enabled(s, e)
    ensures Run(s, [e]) == Some(Step(s, e))
  {
    assert [e][1..] == [];
  }

  // ---------- isolation of the schema cache ----------

  /** The key's registration was published under its alias, and the schema was introspected through it. */
  ghost predicate Through(published: map<nat, Publication>, key: CacheKey, schema: RemoteSchema) {
    && key.generation in published && published[key.generation].alias == key.alias
    && schema.connection == published[key.generation].registration.connection && schema.table == key.table
  }

  function SchemaInHand(stage: LoadStage): Option<RemoteSchema> {
    match stage
    case Checking => None
    case Looking => None
    case Introspecting(hint) => hint
    case Storing(schema) => Some(schema)
    case Publishing(schema) => Some(schema)
    case Inserting(schema) => Some(schema)
  }

  ghost predicate JobOk(published: map<nat, Publication>, job: Job) {
    job.LoadingTable? ==>
      && job.registration.generation in published
      && published[job.registration.generation] == Publication(job.alias, job.registration)
      && Picked(job.registration.tables, job.requested, job.table)
      && (SchemaInHand(job.stage).Some? ==> Through(published, KeyOf(job), SchemaInHand(job.stage).value))
  }

  ghost predicate ServedOk(published: map<nat, Publication>, v: Served) {
    && Through(published, v.key, v.entry.schema) && v.entry.cachedAt <= v.at <= v.entry.cachedAt + SCHEMA_CACHE_TTL
    && Picked(published[v.key.generation].registration.tables, v.requested, v.key.table)
  }

  /** Every generation was published once, and the live registrations are among those published. */
  ghost predicate Recorded(s: State) {
    && (forall g :: g in s.published ==> g < s.nextGeneration && s.published[g].registration.generation == g)
    && (forall a :: a in s.registrations ==>
          var g := s.registrations[a].generation;
          g in s.published && s.published[g] == Publication(a, s.registrations[a]))
  }

  ghost predicate CacheOk(s: State) {
    forall k :: k in s.cache ==> Through(s.published, k, s.cache[k].schema) && s.cache[k].cachedAt <= s.clock
  }

  ghost predicate JobsOk(s: State) { forall j :: j in s.jobs ==> JobOk(s.published, s.jobs[j]) }

  ghost predicate HistoryOk(s: State) { forall i :: 0 <= i < |s.served| ==> ServedOk(s.published, s.served[i]) }

  /** A table of a database is read through a registration of its alias, with the schema of the table picked. */
  ghost predicate ProviderOk(published: map<nat, Publication>, r: TableRef, provider: Provider) {
    match provider
    case FileProvider => r.schema.None?
    case RemoteProvider(registration, schema) =>
      && r.schema.Some? && registration.generation in published
      && published[registration.generation] == Publication(r.schema.value, registration)
      && schema.connection == registration.connection && Picked(registration.tables, r.table, schema.table)
  }

  ghost predicate RegistryOk(s: State) { forall r :: r in s.registry ==> ProviderOk(s.published, r, s.registry[r]) }

  ghost predicate Isolated(s: State) { Recorded(s) && CacheOk(s) && JobsOk(s) && HistoryOk(s) && RegistryOk(s) }

  lemma ContinueIsolated(s: State, j: JobId, job: Job)
    requires Isolated(s) && JobOk(s.published, job)
    ensures Isolated(Continue(s, j, job)) && Isolated(Done(s, j))
  {}

  lemma HandingOutIsolated(s: State, job: Job)
    requires Isolated(s) && job.LoadingTable? && JobOk(s.published, job) && CacheHit(s, KeyOf(job))
    ensures var key := KeyOf(job);
            Isolated(s.(served := s.served + [Served(key, job.requested, s.cache[key], s.clock)]))
  {
    var key := KeyOf(job);
    var v := Served(key, job.requested, s.cache[key], s.clock);
    assert ServedOk(s.published, v);
    assert forall i :: 0 <= i < |s.served| ==> (s.served + [v])[i] == s.served[i];
  }

  lemma DroppingIsolated(s: State, key: CacheKey)
    requires Isolated(s)
    ensures Isolated(s.(cache := s.cache - {key}))
  {}

  lemma LookUpIsolated(s: State, j: JobId, job: Job)
    requires Isolated(s) && job.LoadingTable? && JobOk(s.published, job)
    ensures Isolated(LookUpStep(s, j, job))
  {
    var key := KeyOf(job);
    if key in s.cache && CacheHit(s, key) {
      var next := job.(stage := Introspecting(Some(s.cache[key].schema)));
      var handed := s.(served := s.served + [Served(key, job.requested, s.cache[key], s.clock)]);
      HandingOutIsolated(s, job);
      ContinueIsolated(handed, j, next);
      assert LookUpStep(s, j, job) == Continue(handed, j, next);
    } else {
      var next := job.(stage := Introspecting(None));
      ContinueIsolated(s, j, next);
      DroppingIsolated(Continue(s, j, next), key);
    }
  }

  lemma StoreIsolated(s: State, key: CacheKey, schema: RemoteSchema)
    requires Isolated(s) && Through(s.published, key, schema)
    ensures Isolated(s.(cache := s.cache[key := CacheEntry(schema, s.clock)]))
  {}

  lemma StoringIsolated(s: State, j: JobId, job: Job, schema: RemoteSchema)
    requires Isolated(s) && job.LoadingTable? && JobOk(s.published, job) && job.stage == Storing(schema)
    ensures Isolated(LoadStep(s, j, job))
  {
    var next := job.(stage := Publishing(schema));
    assert LoadStep(s, j, job) == Continue(s, j, next).(cache := s.cache[KeyOf(job) := CacheEntry(schema, s.clock)]);
    ContinueIsolated(s, j, next);
    StoreIsolated(Continue(s, j, next), KeyOf(job), schema);
  }

  lemma LoadIsolated(s: State, j: JobId, job: Job)
    requires Isolated(s) && job.LoadingTable? && JobOk(s.published, job)
    ensures Isolated(LoadStep(s, j, job))
  {
    match job.stage
    case Looking => LookUpIsolated(s, j, job);
    case Checking => ContinueIsolated(s, j, job.(stage := Looking));
    case Introspecting(hint) =>
      var schema := if hint.Some? then hint.value else RemoteSchema(job.registration.connection, job.table, s.clock);
      ContinueIsolated(s, j, job.(stage := Storing(schema)));
    case Storing(schema) => StoringIsolated(s, j, job, schema);
    case Publishing(schema) => ContinueIsolated(s, j, job.(stage := Inserting(schema)));
    case Inserting(_) => ContinueIsolated(s, j, job);
  }

  lemma PublishIsolated(s: State, j: JobId, alias: string, connection: string, tables: seq<string>)
    requires Isolated(s)
    ensures Isolated(PublishStep(s, j, alias, connection, tables))
  {
    var after := PublishStep(s, j, alias, connection, tables);
    assert forall g :: g in s.published ==> g in after.published && after.published[g] == s.published[g];
  }

  lemma RemovalIsolated(s: State, j: JobId, name: string, stage: RemovalStage)
    requires Isolated(s)
    ensures Isolated(RemovalStep(s, j, name, stage))
  {
    match stage
    case Deregistering(_) => ContinueIsolated(s, j, Removing(name, Uncataloguing));
    case Uncataloguing => ContinueIsolated(s, j, Removing(name, Unregistering));
    case Unregistering => ContinueIsolated(s, j, Removing(name, Clearing));
    case Clearing => ContinueIsolated(s, j, Removing(name, Clearing));
  }

  lemma AdvanceIsolated(s: State, j: JobId)
    requires Isolated(s) && j in s.jobs
    ensures Isolated(AdvanceStep(s, j))
  {
    match s.jobs[j]
    case LoadingTable(_, _, _, _, _) => LoadIsolated(s, j, s.jobs[j]);
    case RegisteringDatabase(alias, connection, tables) => PublishIsolated(s, j, alias, connection, tables);
    case RegisteringFile(name) => ContinueIsolated(s, j, RegisteringFile(name));
    case Removing(name, stage) => RemovalIsolated(s, j, name, stage);
  }

  lemma IsolationStep(s: State, e: Event)
    requires Enabled(s, e) && Isolated(s)
    ensures Isolated(Step(s, e))
  {
    if e.Advance? {
      AdvanceIsolated(s, e.j);
    } else if e.BeginLoad? {
      FoundIsPicked(s.registrations[e.alias].tables, e.requested);
    }
  }

  lemma {:induction false} RunKeepsIsolation(s: State, es: seq<Event>)
    requires Isolated(s) && Run(s, es).Some?
    ensures Isolated(Run(s, es).value)
    decreases es
  {
    if es != [] {
      IsolationStep(s, es[0]);
      RunKeepsIsolation(Step(s, es[0]), es[1..]);
    }
  }

  /**
   * Generation isolation, over every interleaving: whatever the cache handed out for a registration was
   * introspected through the connection published with it, from the table asked for, and stored at most
   * the TTL before; and as long as that registration lives, it is the one under the key's alias.
   */
  lemma CacheServesItsOwnRegistration(es: seq<Event>, v: Served)
    requires Run(INIT, es).Some? && v in Run(INIT, es).value.served
    ensures var s, key := Run(INIT, es).value, v.key;
            && key.generation in s.published && s.published[key.generation].alias == key.alias
            && v.entry.schema.connection == s.published[key.generation].registration.connection
            && v.entry.schema.table == key.table
            && Picked(s.published[key.generation].registration.tables, v.requested, v.entry.schema.table)
            && v.entry.cachedAt <= v.at <= v.entry.cachedAt + SCHEMA_CACHE_TTL
            && forall a :: a in s.registrations && s.registrations[a].generation == key.generation ==>
                 a == key.alias && s.registrations[a].connection == v.entry.schema.connection
  {
    RunKeepsIsolation(INIT, es);
  }

  /**
   * Over every interleaving: a table of a database is read through a registration that was published under
   * its alias, with a schema introspected through that connection from the table picked for its name.
   */
  lemma TablesAreTheOnesAskedFor(es: seq<Event>, r: TableRef)
    requires Run(INIT, es).Some? && r in Run(INIT, es).value.registry && Run(INIT, es).value.registry[r].RemoteProvider?
    ensures var s := Run(INIT, es).value;
            var registration, schema := s.registry[r].registration, s.registry[r].schema;
            && r.schema.Some? && registration.generation in s.published
            && s.published[registration.generation] == Publication(r.schema.value, registration)
            && schema.connection == registration.connection && Picked(registration.tables, r.table, schema.table)
  {
    RunKeepsIsolation(INIT, es);
    assert ProviderOk(Run(INIT, es).value.published, r, Run(INIT, es).value.registry[r]);
  }

  // ---------- a table that is registered ----------

  /** Some load has found the table missing and is about to insert it. */
  ghost predicate AboutToInsert(s: State, r: TableRef) {
    exists j :: && j in s.jobs && s.jobs[j].LoadingTable? && s.jobs[j].stage.Inserting?
                && TableRef(Some(s.jobs[j].alias), s.jobs[j].requested) == r
  }

  predicate Deregisters(s: State, e: Event, r: TableRef) {
    && e.Advance? && e.j in s.jobs && s.jobs[e.j].Removing? && r.schema == Some(s.jobs[e.j].name)
    && s.jobs[e.j].removal == Deregistering(true)
  }

  /** A run in which no removal deregisters the table. */
  ghost predicate NeverDeregisters(s: State, es: seq<Event>, r: TableRef)
    decreases es
  {
    es != [] && Enabled(s, es[0]) ==> !Deregisters(s, es[0], r) && NeverDeregisters(Step(s, es[0]), es[1..], r)
  }

  ghost predicate Stays(s: State, after: State, r: TableRef) {
    r in s.registry && r in after.registry && after.registry[r] == s.registry[r] && !AboutToInsert(after, r)
  }

  /** A job that goes on, though not to insert this table, or ends, leaves it alone. */
  lemma JobStays(s: State, after: State, j: JobId, r: TableRef)
    requires !AboutToInsert(s, r) && r in s.registry && r in after.registry && after.registry[r] == s.registry[r]
    requires after.jobs == s.jobs - {j} || (j in after.jobs && after.jobs == s.jobs[j := after.jobs[j]])
    requires j in after.jobs && after.jobs[j].LoadingTable? && after.jobs[j].stage.Inserting? ==>
               TableRef(Some(after.jobs[j].alias), after.jobs[j].requested) != r
    ensures Stays(s, after, r)
  {
    forall k | k in after.jobs && k != j ensures k in s.jobs && after.jobs[k] == s.jobs[k] {}
  }

  lemma LoadStays(s: State, j: JobId, r: TableRef)
    requires j in s.jobs && s.jobs[j].LoadingTable? && r in s.registry && !AboutToInsert(s, r)
    ensures Stays(s, LoadStep(s, j, s.jobs[j]), r)
  {
    var job, after := s.jobs[j], LoadStep(s, j, s.jobs[j]);
    var r0 := TableRef(Some(job.alias), job.requested);
    match job.stage
    case Checking =>
      assert after.jobs == if r0 in s.registry then s.jobs - {j} else s.jobs[j := job.(stage := Looking)];
      JobStays(s, after, j, r);
    case Looking => LookUpStays(s, j, r);
    case Introspecting(_) =>
      assert after.jobs == s.jobs[j := after.jobs[j]] && after.jobs[j].stage.Storing?;
      JobStays(s, after, j, r);
    case Storing(schema) =>
      assert after.jobs == s.jobs[j := job.(stage := Publishing(schema))];
      JobStays(s, after, j, r);
    case Publishing(schema) =>
      assert after.jobs == if r0 in s.registry then s.jobs - {j} else s.jobs[j := job.(stage := Inserting(schema))];
      JobStays(s, after, j, r);
    case Inserting(_) =>
      assert r0 != r;
      JobStays(s, after, j, r);
  }

  lemma LookUpStays(s: State, j: JobId, r: TableRef)
    requires j in s.jobs && s.jobs[j].LoadingTable? && s.jobs[j].stage.Looking? && r in s.registry
    requires !AboutToInsert(s, r)
    ensures Stays(s, LookUpStep(s, j, s.jobs[j]), r)
  {
    var after := LookUpStep(s, j, s.jobs[j]);
    assert after.jobs == s.jobs[j := after.jobs[j]] && after.jobs[j].stage.Introspecting?;
    JobStays(s, after, j, r);
  }

  lemma RemovalStays(s: State, j: JobId, r: TableRef)
    requires j in s.jobs && s.jobs[j].Removing? && r in s.registry && r.schema.Some? && !AboutToInsert(s, r)
    requires !Deregisters(s, Advance(j), r)
    ensures Stays(s, RemovalStep(s, j, s.jobs[j].name, s.jobs[j].removal), r)
  {
    var after := RemovalStep(s, j, s.jobs[j].name, s.jobs[j].removal);
    assert after.jobs == if s.jobs[j].removal.Clearing? then s.jobs - {j} else s.jobs[j := after.jobs[j]];
    JobStays(s, after, j, r);
  }

  lemma AdvanceStays(s: State, j: JobId, r: TableRef)
    requires j in s.jobs && r in s.registry && r.schema.Some? && !AboutToInsert(s, r) && !Deregisters(s, Advance(j), r)
    ensures Stays(s, AdvanceStep(s, j), r)
  {
    match s.jobs[j]
    case LoadingTable(_, _, _, _, _) => LoadStays(s, j, r);
    case RegisteringDatabase(_, _, _) => JobStays(s, AdvanceStep(s, j), j, r);
    case RegisteringFile(_) => JobStays(s, AdvanceStep(s, j), j, r);
    case Removing(_, _) => RemovalStays(s, j, r);
  }

  lemma RegisteredStep(s: State, e: Event, r: TableRef)
    requires Enabled(s, e) && r in s.registry && r.schema.Some? && !AboutToInsert(s, r) && !Deregisters(s, e, r)
    ensures Stays(s, Step(s, e), r)
  {
    match e
    case Tick(_) =>
    case CatalogDatabase(j, _, _, _) => JobStays(s, Step(s, e), j, r);
    case CatalogFile(j, _) => JobStays(s, Step(s, e), j, r);
    case BeginRemoval(j, _) => JobStays(s, Step(s, e), j, r);
    case BeginLoad(j, _, _, _) => assert s.jobs - {j} == s.jobs; JobStays(s, Step(s, e), j, r);
    case Advance(j) => AdvanceStays(s, j, r);
    case LoadFails(j) => JobStays(s, Step(s, e), j, r);
  }

  /** A registered table of a database stays as it is until its database is removed, whoever asks for it again. */
  lemma {:induction false} RegisteredStays(s: State, es: seq<Event>, r: TableRef)
    requires Run(s, es).Some? && r in s.registry && r.schema.Some?
    requires !AboutToInsert(s, r) && NeverDeregisters(s, es, r)
    ensures var after := Run(s, es).value; r in after.registry && after.registry[r] == s.registry[r]
    decreases es
  {
    if es != [] {
      RegisteredStep(s, es[0], r);
      RegisteredStays(Step(s, es[0]), es[1..], r);
    }
  }
}
