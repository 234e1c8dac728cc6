/** What is decided at one join, told from the paths of its sides, the values of its keys and its surroundings. */
module BroadcastDecisions {
  import opened Common
  import opened Paths
  import opened LogicalPlans
  import opened Broadcast
  import opened BroadcastProofs

  // ---------- scans and paths ----------

  /** The plan that a path of input indices leads to. */
  function At(p: Plan, path: Path): Option<Plan> {
    if path == [] then Some(p)
    else if path[0] < |p.inputs| then At(p.inputs[path[0]], path[1..])
    else None
  }

  predicate ScansAt(p: Plan, path: Path, table: string) {
    var q := At(p, path);
    q.Some? && q.value.op.TableScan? && q.value.op.table == table
  }

  /** Some path leads to the scan of a guarded table. */
  ghost predicate Remote(rt: Runtime, p: Plan) {
    exists path, table :: ScansAt(p, path, table) && rt.guarded(table)
  }

  lemma ScanBelow(p: Plan, i: nat, path: Path, table: string)
    requires i < |p.inputs|
    ensures ScansAt(p, [i] + path, table) <==> ScansAt(p.inputs[i], path, table)
  {
    assert ([i] + path)[1..] == path;
  }

  /** A side is taken for a remote one if and only if a path leads from it to the scan of a guarded table. */
  lemma {:induction false} GuardedMeansRemote(rt: Runtime, p: Plan)
    ensures TouchesGuarded(rt, p) <==> Remote(rt, p)
    decreases p
  {
    forall i | 0 <= i < |p.inputs| ensures TouchesGuarded(rt, p.inputs[i]) <==> Remote(rt, p.inputs[i]) {
      GuardedMeansRemote(rt, p.inputs[i]);
    }
    if TouchesGuarded(rt, p) {
      if p.op.TableScan? && rt.guarded(p.op.table) {
        assert ScansAt(p, [], p.op.table);
      } else {
        var i :| 0 <= i < |p.inputs| && TouchesGuarded(rt, p.inputs[i]);
        var path, table :| ScansAt(p.inputs[i], path, table) && rt.guarded(table);
        ScanBelow(p, i, path, table);
      }
    }
    if path, table :| ScansAt(p, path, table) && rt.guarded(table) {
      if path != [] {
        assert ScansAt(p.inputs[path[0]], path[1..], table);
      }
    }
  }

  /** The paths to the scans of a plan from its input `from` on, in order, for the tables they scan. */
  ghost predicate ScansFrom(p: Plan, from: nat, paths: seq<Path>, tables: seq<string>) {
    && |paths| == |tables|
    && (forall k :: 0 <= k < |paths| ==> paths[k] != [] && paths[k][0] >= from && ScansAt(p, paths[k], tables[k]))
    && Ascending(paths)
    && (forall path, table :: path != [] && path[0] >= from && ScansAt(p, path, table) ==> path in paths)
  }

  /** All of them. */
  ghost predicate Scans(p: Plan, paths: seq<Path>, tables: seq<string>) {
    && |paths| == |tables|
    && (forall k :: 0 <= k < |paths| ==> ScansAt(p, paths[k], tables[k]))
    && Ascending(paths)
    && (forall path, table :: ScansAt(p, path, table) ==> path in paths)
  }

  /** A side is described by the tables of its scans, each once for each scan, in the order of their paths. */
  lemma {:induction false} DescribedByScans(p: Plan) returns (paths: seq<Path>)
    ensures Scans(p, paths, TableNames(p))
    decreases p, 1
  {
    var below := DescribedBelow(p, 0);
    assert p.inputs[0..] == p.inputs;
    if p.op.TableScan? {
      paths := [[]] + below;
      OwnScan(p, below, TableNamesIn(p.inputs));
    } else {
      paths := below;
      NoOwnScan(p, below, TableNamesIn(p.inputs));
    }
  }

  /** A scan stands before those below it. */
  lemma OwnScan(p: Plan, below: seq<Path>, tables: seq<string>)
    requires p.op.TableScan? && ScansFrom(p, 0, below, tables)
    ensures Scans(p, [[]] + below, [p.op.table] + tables)
  {
    var paths := [[]] + below;
    forall path, table | ScansAt(p, path, table) ensures path in paths {
      if path != [] {
        assert path in below;
      }
    }
  }

  lemma NoOwnScan(p: Plan, below: seq<Path>, tables: seq<string>)
    requires !p.op.TableScan? && ScansFrom(p, 0, below, tables)
    ensures Scans(p, below, [] + tables)
  {
    assert [] + tables == tables;
  }

  lemma {:induction false} DescribedBelow(p: Plan, from: nat) returns (paths: seq<Path>)
    requires from <= |p.inputs|
    ensures ScansFrom(p, from, paths, TableNamesIn(p.inputs[from..]))
    decreases p, 0, |p.inputs| - from
  {
    if from == |p.inputs| {
      paths := [];
    } else {
      var first := DescribedByScans(p.inputs[from]);
      var rest := DescribedBelow(p, from + 1);
      assert p.inputs[from..][1..] == p.inputs[from + 1..];
      paths := Under(from, first) + rest;
      DescriptionsJoin(p, from, first, TableNames(p.inputs[from]), rest, TableNamesIn(p.inputs[from + 1..]));
    }
  }

  lemma FoundJoin(p: Plan, i: nat, first: seq<Path>, names: seq<string>, rest: seq<Path>, path: Path, table: string)
    requires i < |p.inputs| && Scans(p.inputs[i], first, names)
    requires forall other, t :: other != [] && other[0] >= i + 1 && ScansAt(p, other, t) ==> other in rest
    requires path != [] && path[0] >= i && ScansAt(p, path, table)
    ensures path in Under(i, first) + rest
  {
    if path[0] == i {
      assert path == [i] + path[1..];
      ScanBelow(p, i, path[1..], table);
      var k :| 0 <= k < |first| && first[k] == path[1..];
      assert Under(i, first)[k] == path;
    }
  }

  lemma DescriptionsJoin(p: Plan, i: nat, first: seq<Path>, names: seq<string>, rest: seq<Path>, more: seq<string>)
    requires i < |p.inputs| && Scans(p.inputs[i], first, names) && ScansFrom(p, i + 1, rest, more)
    ensures ScansFrom(p, i, Under(i, first) + rest, names + more)
  {
    var paths := Under(i, first) + rest;
    UnderAscends(i, first);
    AscendOn(i + 1, Under(i, first), rest);
    forall k | 0 <= k < |first| ensures ScansAt(p, Under(i, first)[k], names[k]) {
      ScanBelow(p, i, first[k], names[k]);
    }
    forall path, table | path != [] && path[0] >= i && ScansAt(p, path, table) ensures path in paths {
      FoundJoin(p, i, first, names, rest, path, table);
    }
  }

  // ---------- keys ----------

  /** The expression under `k` casts and aliases. */
  function Peeled(e: Expr, k: nat): Option<Expr> {
    if k == 0 then Some(e)
    else match e
      case Cast(x, _) => Peeled(x, k - 1)
      case Alias(x, _) => Peeled(x, k - 1)
      case _ => None
  }

  ghost predicate IsKeyColumn(e: Expr, name: string) { exists k: nat :: Peeled(e, k) == Some(Column(name)) }

  lemma {:induction false} ColumnIsPeeled(e: Expr, name: string)
    ensures ColumnOf(e) == Some(name) <==> IsKeyColumn(e, name)
    decreases e
  {
    if e.Cast? || e.Alias? {
      ColumnIsPeeled(e.expr, name);
      if k: nat :| Peeled(e.expr, k) == Some(Column(name)) {
        assert Peeled(e, k + 1) == Some(Column(name));
      }
      if k: nat :| Peeled(e, k) == Some(Column(name)) {
        assert Peeled(e.expr, k - 1) == Some(Column(name));
      }
    } else {
      assert Peeled(e, 0) == Some(e);
    }
  }

  /** The first field of that name. */
  ghost predicate IsField(schema: Schema, name: string, i: nat) {
    i < |schema| && schema[i].name == name && forall j :: 0 <= j < i ==> schema[j].name != name
  }

  lemma {:induction false} FieldIsFirst(schema: Schema, name: string)
    ensures forall i: nat :: IndexOf(schema, name) == Some(i) <==> IsField(schema, name, i)
    ensures IndexOf(schema, name).None? <==> forall i :: 0 <= i < |schema| ==> schema[i].name != name
  {
    if schema != [] && schema[0].name != name {
      var rest := schema[1..];
      FieldIsFirst(rest, name);
      forall i: nat ensures IndexOf(schema, name) == Some(i) <==> IsField(schema, name, i) {
        if IsField(schema, name, i) {
          assert IsField(rest, name, i - 1);
        }
        if IndexOf(schema, name) == Some(i) {
          assert IsField(rest, name, i - 1);
        }
      }
      assert forall i :: 0 <= i < |rest| ==> rest[i] == schema[i + 1];
    } else if schema != [] {
      assert IsField(schema, name, 0);
    }
  }

  /** The values of a column over the rows of a plan, each once. */
  ghost function ValuesIn(db: Database, p: Plan, column: string): set<Scalar> {
    set row | row in Eval(db, p) :: ColumnValue(SchemaOf(p), row, column)
  }

  /** What is asked of the local side are the distinct values of its key column. */
  lemma KeysAreValues(db: Database, local: Plan, column: string)
    ensures Elements(KeysOf(db, local, column)) == ValuesIn(db, local, column)
  {
    var project := Node(Projection([Column(column)], [Field(column, NullType)]), [local]);
    EvalUnary(db, Distinct, project);
    EvalUnary(db, project.op, local);
    var rows, projected, distinct := Eval(db, local), Eval(db, project), FirstOccurrences(Eval(db, project));
    FirstOccurrencesElements(projected);
    forall v | v in Elements(KeysOf(db, local, column)) ensures v in ValuesIn(db, local, column) {
      var j :| 0 <= j < |distinct| && KeysOf(db, local, column)[j] == v;
      assert distinct[j] in Elements(distinct);
      var i :| 0 <= i < |projected| && projected[i] == distinct[j];
      assert projected[i] == [ColumnValue(SchemaOf(local), rows[i], column)];
    }
    forall v | v in ValuesIn(db, local, column) ensures v in Elements(KeysOf(db, local, column)) {
      var row :| row in rows && v == ColumnValue(SchemaOf(local), row, column);
      KeyOfRowIsListed(db, local, column, row);
    }
  }

  // ---------- sizes ----------

  /** The `n`-th extraction asks for one key more than the cap allows, and its rows arrive in these batches. */
  function Sample(env: Env, local: Plan, column: string, n: nat): seq<seq<Scalar>> {
    env.runtime.arrange(n, KeysOf(env.db, local, column), env.config.maxLocalRows + 1)
  }

  function SumOfSizes(rt: Runtime, n: nat, batches: seq<seq<Scalar>>): nat {
    if batches == [] then 0 else rt.batchBytes(n, batches[0]) + SumOfSizes(rt, n, batches[1..])
  }

  lemma {:induction false} SumOfLast(rt: Runtime, n: nat, batches: seq<seq<Scalar>>)
    requires batches != []
    ensures var k := |batches| - 1;
            SumOfSizes(rt, n, batches) == SumOfSizes(rt, n, batches[..k]) + rt.batchBytes(n, batches[k])
  {
    var init := batches[..|batches| - 1];
    if init != [] {
      SumOfLast(rt, n, batches[1..]);
      assert batches[1..][..|batches| - 2] == init[1..];
    }
  }

  /** The size of the batches is the sum of their sizes, up to what a machine word holds. */
  lemma {:induction false} BytesAreSummed(rt: Runtime, n: nat, batches: seq<seq<Scalar>>)
    ensures TotalBytes(rt, n, batches) == Min(SumOfSizes(rt, n, batches), USIZE_MAX)
    decreases |batches|
  {
    if batches != [] {
      BytesAreSummed(rt, n, batches[..|batches| - 1]);
      SumOfLast(rt, n, batches);
    }
  }

  ghost predicate WithinBothCaps(env: Env, local: Plan, column: string, n: nat) {
    && |ValuesIn(env.db, local, column)| <= env.config.maxLocalRows
    && Min(SumOfSizes(env.runtime, n, Sample(env, local, column, n)), USIZE_MAX) <= env.config.maxLocalBytes
  }

  // ---------- the decision ----------

  ghost predicate HasField(schema: Schema, name: string) { exists i :: 0 <= i < |schema| && schema[i].name == name }

  ghost predicate HasKeyColumn(e: Expr) { exists name :: IsKeyColumn(e, name) }

  /** Which joins are left alone before any key is asked for, and why. */
  lemma LeftAlone(env: Env, spec: JoinSpec, left: Plan, right: Plan, n: nat)
    ensures var v := JoinVerdict(env, spec, left, right, n);
            var equiJoin := spec.joinType == Inner && |spec.on| == 1;
            var keyed := equiJoin && HasKeyColumn(spec.on[0].0) && HasKeyColumn(spec.on[0].1);
            var leftRemote, rightRemote := Remote(env.runtime, left), Remote(env.runtime, right);
            && (v == Skip(NotInnerEquiJoin) <==> !equiJoin)
            && (v == Skip(NonColumnJoinKey) <==> equiJoin && !keyed)
            && (v == Skip(NoFederatedSide) <==> keyed && !leftRemote && !rightRemote)
            && (v == Skip(BothSidesFederated) <==> keyed && leftRemote && rightRemote)
  {
    GuardedMeansRemote(env.runtime, left);
    GuardedMeansRemote(env.runtime, right);
    if |spec.on| == 1 {
      KeyColumnOrNone(spec.on[0].0);
      KeyColumnOrNone(spec.on[0].1);
    }
  }

  lemma KeyColumnOrNone(e: Expr)
    ensures HasKeyColumn(e) <==> ColumnOf(e).Some?
  {
    forall name ensures ColumnOf(e) == Some(name) <==> IsKeyColumn(e, name) {
      ColumnIsPeeled(e, name);
    }
    if ColumnOf(e).Some? {
      assert IsKeyColumn(e, ColumnOf(e).value);
    }
  }

  /** An inner join on two columns with one remote side. */
  ghost predicate OneRemoteSide(rt: Runtime, spec: JoinSpec, local: Plan, remote: Plan, localIsLeft: bool,
                                localCol: string, remoteCol: string)
  {
    && spec.joinType == Inner && |spec.on| == 1
    && IsKeyColumn(if localIsLeft then spec.on[0].0 else spec.on[0].1, localCol)
    && IsKeyColumn(if localIsLeft then spec.on[0].1 else spec.on[0].0, remoteCol)
    && Remote(rt, remote) && !Remote(rt, local)
  }

  function Sides(local: Plan, remote: Plan, localIsLeft: bool): (Plan, Plan) {
    if localIsLeft then (local, remote) else (remote, local)
  }

  lemma OneRemoteVerdict(env: Env, spec: JoinSpec, local: Plan, remote: Plan, localIsLeft: bool,
                         localCol: string, remoteCol: string, n: nat)
    requires OneRemoteSide(env.runtime, spec, local, remote, localIsLeft, localCol, remoteCol)
    ensures var (left, right) := Sides(local, remote, localIsLeft);
            JoinVerdict(env, spec, left, right, n) ==
            BroadcastVerdict(env, spec, local, remote, localIsLeft, localCol, remoteCol, n)
  {
    GuardedMeansRemote(env.runtime, local);
    GuardedMeansRemote(env.runtime, remote);
    ColumnIsPeeled(if localIsLeft then spec.on[0].0 else spec.on[0].1, localCol);
    ColumnIsPeeled(if localIsLeft then spec.on[0].1 else spec.on[0].0, remoteCol);
  }

  /** A local side without the key column cannot be asked for keys. */
  lemma NoLocalColumn(env: Env, spec: JoinSpec, local: Plan, remote: Plan, localIsLeft: bool,
                      localCol: string, remoteCol: string, n: nat)
    requires OneRemoteSide(env.runtime, spec, local, remote, localIsLeft, localCol, remoteCol)
    requires !HasField(SchemaOf(local), localCol)
    ensures var (left, right) := Sides(local, remote, localIsLeft);
            JoinVerdict(env, spec, left, right, n) == Skip(LocalSideMaterializationError)
  {
    OneRemoteVerdict(env, spec, local, remote, localIsLeft, localCol, remoteCol, n);
    FieldIsFirst(SchemaOf(local), localCol);
  }

  /** The key types that are not broadcast. */
  predicate Unsupported(ty: DataType) {
    ty == NullType || ty == Timestamp || ty == Decimal128 || ty == Binary
  }

  /** Every value is of the column's own type. */
  ghost predicate Uniform(values: set<Scalar>, ty: DataType) { forall v :: v in values ==> v.ty == ty }

  ghost predicate OnlyNulls(values: set<Scalar>) { forall v :: v in values ==> v.Null? }

  /** Each reason to leave the join alone, the one error, and the replacement, each exactly when. */
  ghost predicate Decided(v: Verdict, fate: Fate, within: bool, values: set<Scalar>, ty: DataType,
                          remoteHasField: bool, remoteCol: string)
  {
    var present, typed := fate == Completes && within, !Unsupported(ty) && Uniform(values, ty);
    && (v == Skip(CancellationRequested) <==> fate == Cancelled)
    && (v == Skip(LocalSideMaterializationExceededCap) <==> fate == Completes && !within)
    && (v == Skip(UnsupportedKeyType) <==> present && values != {} && Unsupported(ty))
    && (v == Skip(LocalSideMaterializationError) <==>
          fate == Fails || (present && !Unsupported(ty) && !Uniform(values, ty)))
    && (v == Abort(UnresolvedColumn(remoteCol)) <==> present && typed && !OnlyNulls(values) && !remoteHasField)
    && (v.Replace? <==> present && (values == {} || (typed && (OnlyNulls(values) || remoteHasField))))
  }

  /** What becomes of a join with one remote side, over whatever plans its sides are. */
  lemma DecidedExactly(env: Env, spec: JoinSpec, local: Plan, remote: Plan, localIsLeft: bool,
                       localCol: string, remoteCol: string, n: nat, i: nat)
    requires ValidEnv(env)
    requires OneRemoteSide(env.runtime, spec, local, remote, localIsLeft, localCol, remoteCol)
    requires IsField(SchemaOf(local), localCol, i)
    ensures var (left, right) := Sides(local, remote, localIsLeft);
            Decided(JoinVerdict(env, spec, left, right, n), env.runtime.fate(n),
                    WithinBothCaps(env, local, localCol, n), ValuesIn(env.db, local, localCol),
                    SchemaOf(local)[i].ty, HasField(SchemaOf(remote), remoteCol), remoteCol)
  {
    OneRemoteVerdict(env, spec, local, remote, localIsLeft, localCol, remoteCol, n);
    VerdictDecided(env, spec, local, remote, localIsLeft, localCol, remoteCol, n, i);
  }

  lemma VerdictDecided(env: Env, spec: JoinSpec, local: Plan, remote: Plan, localIsLeft: bool,
                       localCol: string, remoteCol: string, n: nat, i: nat)
    requires ValidEnv(env) && IsField(SchemaOf(local), localCol, i)
    ensures Decided(BroadcastVerdict(env, spec, local, remote, localIsLeft, localCol, remoteCol, n),
                    env.runtime.fate(n), WithinBothCaps(env, local, localCol, n), ValuesIn(env.db, local, localCol),
                    SchemaOf(local)[i].ty, HasField(SchemaOf(remote), remoteCol), remoteCol)
  {
    FieldIsFirst(SchemaOf(local), localCol);
    FieldIsFirst(SchemaOf(remote), remoteCol);
    assert IndexOf(SchemaOf(local), localCol) == Some(i);
    var m, values, ty := Materialize(env, local, localCol, n), ValuesIn(env.db, local, localCol), SchemaOf(local)[i].ty;
    if env.runtime.fate(n) == Completes {
      KeysWithinCaps(env, local, localCol, n);
      if m.Values? {
        KeysListed(m.batches, values, ty);
        ValuesDecided(env, spec, local, remote, localIsLeft, localCol, remoteCol, n, m, values, ty,
                      HasField(SchemaOf(remote), remoteCol));
      }
    }
  }

  lemma ValuesDecided(env: Env, spec: JoinSpec, local: Plan, remote: Plan, localIsLeft: bool, localCol: string,
                      remoteCol: string, n: nat, m: Materialization, values: set<Scalar>, ty: DataType, has: bool)
    requires m == Materialize(env, local, localCol, n) && m.Values? && m.rows == |values|
    requires var i := IndexOf(SchemaOf(local), localCol); i.Some? && SchemaOf(local)[i.value].ty == ty
    requires var keys := DistinctKeys(Flatten(m.batches), ty);
             && (keys.Some? <==> Uniform(values, ty))
             && (keys.Some? ==> (keys.value == [] <==> OnlyNulls(values)))
    requires has <==> IndexOf(SchemaOf(remote), remoteCol).Some?
    ensures Decided(BroadcastVerdict(env, spec, local, remote, localIsLeft, localCol, remoteCol, n),
                    Completes, true, values, ty, has, remoteCol)
  {}

  lemma KeysWithinCaps(env: Env, local: Plan, column: string, n: nat)
    requires ValidEnv(env) && IndexOf(SchemaOf(local), column).Some? && env.runtime.fate(n) == Completes
    ensures var m, values := Materialize(env, local, column, n), ValuesIn(env.db, local, column);
            && (m.ExceededCap? <==> !WithinBothCaps(env, local, column, n))
            && (m.ExceededCap? || m.Values?)
            && (m.Values? ==> && m.batches == Sample(env, local, column, n)
                              && Elements(Flatten(m.batches)) == values
                              && m.rows == |values|
                              && m.bytes == Min(SumOfSizes(env.runtime, n, m.batches), USIZE_MAX))
  {
    CapDetectsOverflow(env, local, column, n);
    KeysAreValues(env.db, local, column);
    BytesAreSummed(env.runtime, n, Sample(env, local, column, n));
  }

  lemma KeysListed(batches: seq<seq<Scalar>>, values: set<Scalar>, ty: DataType)
    requires Elements(Flatten(batches)) == values
    ensures var keys := DistinctKeys(Flatten(batches), ty);
            && (keys.Some? <==> Uniform(values, ty))
            && (keys.Some? ==>
                  && (forall v :: v in keys.value <==> v in values && !v.Null?)
                  && (keys.value == [] <==> OnlyNulls(values)))
  {
    var flat := Flatten(batches);
    forall k | 0 <= k < |flat| ensures flat[k] in values {
      assert flat[k] in Elements(flat);
    }
    if DistinctKeys(flat, ty).Some? {
      DistinctKeysElements(flat, ty);
      var keys := DistinctKeys(flat, ty).value;
      if keys != [] {
        assert keys[0] in keys;
      }
    }
  }

  // ---------- the replacement ----------

  /** `b` of `s` comes after `a`. */
  ghost predicate ComesAfter(s: seq<Scalar>, a: Scalar, b: Scalar) {
    exists i, j :: 0 <= i < j < |s| && s[i] == a && s[j] == b
  }

  /** Each NOT NULL value once, in the order of the sample. */
  ghost predicate ListsValues(keys: seq<Scalar>, values: set<Scalar>, sample: seq<Scalar>) {
    && NoDup(keys)
    && (forall v :: v in keys <==> v in values && !v.Null?)
    && (forall k, l :: 0 <= k < l < |keys| ==> ComesAfter(sample, keys[k], keys[l]))
  }

  lemma {:induction false} FirstOfDistinct(s: seq<Scalar>)
    requires NoDup(s)
    ensures FirstOccurrences(s) == s
  {
    if s != [] {
      var init := s[..|s| - 1];
      FirstOfDistinct(init);
      assert s == init + [s[|s| - 1]];
    }
  }

  lemma {:induction false} NonNullInOrder(s: seq<Scalar>)
    requires NoDup(s)
    ensures ListsValues(NonNull(s), Elements(s), s)
  {
    if s != [] {
      var init, last := s[..|s| - 1], s[|s| - 1];
      NonNullInOrder(init);
      assert s == init + [last];
      assert Elements(s) == Elements(init) + {last};
      NonNullElements(s);
      var keys, before := NonNull(s), NonNull(init);
      assert forall v :: v in init ==> v != last;
      forall k, l | 0 <= k < l < |keys| ensures ComesAfter(s, keys[k], keys[l]) {
        if l < |before| {
          assert ComesAfter(init, keys[k], keys[l]);
        } else {
          assert before[k] in before;
          var i :| 0 <= i < |init| && init[i] == keys[k];
          assert s[i] == keys[k] && s[|s| - 1] == keys[l];
        }
      }
    }
  }

  lemma KeysInOrder(batches: seq<seq<Scalar>>, values: set<Scalar>, ty: DataType)
    requires NoDup(Flatten(batches)) && Elements(Flatten(batches)) == values
    requires DistinctKeys(Flatten(batches), ty).Some?
    ensures ListsValues(DistinctKeys(Flatten(batches), ty).value, values, Flatten(batches))
  {
    FirstOfDistinct(Flatten(batches));
    NonNullInOrder(Flatten(batches));
  }

  function Nulls(values: set<Scalar>): set<Scalar> { set v | v in values && v.Null? }

  /** What stands in the place of a replaced join. */
  ghost predicate ReplacedBy(plan: Plan, spec: JoinSpec, local: Plan, remote: Plan, localIsLeft: bool,
                             remoteCol: string, values: set<Scalar>, keys: seq<Scalar>)
  {
    if OnlyNulls(values) then plan == Node(EmptyRelation(false, spec.schema), [])
    else
      var restricted := Node(Filter(InList(Column(remoteCol), keys, false)), [remote]);
      plan == Node(Join(spec), if localIsLeft then [local, restricted] else [restricted, local])
  }

  /** What is reported of it. */
  ghost predicate ReportedAs(app: Application, local: Plan, remote: Plan, localCol: string, remoteCol: string,
                             values: set<Scalar>, bytes: nat)
  {
    && app.localTables == TableNames(local) && app.remoteTables == TableNames(remote)
    && app.joinKeyLocal == localCol && app.joinKeyRemote == remoteCol
    && app.localRows == |values|
    && app.localBytes == (if values == {} then 0 else bytes)
    && app.predicateValueCount == |values - Nulls(values)|
  }

  /** A replaced join keeps its sides in place, and the remote one is asked for the NOT NULL keys only. */
  lemma ReplacedExactly(env: Env, spec: JoinSpec, local: Plan, remote: Plan, localIsLeft: bool,
                        localCol: string, remoteCol: string, n: nat) returns (keys: seq<Scalar>)
    requires ValidEnv(env)
    requires OneRemoteSide(env.runtime, spec, local, remote, localIsLeft, localCol, remoteCol)
    requires var (left, right) := Sides(local, remote, localIsLeft); JoinVerdict(env, spec, left, right, n).Replace?
    ensures var (left, right) := Sides(local, remote, localIsLeft);
            var v := JoinVerdict(env, spec, left, right, n);
            var values, sample := ValuesIn(env.db, local, localCol), Sample(env, local, localCol, n);
            && ListsValues(keys, values, Flatten(sample))
            && ReplacedBy(v.plan, spec, local, remote, localIsLeft, remoteCol, values, keys)
            && ReportedAs(v.application, local, remote, localCol, remoteCol, values,
                          Min(SumOfSizes(env.runtime, n, sample), USIZE_MAX))
  {
    OneRemoteVerdict(env, spec, local, remote, localIsLeft, localCol, remoteCol, n);
    KeysWithinCaps(env, local, localCol, n);
    var values, m := ValuesIn(env.db, local, localCol), Materialize(env, local, localCol, n);
    assert IsSample(m.batches, KeysOf(env.db, local, localCol), env.config.maxLocalRows + 1);
    if m.rows == 0 {
      keys := [];
      assert values - Nulls(values) == {};
    } else {
      var ty := SchemaOf(local)[IndexOf(SchemaOf(local), localCol).value].ty;
      KeysListed(m.batches, values, ty);
      KeysInOrder(m.batches, values, ty);
      keys := DistinctKeys(Flatten(m.batches), ty).value;
      NoDupCardinality(keys);
      assert Elements(keys) == values - Nulls(values);
    }
  }

  // ---------- whole plans ----------

  predicate IsRestriction(op: Op, arity: nat) {
    arity == 1 && op.Filter? && op.condition.InList? && !op.condition.negated
  }

  /** The plan without its restrictions to lists of values. */
  function Unrestricted(p: Plan): Plan
    decreases p, 1
  {
    NodeOrInput(p.op, UnrestrictedAll(p.inputs))
  }

  function NodeOrInput(op: Op, inputs: seq<Plan>): Plan {
    if IsRestriction(op, |inputs|) then inputs[0] else Node(op, inputs)
  }

  function UnrestrictedAll(ps: seq<Plan>): seq<Plan>
    decreases ps, 0
  {
    if ps == [] then [] else [Unrestricted(ps[0])] + UnrestrictedAll(ps[1..])
  }

  /** The lengths of the lists of values in a plan. */
  function Lists(p: Plan): multiset<nat>
    decreases p, 1
  {
    ListsIn(p.inputs) + OwnList(p.op, |p.inputs|)
  }

  function OwnList(op: Op, arity: nat): multiset<nat> {
    if IsRestriction(op, arity) then multiset{|op.condition.list|} else multiset{}
  }

  function ListsIn(ps: seq<Plan>): multiset<nat>
    decreases ps, 0
  {
    if ps == [] then multiset{} else Lists(ps[0]) + ListsIn(ps[1..])
  }

  /** The numbers of keys sent, as reported. */
  function Counts(apps: seq<Application>): multiset<nat> {
    if apps == [] then multiset{}
    else Counts(apps[..|apps| - 1]) + multiset{apps[|apps| - 1].predicateValueCount}
  }

  /** Every replacement from `before` to `after` sent keys. */
  ghost predicate AllSent(before: Log, after: Log) {
    forall i :: |before.applied| <= i < |after.applied| ==> after.applied[i].predicateValueCount > 0
  }

  /** What a pass does from `before` to `after` to a plan with some lists. */
  ghost predicate Adds(before: Log, after: Log, lists: multiset<nat>, grown: multiset<nat>, alike: bool, same: bool) {
    && before.applied <= after.applied
    && (AllSent(before, after) ==> alike && Counts(after.applied) + lists == Counts(before.applied) + grown)
    && (after.applied == before.applied ==> same)
  }

  lemma SentBefore(a: Log, b: Log, c: Log)
    requires a.applied <= b.applied <= c.applied && AllSent(a, c)
    ensures AllSent(a, b) && AllSent(b, c)
  {
    forall i | |a.applied| <= i < |b.applied| ensures b.applied[i].predicateValueCount > 0 {
      assert c.applied[i] == b.applied[i];
    }
  }

  lemma AddsBeside(a: Log, b: Log, c: Log, lists: multiset<nat>, grown: multiset<nat>, alike: bool, same: bool,
                   lists1: multiset<nat>, grown1: multiset<nat>, alike1: bool, same1: bool)
    requires Adds(a, b, lists, grown, alike, same) && Adds(b, c, lists1, grown1, alike1, same1)
    ensures Adds(a, c, lists + lists1, grown + grown1, alike && alike1, same && same1)
  {
    if AllSent(a, c) {
      SentBefore(a, b, c);
      Balance(Counts(a.applied), Counts(b.applied), Counts(c.applied), lists, grown, lists1, grown1);
    }
  }

  lemma Balance(a: multiset<nat>, b: multiset<nat>, c: multiset<nat>, x: multiset<nat>, y: multiset<nat>,
                x1: multiset<nat>, y1: multiset<nat>)
    requires b + x == a + y && c + x1 == b + y1
    ensures c + (x + x1) == a + (y + y1)
  {
    forall k: nat ensures (c + (x + x1))[k] == (a + (y + y1))[k] {
      assert (b + x)[k] == (a + y)[k] && (c + x1)[k] == (b + y1)[k];
    }
  }

  lemma AddsOn(a: Log, b: Log, c: Log, lists: multiset<nat>, grown: multiset<nat>, grown1: multiset<nat>,
               alike: bool, same: bool, alike1: bool, same1: bool)
    requires Adds(a, b, lists, grown, alike, same) && Adds(b, c, grown, grown1, alike1, same1)
    ensures Adds(a, c, lists, grown1, alike && alike1, same && same1)
  {
    if AllSent(a, c) {
      SentBefore(a, b, c);
      Balance(Counts(a.applied), Counts(b.applied), Counts(c.applied), lists, grown, grown, grown1);
      Cancel(Counts(a.applied), Counts(c.applied), lists, grown, grown1);
    }
  }

  lemma Cancel(a: multiset<nat>, c: multiset<nat>, x: multiset<nat>, y: multiset<nat>, z: multiset<nat>)
    requires c + (x + y) == a + (y + z)
    ensures c + x == a + z
  {
    forall k: nat ensures (c + x)[k] == (a + z)[k] {
      assert (c + (x + y))[k] == (a + (y + z))[k];
    }
  }

  /**
   * What a pass does to a plan: the restrictions it adds are those it reports, nothing else changes while
   * every replacement sent keys, and nothing at all changes without a replacement.
   */
  ghost predicate OnlyRestricts(before: Log, after: Log, p: Plan, q: Plan) {
    Adds(before, after, Lists(p), Lists(q), Unrestricted(q) == Unrestricted(p), q == p)
  }

  ghost predicate OnlyRestrictsAll(before: Log, after: Log, ps: seq<Plan>, qs: seq<Plan>) {
    Adds(before, after, ListsIn(ps), ListsIn(qs), UnrestrictedAll(qs) == UnrestrictedAll(ps), qs == ps)
  }

  lemma {:induction false} PassOnlyRestricts(env: Env, p: Plan, log: Log)
    ensures var (r, after) := Rewrite(env, p, log);
            r.Ok? ==> OnlyRestricts(log, after, p, r.value)
    decreases p, 1
  {
    var (kids, log1) := RewriteAll(env, p.inputs, log);
    PassOnlyRestrictsAll(env, p.inputs, log);
    if kids.Ok? {
      var q := Node(p.op, kids.value);
      NodeOnlyRestricts(log, log1, p, q);
      if IsJoin(q) {
        InspectionOnlyRestricts(env, q, log1);
        var (r, after) := InspectJoin(env, q, log1);
        if r.Ok? {
          OnlyRestrictsOn(log, log1, after, p, q, r.value);
        }
      }
    }
  }

  lemma {:induction false} PassOnlyRestrictsAll(env: Env, ps: seq<Plan>, log: Log)
    ensures var (r, after) := RewriteAll(env, ps, log);
            r.Ok? ==> |r.value| == |ps| && OnlyRestrictsAll(log, after, ps, r.value)
    decreases ps, 0
  {
    if ps != [] {
      var (first, log1) := Rewrite(env, ps[0], log);
      PassOnlyRestricts(env, ps[0], log);
      if first.Ok? {
        var (rest, log2) := RewriteAll(env, ps[1..], log1);
        PassOnlyRestrictsAll(env, ps[1..], log1);
        if rest.Ok? {
          FirstAndRest(env, ps, log, first.value, log1, rest.value, log2);
        }
      }
    }
  }

  lemma FirstAndRest(env: Env, ps: seq<Plan>, log: Log, q: Plan, log1: Log, qs: seq<Plan>, log2: Log)
    requires ps != [] && Rewrite(env, ps[0], log) == (Ok(q), log1) && RewriteAll(env, ps[1..], log1) == (Ok(qs), log2)
    requires OnlyRestricts(log, log1, ps[0], q) && OnlyRestrictsAll(log1, log2, ps[1..], qs)
    ensures RewriteAll(env, ps, log) == (Ok([q] + qs), log2) && OnlyRestrictsAll(log, log2, ps, [q] + qs)
  {
    JoinRestricted(log, log1, log2, ps[0], q, ps[1..], qs);
    assert [ps[0]] + ps[1..] == ps;
  }

  lemma JoinRestricted(a: Log, b: Log, c: Log, p: Plan, q: Plan, ps: seq<Plan>, qs: seq<Plan>)
    requires OnlyRestricts(a, b, p, q) && OnlyRestrictsAll(b, c, ps, qs)
    ensures OnlyRestrictsAll(a, c, [p] + ps, [q] + qs)
  {
    AddsBeside(a, b, c, Lists(p), Lists(q), Unrestricted(q) == Unrestricted(p), q == p,
               ListsIn(ps), ListsIn(qs), UnrestrictedAll(qs) == UnrestrictedAll(ps), qs == ps);
    OneMore(p, ps);
    OneMore(q, qs);
  }

  lemma OneMore(p: Plan, ps: seq<Plan>)
    ensures ListsIn([p] + ps) == Lists(p) + ListsIn(ps)
    ensures UnrestrictedAll([p] + ps) == [Unrestricted(p)] + UnrestrictedAll(ps)
  {
    assert ([p] + ps)[1..] == ps;
  }

  lemma OnlyRestrictsOn(a: Log, b: Log, c: Log, p: Plan, q: Plan, r: Plan)
    requires OnlyRestricts(a, b, p, q) && OnlyRestricts(b, c, q, r)
    ensures OnlyRestricts(a, c, p, r)
  {
    AddsOn(a, b, c, Lists(p), Lists(q), Lists(r), Unrestricted(q) == Unrestricted(p), q == p,
           Unrestricted(r) == Unrestricted(q), r == q);
  }

  lemma NodeOnlyRestricts(before: Log, after: Log, p: Plan, q: Plan)
    requires p.op == q.op && |p.inputs| == |q.inputs| && OnlyRestrictsAll(before, after, p.inputs, q.inputs)
    ensures OnlyRestricts(before, after, p, q)
  {
    NodeAdds(before, after, ListsIn(p.inputs), ListsIn(q.inputs), OwnList(p.op, |p.inputs|),
             UnrestrictedAll(q.inputs) == UnrestrictedAll(p.inputs), Unrestricted(q) == Unrestricted(p),
             q.inputs == p.inputs, q == p);
  }

  lemma NodeAdds(before: Log, after: Log, lists: multiset<nat>, grown: multiset<nat>, own: multiset<nat>,
                 alike: bool, alike1: bool, same: bool, same1: bool)
    requires Adds(before, after, lists, grown, alike, same) && (alike ==> alike1) && (same ==> same1)
    ensures Adds(before, after, lists + own, grown + own, alike1, same1)
  {
    if AllSent(before, after) {
      Balance(Counts(before.applied), Counts(before.applied), Counts(after.applied), own, own, lists, grown);
      assert own + lists == lists + own && own + grown == grown + own;
    }
  }

  lemma InspectionOnlyRestricts(env: Env, q: Plan, log: Log)
    requires IsJoin(q)
    ensures var (r, after) := InspectJoin(env, q, log);
            r.Ok? ==> OnlyRestricts(log, after, q, r.value)
  {
    var n, spec, left, right := log.considered + 1, q.op.spec, q.inputs[0], q.inputs[1];
    var v := JoinVerdict(env, spec, left, right, n);
    InspectionIsVerdict(env, q, log, v);
    if v.Replace? {
      VerdictAddsOne(env, spec, left, right, n, v);
      assert q == Node(Join(spec), [left, right]);
      ReplacementReported(log, Record(log, v), q, v);
    }
  }

  lemma VerdictAddsOne(env: Env, spec: JoinSpec, left: Plan, right: Plan, n: nat, v: Verdict)
    requires v == JoinVerdict(env, spec, left, right, n) && v.Replace?
    ensures AddsOne(Node(Join(spec), [left, right]), v)
  {
    if TouchesGuarded(env.runtime, right) {
      ReplacementRestricts(env, spec, left, right, true, LeftKey(spec), RightKey(spec), n);
    } else {
      ReplacementRestricts(env, spec, right, left, false, RightKey(spec), LeftKey(spec), n);
    }
  }

  /** A replacement that sends keys adds one restriction, to the remote side. */
  ghost predicate AddsOne(q: Plan, v: Verdict)
    requires v.Replace?
  {
    v.application.predicateValueCount > 0 ==>
      && Unrestricted(v.plan) == Unrestricted(q)
      && Lists(v.plan) == Lists(q) + multiset{v.application.predicateValueCount}
  }

  lemma ReplacementReported(before: Log, after: Log, q: Plan, v: Verdict)
    requires v.Replace? && AddsOne(q, v) && after.applied == before.applied + [v.application]
    ensures OnlyRestricts(before, after, q, v.plan)
  {
    assert after.applied[..|after.applied| - 1] == before.applied;
    assert AllSent(before, after) ==> after.applied[|before.applied|].predicateValueCount > 0;
  }

  lemma ReplacementRestricts(env: Env, spec: JoinSpec, local: Plan, remote: Plan, localIsLeft: bool,
                             localCol: string, remoteCol: string, n: nat)
    requires BroadcastVerdict(env, spec, local, remote, localIsLeft, localCol, remoteCol, n).Replace?
    ensures var (left, right) := Sides(local, remote, localIsLeft);
            AddsOne(Node(Join(spec), [left, right]),
                    BroadcastVerdict(env, spec, local, remote, localIsLeft, localCol, remoteCol, n))
  {
    var v := BroadcastVerdict(env, spec, local, remote, localIsLeft, localCol, remoteCol, n);
    if v.application.predicateValueCount > 0 {
      var m := Materialize(env, local, localCol, n);
      var keys := DistinctKeys(Flatten(m.batches), SchemaOf(local)[IndexOf(SchemaOf(local), localCol).value].ty).value;
      BroadcastedAddsOne(spec, local, remote, localIsLeft, remoteCol, keys);
    }
  }

  lemma BroadcastedAddsOne(spec: JoinSpec, local: Plan, remote: Plan, localIsLeft: bool, column: string,
                           keys: seq<Scalar>)
    ensures var (left, right) := Sides(local, remote, localIsLeft);
            var q, r := Node(Join(spec), [left, right]), Broadcasted(spec, local, remote, localIsLeft, column, keys);
            Unrestricted(r) == Unrestricted(q) && Lists(r) == Lists(q) + multiset{|keys|}
  {
    var restricted := Restrict(remote, column, keys);
    OneMore(remote, []);
    assert [remote] + [] == [remote];
    assert Lists(restricted) == Lists(remote) + multiset{|keys|};
    var (left, right) := Sides(local, remote, localIsLeft);
    var (left1, right1) := Sides(local, restricted, localIsLeft);
    JoinLists(spec, left, right);
    JoinLists(spec, left1, right1);
  }

  lemma JoinLists(spec: JoinSpec, left: Plan, right: Plan)
    ensures var q := Node(Join(spec), [left, right]);
            && Lists(q) == Lists(left) + Lists(right)
            && Unrestricted(q) == Node(Join(spec), [Unrestricted(left), Unrestricted(right)])
  {
    OneMore(left, [right]);
    OneMore(right, []);
    assert [left] + [right] == [left, right] && [right] + [] == [right];
    assert [Unrestricted(left)] + [Unrestricted(right)] == [Unrestricted(left), Unrestricted(right)];
  }

  /** A join is inspected after its sides, the left one first, and over what has become of them. */
  lemma JoinsAreDecidedLast(env: Env, p: Plan, log: Log)
    requires IsJoin(p) && Rewrite(env, p, log).0.Ok?
    ensures var (left, log1) := Rewrite(env, p.inputs[0], log);
            var (right, log2) := Rewrite(env, p.inputs[1], log1);
            && left.Ok? && right.Ok?
            && Rewrite(env, p, log) == InspectJoin(env, Node(p.op, [left.value, right.value]), log2)
  {
    TwoSides(env, p.inputs[0], p.inputs[1], log);
    assert p.inputs == [p.inputs[0], p.inputs[1]];
    InspectedLast(env, p, log);
  }

  lemma InspectedLast(env: Env, p: Plan, log: Log)
    requires IsJoin(p)
    ensures var (kids, log1) := RewriteAll(env, p.inputs, log);
            && (kids.Err? ==> Rewrite(env, p, log).0.Err?)
            && (kids.Ok? && |kids.value| == 2 ==>
                  Rewrite(env, p, log) == InspectJoin(env, Node(p.op, kids.value), log1))
  {}

  lemma TwoSides(env: Env, a: Plan, b: Plan, log: Log)
    ensures var (left, log1) := Rewrite(env, a, log);
            var (right, log2) := Rewrite(env, b, log1);
            var (all, log3) := RewriteAll(env, [a, b], log);
            && (all.Ok? <==> left.Ok? && right.Ok?)
            && (all.Ok? ==> all.value == [left.value, right.value] && log3 == log2)
  {
    var log1 := Rewrite(env, a, log).1;
    OneSide(env, a, [b], log);
    OneSide(env, b, [], log1);
    assert [a, b] == [a] + [b] && [b] == [b] + [];
  }

  lemma OneSide(env: Env, p: Plan, ps: seq<Plan>, log: Log)
    ensures var (first, log1) := Rewrite(env, p, log);
            RewriteAll(env, [p] + ps, log) ==
            if first.Err? then (Err(first.error), log1) else Prepend([first.value], RewriteAll(env, ps, log1))
  {
    assert ([p] + ps)[1..] == ps;
  }
}
