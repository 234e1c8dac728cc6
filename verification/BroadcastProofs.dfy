/** The broadcast rewrite preserves meaning, exactly when the inspected keys allow it. */
module BroadcastProofs {
  import opened Common
  import opened LogicalPlans
  import opened Broadcast

  /** `batches` hold some `k` (or all, if fewer) of the distinct keys, each once, in any order. */
  ghost predicate IsSample(batches: seq<seq<Scalar>>, keys: seq<Scalar>, k: nat) {
    && NoDup(Flatten(batches))
    && Elements(Flatten(batches)) <= Elements(keys)
    && |Flatten(batches)| == Min(|Elements(keys)|, k)
  }

  /** Executing `SELECT DISTINCT key ... LIMIT k` returns such a sample, whatever the batches. */
  ghost predicate ValidEnv(env: Env) {
    && env.config.maxLocalRows < USIZE_MAX
    && forall n: nat, keys: seq<Scalar>, k: nat ::
         IsSample(env.runtime.arrange(n, keys, k), keys, k)
  }

  /** The value of a key expression when the column under its casts and aliases holds `v`. */
  function ThroughCasts(db: Database, e: Expr, v: Scalar): Scalar {
    match e
    case Cast(x, ty) => db.castTo(ty, ThroughCasts(db, x, v))
    case Alias(x, _) => ThroughCasts(db, x, v)
    case _ => v
  }

  predicate Eligible(spec: JoinSpec) {
    && spec.joinType.Inner? && |spec.on| == 1
    && ColumnOf(spec.on[0].0).Some? && ColumnOf(spec.on[0].1).Some?
  }

  /** The join equates a left key column holding `a` with a right key column holding `b`. */
  predicate Equates(db: Database, spec: JoinSpec, a: Scalar, b: Scalar)
    requires |spec.on| == 1
  {
    KeyEq(spec.nullEquality, ThroughCasts(db, spec.on[0].0, a), ThroughCasts(db, spec.on[0].1, b))
  }

  function LeftKey(spec: JoinSpec): string
    requires Eligible(spec)
  {
    ColumnOf(spec.on[0].0).value
  }

  function RightKey(spec: JoinSpec): string
    requires Eligible(spec)
  {
    ColumnOf(spec.on[0].1).value
  }

  /** Only values of their column's own, supported type ever reach a key list. */
  predicate Listable(schema: Schema, column: string, v: Scalar) {
    match IndexOf(schema, column)
    case None => false
    case Some(i) => v.ty == schema[i].ty && IsSupportedKeyType(v.ty)
  }

  /**
   * Two rows agree unless the join equates their keys, after its casts and under its NULL rule, while
   * before any cast one is NULL or they differ.
   */
  predicate RowsAgree(db: Database, spec: JoinSpec, ls: Schema, rs: Schema, localIsLeft: bool, l: Row, r: Row)
    requires Eligible(spec)
  {
    var a, b := ColumnValue(ls, l, LeftKey(spec)), ColumnValue(rs, r, RightKey(spec));
    Equates(db, spec, a, b) &&
    (if localIsLeft then Listable(ls, LeftKey(spec), a) else Listable(rs, RightKey(spec), b))
    ==> SqlEq(a, b)
  }

  /** All rows of the two sides of a join agree. */
  ghost predicate KeysAgree(db: Database, spec: JoinSpec, left: Plan, right: Plan, localIsLeft: bool)
    requires Eligible(spec)
  {
    forall l, r :: l in Eval(db, left) && r in Eval(db, right) ==>
      RowsAgree(db, spec, SchemaOf(left), SchemaOf(right), localIsLeft, l, r)
  }

  /** Stated for both sides, so that it does not matter which side is taken for the remote one. */
  ghost predicate SafeJoin(db: Database, spec: JoinSpec, left: Plan, right: Plan) {
    Eligible(spec) ==> KeysAgree(db, spec, left, right, true) && KeysAgree(db, spec, left, right, false)
  }

  ghost predicate SafePlan(db: Database, p: Plan) {
    && (IsJoin(p) ==> SafeJoin(db, p.op.spec, p.inputs[0], p.inputs[1]))
    && forall i :: 0 <= i < |p.inputs| ==> SafePlan(db, p.inputs[i])
  }

  lemma {:induction false} KeyThroughCasts(db: Database, schema: Schema, row: Row, e: Expr)
    requires ColumnOf(e).Some?
    ensures EvalExpr(db, schema, row, e) == ThroughCasts(db, e, ColumnValue(schema, row, ColumnOf(e).value))
  {
    match e
    case Cast(x, _) => KeyThroughCasts(db, schema, row, x);
    case Alias(x, _) => KeyThroughCasts(db, schema, row, x);
    case _ =>
  }

  // ---------- filtering one side of a nested loop ----------

  lemma {:induction false} PairsWithKept(m: (Row, Row) -> bool, f: Row -> bool, l: Row, rights: Rel)
    requires forall r :: r in rights && m(l, r) ==> f(r)
    ensures PairsWith(m, l, Keep(f, rights)) == PairsWith(m, l, rights)
  {
    if rights != [] {
      PairsWithKept(m, f, l, rights[1..]);
      if f(rights[0]) {
        assert Keep(f, rights)[1..] == Keep(f, rights[1..]);
      } else {
        assert Keep(f, rights) == Keep(f, rights[1..]);
      }
    }
  }

  lemma {:induction false} FilterRight(m: (Row, Row) -> bool, f: Row -> bool, lefts: Rel, rights: Rel)
    requires forall l, r :: l in lefts && r in rights && m(l, r) ==> f(r)
    ensures NestedLoop(m, lefts, Keep(f, rights)) == NestedLoop(m, lefts, rights)
  {
    if lefts != [] {
      PairsWithKept(m, f, lefts[0], rights);
      FilterRight(m, f, lefts[1..], rights);
    }
  }

  lemma {:induction false} PairsWithNone(m: (Row, Row) -> bool, l: Row, rights: Rel)
    requires forall r :: r in rights ==> !m(l, r)
    ensures PairsWith(m, l, rights) == []
  {
    if rights != [] {
      PairsWithNone(m, l, rights[1..]);
    }
  }

  lemma {:induction false} FilterLeft(m: (Row, Row) -> bool, f: Row -> bool, lefts: Rel, rights: Rel)
    requires forall l, r :: l in lefts && r in rights && m(l, r) ==> f(l)
    ensures NestedLoop(m, Keep(f, lefts), rights) == NestedLoop(m, lefts, rights)
  {
    if lefts != [] {
      FilterLeft(m, f, lefts[1..], rights);
      if f(lefts[0]) {
        assert Keep(f, lefts)[1..] == Keep(f, lefts[1..]);
      } else {
        assert Keep(f, lefts) == Keep(f, lefts[1..]);
        PairsWithNone(m, lefts[0], rights);
      }
    }
  }

  lemma {:induction false} NoMatches(m: (Row, Row) -> bool, lefts: Rel, rights: Rel)
    requires forall l, r :: l in lefts && r in rights ==> !m(l, r)
    ensures NestedLoop(m, lefts, rights) == []
  {
    if lefts != [] {
      PairsWithNone(m, lefts[0], rights);
      NoMatches(m, lefts[1..], rights);
    }
  }

  // ---------- the materialized keys ----------

  lemma {:induction false} TotalRowsIsLength(batches: seq<seq<Scalar>>)
    requires |Flatten(batches)| <= USIZE_MAX
    ensures TotalRows(batches) == |Flatten(batches)|
  {
    if batches != [] {
      FlattenNext(batches, |batches| - 1);
      assert batches[..|batches|] == batches;
      TotalRowsIsLength(batches[..|batches| - 1]);
    }
  }

  /** One row past the cap tells overflow exactly, and below it every distinct key is present. */
  lemma CapDetectsOverflow(env: Env, local: Plan, column: string, n: nat)
    requires ValidEnv(env)
    requires IndexOf(SchemaOf(local), column).Some? && env.runtime.fate(n).Completes?
    ensures var keys := Elements(KeysOf(env.db, local, column));
            var m := Materialize(env, local, column, n);
            var sample := env.runtime.arrange(n, KeysOf(env.db, local, column), env.config.maxLocalRows + 1);
            && (m.ExceededCap? <==>
                  |keys| > env.config.maxLocalRows || TotalBytes(env.runtime, n, sample) > env.config.maxLocalBytes)
            && (m.ExceededCap? || m.Values?)
            && (m.Values? ==>
                  && m.rows == |keys| <= env.config.maxLocalRows
                  && m.bytes <= env.config.maxLocalBytes
                  && Elements(Flatten(m.batches)) == keys
                  && |Flatten(m.batches)| == |keys|)
  {
    var keys, cap := KeysOf(env.db, local, column), env.config.maxLocalRows + 1;
    var batches := env.runtime.arrange(n, keys, cap);
    assert IsSample(batches, keys, cap);
    TotalRowsIsLength(batches);
    NoDupCardinality(Flatten(batches));
    if |Elements(keys)| <= env.config.maxLocalRows {
      SubsetSameSize(Elements(Flatten(batches)), Elements(keys));
    }
  }

  lemma EvalUnary(db: Database, op: Op, input: Plan)
    ensures Eval(db, Node(op, [input])) == Apply(db, op, [SchemaOf(input)], [Eval(db, input)])
  {
    var p := Node(op, [input]);
    assert Schemas(p.inputs) == [SchemaOf(input)];
    assert seq(|p.inputs|, i requires 0 <= i < |p.inputs| => Eval(db, p.inputs[i])) == [Eval(db, input)];
  }

  lemma EvalJoin(db: Database, spec: JoinSpec, left: Plan, right: Plan)
    requires spec.joinType.Inner?
    ensures Eval(db, Node(Join(spec), [left, right])) ==
            NestedLoop(Matcher(db, spec, SchemaOf(left), SchemaOf(right)), Eval(db, left), Eval(db, right))
  {
    var p := Node(Join(spec), [left, right]);
    assert Schemas(p.inputs) == [SchemaOf(left), SchemaOf(right)];
    assert seq(|p.inputs|, i requires 0 <= i < |p.inputs| => Eval(db, p.inputs[i]))
        == [Eval(db, left), Eval(db, right)];
  }

  lemma KeyOfRowIsListed(db: Database, local: Plan, column: string, row: Row)
    requires row in Eval(db, local)
    ensures ColumnValue(SchemaOf(local), row, column) in Elements(KeysOf(db, local, column))
  {
    var project := Node(Projection([Column(column)], [Field(column, NullType)]), [local]);
    EvalUnary(db, Distinct, project);
    EvalUnary(db, project.op, local);
    var rows, projected := Eval(db, local), Eval(db, project);
    var i :| 0 <= i < |rows| && rows[i] == row;
    assert projected[i] == [ColumnValue(SchemaOf(local), row, column)];
    FirstOccurrencesElements(projected);
    assert projected[i] in Elements(projected);
    var distinct := FirstOccurrences(projected);
    var j :| 0 <= j < |distinct| && distinct[j] == projected[i];
    assert KeysOf(db, local, column)[j] == ColumnValue(SchemaOf(local), row, column);
  }

  lemma {:induction false} NonNullElements(s: seq<Scalar>)
    ensures forall v :: v in NonNull(s) <==> v in s && !v.Null?
  {
    if s != [] {
      NonNullElements(s[..|s| - 1]);
      assert s == s[..|s| - 1] + [s[|s| - 1]];
    }
  }

  lemma {:induction false} NonNullShorter(s: seq<Scalar>)
    ensures |NonNull(s)| <= |s|
  {
    if s != [] {
      NonNullShorter(s[..|s| - 1]);
    }
  }

  lemma DistinctKeysElements(flat: seq<Scalar>, ty: DataType)
    requires DistinctKeys(flat, ty).Some?
    ensures forall v :: v in DistinctKeys(flat, ty).value <==> v in Elements(flat) && !v.Null?
    ensures |DistinctKeys(flat, ty).value| <= |Elements(flat)|
  {
    var fo := FirstOccurrences(flat);
    FirstOccurrencesElements(flat);
    NonNullElements(fo);
    forall v ensures v in fo <==> v in Elements(flat) {
      assert v in fo <==> v in Elements(fo);
    }
    NoDupCardinality(fo);
    NonNullShorter(fo);
  }

  // ---------- one join ----------

  ghost predicate Meaning(db: Database, p: Plan, q: Plan) {
    Eval(db, p) == Eval(db, q) && SchemaOf(p) == SchemaOf(q)
  }

  lemma MatchedColumnsAreEquated(db: Database, spec: JoinSpec, ls: Schema, rs: Schema, l: Row, r: Row)
    requires Eligible(spec) && Matches(db, spec, ls, rs, l, r)
    ensures Equates(db, spec, ColumnValue(ls, l, ColumnOf(spec.on[0].0).value),
                    ColumnValue(rs, r, ColumnOf(spec.on[0].1).value))
  {
    KeyThroughCasts(db, ls, l, spec.on[0].0);
    KeyThroughCasts(db, rs, r, spec.on[0].1);
    assert KeyEq(spec.nullEquality, EvalExpr(db, ls, l, spec.on[0].0), EvalExpr(db, rs, r, spec.on[0].1));
  }

  lemma BroadcastPreserves(env: Env, spec: JoinSpec, local: Plan, remote: Plan, localIsLeft: bool, n: nat)
    requires ValidEnv(env) && Eligible(spec)
    requires KeysAgree(env.db, spec, if localIsLeft then local else remote, if localIsLeft then remote else local,
                       localIsLeft)
    ensures var leftCol, rightCol := LeftKey(spec), RightKey(spec);
            var v := BroadcastVerdict(env, spec, local, remote, localIsLeft,
                                      if localIsLeft then leftCol else rightCol,
                                      if localIsLeft then rightCol else leftCol, n);
            v.Replace? ==>
              Meaning(env.db, v.plan, Node(Join(spec), if localIsLeft then [local, remote] else [remote, local]))
  {
    var db := env.db;
    var leftCol, rightCol := LeftKey(spec), RightKey(spec);
    var localCol, remoteCol := if localIsLeft then leftCol else rightCol, if localIsLeft then rightCol else leftCol;
    var left, right := if localIsLeft then local else remote, if localIsLeft then remote else local;
    var v := BroadcastVerdict(env, spec, local, remote, localIsLeft, localCol, remoteCol, n);
    if v.Replace? {
      var flat := Flatten(Materialize(env, local, localCol, n).batches);
      var matcher := Matcher(db, spec, SchemaOf(left), SchemaOf(right));
      var lefts, rights := Eval(db, left), Eval(db, right);
      BroadcastKeys(env, spec, local, remote, localIsLeft, localCol, remoteCol, n);
      EvalJoin(db, spec, left, right);
      forall l, r | l in lefts && r in rights && matcher(l, r)
        ensures var lv, rv := ColumnValue(SchemaOf(left), l, leftCol), ColumnValue(SchemaOf(right), r, rightCol);
                && SqlEq(lv, rv)
                && (if localIsLeft then lv else rv) in Elements(flat)
      {
        CapDetectsOverflow(env, local, localCol, n);
        KeyOfRowIsListed(db, local, localCol, if localIsLeft then l else r);
        MatchedColumnsAreEquated(db, spec, SchemaOf(left), SchemaOf(right), l, r);
        assert RowsAgree(db, spec, SchemaOf(left), SchemaOf(right), localIsLeft, l, r);
      }
      if v.plan == EmptyPlan(spec) {
        NoMatches(matcher, lefts, rights);
      } else {
        var keys := DistinctKeys(flat, SchemaOf(local)[IndexOf(SchemaOf(local), localCol).value].ty).value;
        if localIsLeft {
          RestrictRight(db, spec, left, right, remoteCol, keys);
        } else {
          RestrictLeft(db, spec, left, right, remoteCol, keys);
        }
      }
    }
  }

  /**
   * A replacement is made over keys of one supported type: the empty plan when all of them are NULL,
   * otherwise the join restricted to exactly the non-null ones.
   */
  lemma BroadcastKeys(env: Env, spec: JoinSpec, local: Plan, remote: Plan, localIsLeft: bool,
                      localCol: string, remoteCol: string, n: nat)
    requires ValidEnv(env)
    requires BroadcastVerdict(env, spec, local, remote, localIsLeft, localCol, remoteCol, n).Replace?
    ensures var v := BroadcastVerdict(env, spec, local, remote, localIsLeft, localCol, remoteCol, n);
            var m := Materialize(env, local, localCol, n);
            && m.Values?
            && (forall k :: k in Elements(Flatten(m.batches)) ==> Listable(SchemaOf(local), localCol, k))
            && (v.plan == EmptyPlan(spec) ==> forall k :: k in Elements(Flatten(m.batches)) ==> k.Null?)
            && (v.plan != EmptyPlan(spec) ==>
                  var ty := SchemaOf(local)[IndexOf(SchemaOf(local), localCol).value].ty;
                  && DistinctKeys(Flatten(m.batches), ty).Some?
                  && var keys := DistinctKeys(Flatten(m.batches), ty).value;
                  && v.plan == Broadcasted(spec, local, remote, localIsLeft, remoteCol, keys)
                  && (forall k :: k in Elements(Flatten(m.batches)) && !k.Null? ==> k in keys)
                  && |keys| <= m.rows)
  {
    CapDetectsOverflow(env, local, localCol, n);
    var m := Materialize(env, local, localCol, n);
    if m.rows == 0 {
      assert Flatten(m.batches) == [];
    } else {
      DistinctKeysElements(Flatten(m.batches), SchemaOf(local)[IndexOf(SchemaOf(local), localCol).value].ty);
    }
  }

  ghost predicate Listed(v: Scalar, keys: seq<Scalar>) { exists k :: k in keys && SqlEq(v, k) }

  /** Restricting the remote right side keeps the join when no matching row loses its key. */
  lemma RestrictRight(db: Database, spec: JoinSpec, left: Plan, right: Plan, column: string, keys: seq<Scalar>)
    requires spec.joinType.Inner?
    requires var m := Matcher(db, spec, SchemaOf(left), SchemaOf(right));
             forall l, r :: (l in Eval(db, left) && r in Eval(db, right) && m(l, r)) ==>
               Listed(ColumnValue(SchemaOf(right), r, column), keys)
    ensures Meaning(db, Broadcasted(spec, left, right, true, column, keys), Node(Join(spec), [left, right]))
  {
    var restricted := Restrict(right, column, keys);
    var m := Matcher(db, spec, SchemaOf(left), SchemaOf(right));
    var f := Satisfies(db, SchemaOf(right), restricted.op.condition);
    EvalUnary(db, restricted.op, right);
    EvalJoin(db, spec, left, right);
    EvalJoin(db, spec, left, restricted);
    forall l, r | l in Eval(db, left) && r in Eval(db, right) && m(l, r) ensures f(r) {
      ListedKeyPasses(db, SchemaOf(right), r, column, keys);
    }
    FilterRight(m, f, Eval(db, left), Eval(db, right));
  }

  lemma RestrictLeft(db: Database, spec: JoinSpec, left: Plan, right: Plan, column: string, keys: seq<Scalar>)
    requires spec.joinType.Inner?
    requires var m := Matcher(db, spec, SchemaOf(left), SchemaOf(right));
             forall l, r :: (l in Eval(db, left) && r in Eval(db, right) && m(l, r)) ==>
               Listed(ColumnValue(SchemaOf(left), l, column), keys)
    ensures Meaning(db, Broadcasted(spec, right, left, false, column, keys), Node(Join(spec), [left, right]))
  {
    var restricted := Restrict(left, column, keys);
    var m := Matcher(db, spec, SchemaOf(left), SchemaOf(right));
    var f := Satisfies(db, SchemaOf(left), restricted.op.condition);
    EvalUnary(db, restricted.op, left);
    EvalJoin(db, spec, left, right);
    EvalJoin(db, spec, restricted, right);
    forall l, r | l in Eval(db, left) && r in Eval(db, right) && m(l, r) ensures f(l) {
      ListedKeyPasses(db, SchemaOf(left), l, column, keys);
    }
    FilterLeft(m, f, Eval(db, left), Eval(db, right));
  }

  lemma ListedKeyPasses(db: Database, schema: Schema, row: Row, column: string, keys: seq<Scalar>)
    requires Listed(ColumnValue(schema, row, column), keys)
    ensures IsTrue(EvalExpr(db, schema, row, InList(Column(column), keys, false)))
  {
    var k :| k in keys && SqlEq(ColumnValue(schema, row, column), k);
    var i :| 0 <= i < |keys| && keys[i] == k;
    assert SqlEq(ColumnValue(schema, row, column), keys[i]);
  }

  lemma JoinPreserved(env: Env, spec: JoinSpec, left: Plan, right: Plan, n: nat)
    requires ValidEnv(env) && SafeJoin(env.db, spec, left, right)
    ensures var v := JoinVerdict(env, spec, left, right, n);
            v.Replace? ==> Meaning(env.db, v.plan, Node(Join(spec), [left, right]))
  {
    if Eligible(spec) {
      BroadcastPreserves(env, spec, left, right, true, n);
      BroadcastPreserves(env, spec, right, left, false, n);
    }
  }

  /** A rewritten plan, if there is one, means what the plan meant. */
  ghost predicate Kept(db: Database, r: Result<Plan, RewriteError>, q: Plan) {
    r.Ok? ==> Meaning(db, r.value, q)
  }

  lemma OutcomeMeans(db: Database, q: Plan, v: Verdict)
    requires v.Replace? ==> Meaning(db, v.plan, q)
    ensures Kept(db, Outcome(q, v), q) && (Outcome(q, v).Ok? <==> !v.Abort?)
  {}

  lemma InspectionPreserves(env: Env, spec: JoinSpec, left: Plan, right: Plan, log: Log)
    requires ValidEnv(env) && SafeJoin(env.db, spec, left, right)
    ensures var q := Node(Join(spec), [left, right]); Kept(env.db, InspectJoin(env, q, log).0, q)
  {
    InspectionOutcome(env, spec, left, right, log);
    OutcomeKept(env, spec, left, right, log.considered + 1);
  }

  lemma InspectionOutcome(env: Env, spec: JoinSpec, left: Plan, right: Plan, log: Log)
    ensures var q := Node(Join(spec), [left, right]);
            InspectJoin(env, q, log).0 == Outcome(q, JoinVerdict(env, spec, left, right, log.considered + 1))
  {
    var q := Node(Join(spec), [left, right]);
    assert q.op.spec == spec && q.inputs[0] == left && q.inputs[1] == right;
  }

  lemma OutcomeKept(env: Env, spec: JoinSpec, left: Plan, right: Plan, n: nat)
    requires ValidEnv(env) && SafeJoin(env.db, spec, left, right)
    ensures var q := Node(Join(spec), [left, right]);
            Kept(env.db, Outcome(q, JoinVerdict(env, spec, left, right, n)), q)
  {
    JoinPreserved(env, spec, left, right, n);
  }

  // ---------- whole plans ----------

  /** Every plan, every database: the rewritten plan returns the same rows in the same order. */
  lemma {:induction false} RewritePreservesMeaning(env: Env, p: Plan, log: Log)
    requires ValidEnv(env) && SafePlan(env.db, p)
    ensures var r := Rewrite(env, p, log).0;
            r.Ok? ==> Meaning(env.db, r.value, p)
    decreases p, 1
  {
    var (kids, log1) := RewriteAll(env, p.inputs, log);
    RewriteAllPreservesMeaning(env, p.inputs, log);
    if kids.Ok? {
      var q := Node(p.op, kids.value);
      SameInputsSameMeaning(env.db, p, q);
      if IsJoin(q) {
        assert q.inputs == [q.inputs[0], q.inputs[1]];
        SafetyCarries(env.db, q.op.spec, p.inputs[0], p.inputs[1], q.inputs[0], q.inputs[1]);
        InspectionPreserves(env, q.op.spec, q.inputs[0], q.inputs[1], log1);
      }
    }
  }

  /** Sides of the same meaning are as safe. */
  lemma SafetyCarries(db: Database, spec: JoinSpec, left: Plan, right: Plan, left1: Plan, right1: Plan)
    requires SafeJoin(db, spec, left, right) && Meaning(db, left1, left) && Meaning(db, right1, right)
    ensures SafeJoin(db, spec, left1, right1)
  {}

  lemma {:induction false} RewriteAllPreservesMeaning(env: Env, ps: seq<Plan>, log: Log)
    requires ValidEnv(env) && forall i :: 0 <= i < |ps| ==> SafePlan(env.db, ps[i])
    ensures var r := RewriteAll(env, ps, log).0;
            r.Ok? ==> |r.value| == |ps| && forall i :: 0 <= i < |ps| ==> Meaning(env.db, r.value[i], ps[i])
    decreases ps, 0
  {
    if ps != [] {
      RewritePreservesMeaning(env, ps[0], log);
      RewriteAllPreservesMeaning(env, ps[1..], Rewrite(env, ps[0], log).1);
    }
  }

  lemma SameInputsSameMeaning(db: Database, p: Plan, q: Plan)
    requires p.op == q.op && |p.inputs| == |q.inputs|
    requires forall i :: 0 <= i < |p.inputs| ==> Meaning(db, q.inputs[i], p.inputs[i])
    ensures Meaning(db, q, p)
  {
    assert Schemas(p.inputs) == Schemas(q.inputs);
    assert seq(|p.inputs|, i requires 0 <= i < |p.inputs| => Eval(db, p.inputs[i]))
        == seq(|q.inputs|, i requires 0 <= i < |q.inputs| => Eval(db, q.inputs[i]));
  }

  // ---------- success and accounting ----------

  ghost predicate SidesResolve(spec: JoinSpec, left: Plan, right: Plan) {
    Eligible(spec) ==>
      IndexOf(SchemaOf(left), LeftKey(spec)).Some? && IndexOf(SchemaOf(right), RightKey(spec)).Some?
  }

  /** Both key columns of every join the pass may broadcast exist in their sides. */
  ghost predicate KeysResolve(p: Plan) {
    && (IsJoin(p) ==> SidesResolve(p.op.spec, p.inputs[0], p.inputs[1]))
    && forall i :: 0 <= i < |p.inputs| ==> KeysResolve(p.inputs[i])
  }

  /** A stalled, cancelled or oversized key extraction never fails the query. */
  lemma {:induction false} RewriteSucceeds(env: Env, p: Plan, log: Log)
    requires KeysResolve(p)
    ensures var r := Rewrite(env, p, log).0;
            r.Ok? && SchemaOf(r.value) == SchemaOf(p)
    decreases p, 1
  {
    RewriteAllSucceeds(env, p.inputs, log);
    var (kids, log1) := RewriteAll(env, p.inputs, log);
    var q := Node(p.op, kids.value);
    if IsJoin(q) {
      assert q.inputs == [q.inputs[0], q.inputs[1]];
      InspectionSucceeds(env, q.op.spec, q.inputs[0], q.inputs[1], log1);
    }
  }

  lemma InspectionSucceeds(env: Env, spec: JoinSpec, left: Plan, right: Plan, log: Log)
    requires SidesResolve(spec, left, right)
    ensures var r := InspectJoin(env, Node(Join(spec), [left, right]), log).0;
            r.Ok? && SchemaOf(r.value) == spec.schema
  {
    if Eligible(spec) {
      VerdictResolves(env, spec, left, right, true, LeftKey(spec), RightKey(spec), log.considered + 1);
      VerdictResolves(env, spec, right, left, false, RightKey(spec), LeftKey(spec), log.considered + 1);
    }
  }

  lemma VerdictResolves(
      env: Env, spec: JoinSpec, local: Plan, remote: Plan, localIsLeft: bool, localCol: string, remoteCol: string,
      n: nat)
    requires IndexOf(SchemaOf(remote), remoteCol).Some?
    ensures var v := BroadcastVerdict(env, spec, local, remote, localIsLeft, localCol, remoteCol, n);
            !v.Abort? && (v.Replace? ==> SchemaOf(v.plan) == spec.schema)
  {}

  lemma {:induction false} RewriteAllSucceeds(env: Env, ps: seq<Plan>, log: Log)
    requires forall i :: 0 <= i < |ps| ==> KeysResolve(ps[i])
    ensures var r := RewriteAll(env, ps, log).0;
            r.Ok? && |r.value| == |ps| && forall i :: 0 <= i < |ps| ==> SchemaOf(r.value[i]) == SchemaOf(ps[i])
    decreases ps, 0
  {
    if ps != [] {
      RewriteSucceeds(env, ps[0], log);
      RewriteAllSucceeds(env, ps[1..], Rewrite(env, ps[0], log).1);
    }
  }

  ghost predicate WithinCaps(app: Application, config: Config) {
    app.predicateValueCount <= app.localRows <= config.maxLocalRows && app.localBytes <= config.maxLocalBytes
  }

  /** `after` continues `before` with `joins` more inspected joins, each applied or skipped. */
  ghost predicate Accounts(config: Config, before: Log, after: Log, joins: nat) {
    && after.considered == before.considered + joins
    && before.applied <= after.applied && before.skipped <= after.skipped
    && |after.applied| + |after.skipped| == |before.applied| + |before.skipped| + joins
    && forall i :: |before.applied| <= i < |after.applied| ==> WithinCaps(after.applied[i], config)
  }

  lemma {:induction false} RewriteAccounts(env: Env, p: Plan, log: Log)
    requires ValidEnv(env)
    ensures var (r, after) := Rewrite(env, p, log);
            r.Ok? ==> Accounts(env.config, log, after, CountJoins(p))
    decreases p, 1
  {
    RewriteAllAccounts(env, p.inputs, log);
    var (kids, log1) := RewriteAll(env, p.inputs, log);
    if kids.Ok? && IsJoin(p) {
      InspectionAccounts(env, Node(p.op, kids.value), log1);
    }
  }

  lemma InspectionAccounts(env: Env, q: Plan, log: Log)
    requires ValidEnv(env) && IsJoin(q)
    ensures var (r, after) := InspectJoin(env, q, log);
            r.Ok? ==> Accounts(env.config, log, after, 1)
  {
    var v := JoinVerdict(env, q.op.spec, q.inputs[0], q.inputs[1], log.considered + 1);
    VerdictWithinCaps(env, q.op.spec, q.inputs[0], q.inputs[1], log.considered + 1, v);
    VerdictAccounts(env.config, q, log, v);
    InspectionIsVerdict(env, q, log, v);
  }

  lemma InspectionIsVerdict(env: Env, q: Plan, log: Log, v: Verdict)
    requires IsJoin(q) && v == JoinVerdict(env, q.op.spec, q.inputs[0], q.inputs[1], log.considered + 1)
    ensures InspectJoin(env, q, log) == (Outcome(q, v), Record(log, v))
  {}

  lemma VerdictAccounts(config: Config, q: Plan, log: Log, v: Verdict)
    requires v.Replace? ==> WithinCaps(v.application, config)
    ensures Outcome(q, v).Ok? ==> Accounts(config, log, Record(log, v), 1)
  {}

  lemma VerdictWithinCaps(env: Env, spec: JoinSpec, left: Plan, right: Plan, n: nat, v: Verdict)
    requires ValidEnv(env) && v == JoinVerdict(env, spec, left, right, n)
    ensures v.Replace? ==> WithinCaps(v.application, env.config)
  {
    if v.Replace? {
      if TouchesGuarded(env.runtime, right) {
        ApplicationWithinCaps(env, spec, left, right, true, LeftKey(spec), RightKey(spec), n);
      } else {
        ApplicationWithinCaps(env, spec, right, left, false, RightKey(spec), LeftKey(spec), n);
      }
    }
  }

  lemma ApplicationWithinCaps(env: Env, spec: JoinSpec, local: Plan, remote: Plan, localIsLeft: bool,
                              localCol: string, remoteCol: string, n: nat)
    requires ValidEnv(env)
    requires BroadcastVerdict(env, spec, local, remote, localIsLeft, localCol, remoteCol, n).Replace?
    ensures WithinCaps(
              BroadcastVerdict(env, spec, local, remote, localIsLeft, localCol, remoteCol, n).application, env.config)
  {
    CapDetectsOverflow(env, local, localCol, n);
    BroadcastKeys(env, spec, local, remote, localIsLeft, localCol, remoteCol, n);
  }

  lemma {:induction false} RewriteAllAccounts(env: Env, ps: seq<Plan>, log: Log)
    requires ValidEnv(env)
    ensures var (r, after) := RewriteAll(env, ps, log);
            r.Ok? ==> |r.value| == |ps| && Accounts(env.config, log, after, CountJoinsIn(ps))
    decreases ps, 0
  {
    if ps != [] {
      var (first, log1) := Rewrite(env, ps[0], log);
      RewriteAccounts(env, ps[0], log);
      RewriteAllAccounts(env, ps[1..], log1);
    }
  }

  /** The whole pass: it succeeds, keeps the meaning, and accounts for every join of the input plan. */
  lemma BroadcastPassCorrect(env: Env, p: Plan)
    requires ValidEnv(env) && SafePlan(env.db, p) && KeysResolve(p)
    ensures var (r, log) := RewritePass(env, p);
            && r.Ok? && Meaning(env.db, r.value, p)
            && (env.config.enabled ==>
                  && log.considered == CountJoins(p) == |log.applied| + |log.skipped|
                  && forall app :: app in log.applied ==> WithinCaps(app, env.config))
            && (!env.config.enabled ==> r.value == p && log == EMPTY_LOG)
  {
    if env.config.enabled {
      RewriteSucceeds(env, p, EMPTY_LOG);
      RewritePreservesMeaning(env, p, EMPTY_LOG);
      RewriteAccounts(env, p, EMPTY_LOG);
    }
  }
}
