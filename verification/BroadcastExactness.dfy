/** Exactly when a join of two tables may be broadcast, from either side, whatever the tables hold. */
module BroadcastExactness {
  import opened Common
  import opened LogicalPlans
  import opened Broadcast
  import opened BroadcastProofs
  import opened BroadcastTyping

  function TwoTables(db: Database, l: Rel, r: Rel): Database {
    db.(tables := name => if name == "l" then l else r)
  }

  function Scan(name: string, field: Field): Plan { Node(TableScan(name, [field]), []) }

  function LeftScan(spec: JoinSpec, ty: DataType): Plan
    requires Eligible(spec)
  {
    Scan("l", Field(LeftKey(spec), ty))
  }

  function RightScan(spec: JoinSpec, ty: DataType): Plan
    requires Eligible(spec)
  {
    Scan("r", Field(RightKey(spec), ty))
  }

  /** Tables `l` and `r` joined, each with only its key column. */
  function TwoTableJoin(spec: JoinSpec, lty: DataType, rty: DataType): Plan
    requires Eligible(spec)
  {
    Node(Join(spec), [LeftScan(spec, lty), RightScan(spec, rty)])
  }

  /** One side is local, and nothing in the surroundings keeps a small join from being broadcast. */
  ghost predicate Calm(env: Env, localIsLeft: bool) {
    && ValidEnv(env) && env.config.enabled && env.config.maxLocalRows >= 1
    && (forall t :: env.runtime.guarded(t) <==> t == if localIsLeft then "r" else "l")
    && (forall n :: env.runtime.fate(n).Completes?)
    && (forall n, batch :: env.runtime.batchBytes(n, batch) == 0)
  }

  ghost predicate PassKeeps(env: Env, p: Plan) {
    var r := RewritePass(env, p).0;
    r.Ok? && Meaning(env.db, r.value, p)
  }

  ghost predicate PreservedOn(env: Env, spec: JoinSpec, lty: DataType, rty: DataType, l: Rel, r: Rel)
    requires Eligible(spec)
  {
    PassKeeps(env.(db := TwoTables(env.db, l, r)), TwoTableJoin(spec, lty, rty))
  }

  /** The table's one column holds values of its type. */
  ghost predicate Holds(rows: Rel, ty: DataType) {
    forall row: Row :: row in rows ==> |row| == 1 && row[0].ty == ty
  }

  /**
   * For key columns of two given types, the rewrite keeps the rows of a single-key inner join for every
   * content of its two tables if and only if those types agree under the join's casts and NULL rule.
   */
  lemma BroadcastIsExact(env: Env, spec: JoinSpec, lty: DataType, rty: DataType, localIsLeft: bool)
    requires Calm(env, localIsLeft) && Eligible(spec) && spec.filter.None?
    ensures (forall l, r :: Holds(l, lty) && Holds(r, rty) ==> PreservedOn(env, spec, lty, rty, l, r))
            <==> KeyTypesAgree(env.db, spec, lty, rty, localIsLeft)
  {
    if KeyTypesAgree(env.db, spec, lty, rty, localIsLeft) {
      forall l, r | Holds(l, lty) && Holds(r, rty) ensures PreservedOn(env, spec, lty, rty, l, r) {
        AgreeingTypesPreserve(env, spec, lty, rty, localIsLeft, l, r);
      }
    } else {
      var a: Scalar, b: Scalar :| a.ty == lty && b.ty == rty && Equates(env.db, spec, a, b) && !SqlEq(a, b);
      DisagreeingKeysLoseRows(env, spec, localIsLeft, a, b);
      assert Holds([[a]], lty) && Holds([[b]], rty) && !PreservedOn(env, spec, lty, rty, [[a]], [[b]]);
    }
  }

  // ---------- the pass over two tables ----------

  lemma {:induction false} CastsIgnoreTables(db: Database, l: Rel, r: Rel, e: Expr, v: Scalar)
    ensures ThroughCasts(TwoTables(db, l, r), e, v) == ThroughCasts(db, e, v)
  {
    match e
    case Cast(x, _) => CastsIgnoreTables(db, l, r, x, v);
    case Alias(x, _) => CastsIgnoreTables(db, l, r, x, v);
    case _ =>
  }

  lemma ScanIsUntouched(env: Env, p: Plan, log: Log)
    requires p.inputs == [] && !p.op.Join?
    ensures Rewrite(env, p, log) == (Ok(p), log)
  {
    assert RewriteAll(env, [], log) == (Ok([]), log);
  }

  /** The pass over the two-table join is the decision at its one join. */
  lemma TwoTablePass(env: Env, spec: JoinSpec, lty: DataType, rty: DataType)
    requires env.config.enabled && Eligible(spec)
    ensures RewritePass(env, TwoTableJoin(spec, lty, rty)) == InspectJoin(env, TwoTableJoin(spec, lty, rty), EMPTY_LOG)
  {
    var p, left, right := TwoTableJoin(spec, lty, rty), LeftScan(spec, lty), RightScan(spec, rty);
    ScanIsUntouched(env, left, EMPTY_LOG);
    ScanIsUntouched(env, right, EMPTY_LOG);
    assert p.inputs[1..] == [right];
    assert RewriteAll(env, [], EMPTY_LOG) == (Ok([]), EMPTY_LOG);
    assert [right] + [] == [right];
    assert RewriteAll(env, [right], EMPTY_LOG) == (Ok([right]), EMPTY_LOG);
    assert RewriteAll(env, p.inputs, EMPTY_LOG) == (Ok([left] + [right]), EMPTY_LOG);
    assert [left] + [right] == p.inputs;
  }

  /** The verdict with the local side on the left or on the right. */
  function SideVerdict(env: Env, spec: JoinSpec, left: Plan, right: Plan, localIsLeft: bool): Verdict
    requires Eligible(spec)
  {
    if localIsLeft then BroadcastVerdict(env, spec, left, right, true, LeftKey(spec), RightKey(spec), 1)
    else BroadcastVerdict(env, spec, right, left, false, RightKey(spec), LeftKey(spec), 1)
  }

  lemma OneSideIsLocal(env: Env, spec: JoinSpec, left: Plan, right: Plan, localIsLeft: bool)
    requires Eligible(spec)
    requires TouchesGuarded(env.runtime, left) == !localIsLeft && TouchesGuarded(env.runtime, right) == localIsLeft
    ensures var p := Node(Join(spec), [left, right]);
            InspectJoin(env, p, EMPTY_LOG).0 == Outcome(p, SideVerdict(env, spec, left, right, localIsLeft))
  {}

  // ---------- agreeing types ----------

  lemma AgreeingTypesPreserve(
      env: Env, spec: JoinSpec, lty: DataType, rty: DataType, localIsLeft: bool, l: Rel, r: Rel)
    requires Calm(env, localIsLeft) && Eligible(spec) && KeyTypesAgree(env.db, spec, lty, rty, localIsLeft)
    requires Holds(l, lty) && Holds(r, rty)
    ensures PreservedOn(env, spec, lty, rty, l, r)
  {
    var e := env.(db := TwoTables(env.db, l, r));
    var left, right := LeftScan(spec, lty), RightScan(spec, rty);
    TablesAgree(env.db, spec, lty, rty, localIsLeft, l, r);
    SideKept(e, spec, left, right, localIsLeft);
    OneSideIsLocal(e, spec, left, right, localIsLeft);
    TwoTablePass(e, spec, lty, rty);
  }

  lemma TablesAgree(db: Database, spec: JoinSpec, lty: DataType, rty: DataType, localIsLeft: bool, l: Rel, r: Rel)
    requires Eligible(spec) && KeyTypesAgree(db, spec, lty, rty, localIsLeft) && Holds(l, lty) && Holds(r, rty)
    ensures KeysAgree(TwoTables(db, l, r), spec, LeftScan(spec, lty), RightScan(spec, rty), localIsLeft)
  {
    var d := TwoTables(db, l, r);
    var left, right := LeftScan(spec, lty), RightScan(spec, rty);
    EvalScan(d, "l", Field(LeftKey(spec), lty));
    EvalScan(d, "r", Field(RightKey(spec), rty));
    forall a: Scalar, b: Scalar ensures Equates(d, spec, a, b) == Equates(db, spec, a, b) {
      CastsIgnoreTables(db, l, r, spec.on[0].0, a);
      CastsIgnoreTables(db, l, r, spec.on[0].1, b);
    }
    TypedSidesAgree(d, spec, left, right, localIsLeft);
  }

  lemma SideKept(env: Env, spec: JoinSpec, left: Plan, right: Plan, localIsLeft: bool)
    requires ValidEnv(env) && Eligible(spec) && KeysAgree(env.db, spec, left, right, localIsLeft)
    requires SidesResolve(spec, left, right)
    ensures var p := Node(Join(spec), [left, right]);
            var r := Outcome(p, SideVerdict(env, spec, left, right, localIsLeft));
            r.Ok? && Kept(env.db, r, p)
  {
    var p := Node(Join(spec), [left, right]);
    if localIsLeft {
      VerdictResolves(env, spec, left, right, true, LeftKey(spec), RightKey(spec), 1);
      BroadcastPreserves(env, spec, left, right, true, 1);
    } else {
      VerdictResolves(env, spec, right, left, false, RightKey(spec), LeftKey(spec), 1);
      BroadcastPreserves(env, spec, right, left, false, 1);
    }
    OutcomeMeans(env.db, p, SideVerdict(env, spec, left, right, localIsLeft));
  }

  // ---------- disagreeing keys ----------

  lemma EvalScan(db: Database, name: string, field: Field)
    ensures Eval(db, Scan(name, field)) == db.tables(name)
  {}

  /** One row on each side suffices: the join pairs them, the rewritten join does not. */
  lemma DisagreeingKeysLoseRows(env: Env, spec: JoinSpec, localIsLeft: bool, a: Scalar, b: Scalar)
    requires Calm(env, localIsLeft) && Eligible(spec) && spec.filter.None?
    requires Equates(env.db, spec, a, b) && !SqlEq(a, b)
    requires IsSupportedKeyType(if localIsLeft then a.ty else b.ty)
    ensures !PreservedOn(env, spec, a.ty, b.ty, [[a]], [[b]])
  {
    var e := env.(db := TwoTables(env.db, [[a]], [[b]]));
    CastsIgnoreTables(env.db, [[a]], [[b]], spec.on[0].0, a);
    CastsIgnoreTables(env.db, [[a]], [[b]], spec.on[0].1, b);
    OriginalPairsThem(e.db, spec, a, b);
    BroadcastLosesThem(e, spec, localIsLeft, a, b);
    OneSideIsLocal(e, spec, LeftScan(spec, a.ty), RightScan(spec, b.ty), localIsLeft);
    TwoTablePass(e, spec, a.ty, b.ty);
  }

  lemma OriginalPairsThem(db: Database, spec: JoinSpec, a: Scalar, b: Scalar)
    requires Eligible(spec) && spec.filter.None? && Equates(db, spec, a, b)
    requires db.tables("l") == [[a]] && db.tables("r") == [[b]]
    ensures Eval(db, TwoTableJoin(spec, a.ty, b.ty)) != []
  {
    var left, right := LeftScan(spec, a.ty), RightScan(spec, b.ty);
    var m := Matcher(db, spec, SchemaOf(left), SchemaOf(right));
    var rowA, rowB := [a], [b];
    KeyThroughCasts(db, SchemaOf(left), rowA, spec.on[0].0);
    KeyThroughCasts(db, SchemaOf(right), rowB, spec.on[0].1);
    assert m(rowA, rowB);
    EvalScan(db, "l", Field(LeftKey(spec), a.ty));
    EvalScan(db, "r", Field(RightKey(spec), b.ty));
    EvalJoin(db, spec, left, right);
    assert PairsWith(m, rowA, [rowB]) == [rowA + rowB] + PairsWith(m, rowA, []);
    assert NestedLoop(m, [rowA], [rowB]) == PairsWith(m, rowA, [rowB]) + NestedLoop(m, [], [rowB]);
  }

  lemma BroadcastLosesThem(env: Env, spec: JoinSpec, localIsLeft: bool, a: Scalar, b: Scalar)
    requires Calm(env, localIsLeft) && Eligible(spec) && !SqlEq(a, b)
    requires IsSupportedKeyType(if localIsLeft then a.ty else b.ty)
    requires env.db.tables("l") == [[a]] && env.db.tables("r") == [[b]]
    ensures var left, right := LeftScan(spec, a.ty), RightScan(spec, b.ty);
            var v := SideVerdict(env, spec, left, right, localIsLeft);
            v.Replace? && Eval(env.db, v.plan) == []
  {
    var left, right := LeftScan(spec, a.ty), RightScan(spec, b.ty);
    if localIsLeft {
      SingleKeyVerdict(env, spec, "l", a, right, true, LeftKey(spec), RightKey(spec));
      if !a.Null? {
        EmptyRight(env.db, spec, left, right, a, b);
      }
    } else {
      SingleKeyVerdict(env, spec, "r", b, left, false, RightKey(spec), LeftKey(spec));
      if !b.Null? {
        EmptyLeft(env.db, spec, left, right, a, b);
      }
    }
  }

  lemma EmptyRight(db: Database, spec: JoinSpec, left: Plan, right: Plan, a: Scalar, b: Scalar)
    requires Eligible(spec) && !a.Null? && !SqlEq(a, b) && db.tables("r") == [[b]] && right == RightScan(spec, b.ty)
    ensures Eval(db, Broadcasted(spec, left, right, true, RightKey(spec), [a])) == []
  {
    UnlistedRowIsDropped(db, "r", RightKey(spec), a, b);
    var restricted := Restrict(right, RightKey(spec), [a]);
    EvalJoin(db, spec, left, restricted);
    NoMatches(Matcher(db, spec, SchemaOf(left), SchemaOf(restricted)), Eval(db, left), []);
  }

  lemma EmptyLeft(db: Database, spec: JoinSpec, left: Plan, right: Plan, a: Scalar, b: Scalar)
    requires Eligible(spec) && !b.Null? && !SqlEq(a, b) && db.tables("l") == [[a]] && left == LeftScan(spec, a.ty)
    ensures Eval(db, Broadcasted(spec, right, left, false, LeftKey(spec), [b])) == []
  {
    UnlistedRowIsDropped(db, "l", LeftKey(spec), b, a);
    EvalJoin(db, spec, Restrict(left, LeftKey(spec), [b]), right);
  }

  lemma UnlistedRowIsDropped(db: Database, table: string, column: string, listed: Scalar, v: Scalar)
    requires !listed.Null? && !SqlEq(v, listed) && db.tables(table) == [[v]]
    ensures Eval(db, Restrict(Scan(table, Field(column, v.ty)), column, [listed])) == []
  {
    var remote := Scan(table, Field(column, v.ty));
    var restricted := Restrict(remote, column, [listed]);
    var f := Satisfies(db, SchemaOf(remote), restricted.op.condition);
    var row := [v];
    EvalScan(db, table, Field(column, v.ty));
    EvalUnary(db, restricted.op, remote);
    assert ColumnValue(SchemaOf(remote), row, column) == v;
    assert InListValue(v, [listed], false) != Bool(true);
    assert EvalExpr(db, SchemaOf(remote), row, Column(column)) == v;
    assert EvalExpr(db, SchemaOf(remote), row, restricted.op.condition) == InListValue(v, [listed], false);
    assert !f(row);
    assert Keep(f, [row]) == Keep(f, []);
  }

  // ---------- the keys of a table of one row ----------

  lemma KeysOfOneRow(db: Database, name: string, column: string, v: Scalar)
    requires db.tables(name) == [[v]]
    ensures KeysOf(db, Scan(name, Field(column, v.ty)), column) == [v]
  {
    var local := Scan(name, Field(column, v.ty));
    var row := [v];
    EvalScan(db, name, Field(column, v.ty));
    var project := Node(Projection([Column(column)], [Field(column, NullType)]), [local]);
    EvalUnary(db, Distinct, project);
    EvalUnary(db, project.op, local);
    var projected := Eval(db, project);
    assert |projected| == 1;
    assert projected[0] == [ColumnValue(SchemaOf(local), row, column)];
    assert projected == [row];
    assert FirstOccurrences([row][..0]) == [];
    assert FirstOccurrences([row]) == [row];
  }

  lemma SingleKey(env: Env, localIsLeft: bool, name: string, column: string, v: Scalar)
    requires Calm(env, localIsLeft) && env.db.tables(name) == [[v]]
    ensures var m := Materialize(env, Scan(name, Field(column, v.ty)), column, 1);
            m.Values? && m.rows == 1 && Flatten(m.batches) == [v]
  {
    KeysOfOneRow(env.db, name, column, v);
    var cap := env.config.maxLocalRows + 1;
    var batches := env.runtime.arrange(1, [v], cap);
    assert IsSample(batches, [v], cap);
    assert Elements([v]) == {v};
    var got := Flatten(batches);
    assert |got| == 1 && got[0] in Elements(got);
    TotalRowsIsLength(batches);
    NoBytes(env, localIsLeft, 1, batches);
  }

  lemma {:induction false} NoBytes(env: Env, localIsLeft: bool, n: nat, batches: seq<seq<Scalar>>)
    requires Calm(env, localIsLeft)
    ensures TotalBytes(env.runtime, n, batches) == 0
  {
    if batches != [] {
      NoBytes(env, localIsLeft, n, batches[..|batches| - 1]);
    }
  }

  lemma SingleKeyVerdict(env: Env, spec: JoinSpec, name: string, v: Scalar, remote: Plan, localIsLeft: bool,
                         localCol: string, remoteCol: string)
    requires Calm(env, localIsLeft) && IsSupportedKeyType(v.ty) && env.db.tables(name) == [[v]]
    requires IndexOf(SchemaOf(remote), remoteCol).Some?
    ensures var local := Scan(name, Field(localCol, v.ty));
            var verdict := BroadcastVerdict(env, spec, local, remote, localIsLeft, localCol, remoteCol, 1);
            && verdict.Replace?
            && verdict.plan == if v.Null? then EmptyPlan(spec)
                               else Broadcasted(spec, local, remote, localIsLeft, remoteCol, [v])
  {
    SingleKey(env, localIsLeft, name, localCol, v);
    OneDistinctKey(v);
    VerdictWithKeys(env, spec, Scan(name, Field(localCol, v.ty)), remote, localIsLeft, localCol, remoteCol, 1,
                    if v.Null? then [] else [v]);
  }

  lemma OneDistinctKey(v: Scalar)
    ensures DistinctKeys([v], v.ty) == Some(if v.Null? then [] else [v])
  {
    assert [v][..0] == [];
    assert FirstOccurrences([v]) == [v];
    assert NonNull([v]) == if v.Null? then [] else [v];
  }

  lemma VerdictWithKeys(env: Env, spec: JoinSpec, local: Plan, remote: Plan, localIsLeft: bool,
                        localCol: string, remoteCol: string, n: nat, keys: seq<Scalar>)
    requires Materialize(env, local, localCol, n).Values? && Materialize(env, local, localCol, n).rows > 0
    requires IndexOf(SchemaOf(local), localCol).Some? && IndexOf(SchemaOf(remote), remoteCol).Some?
    requires var ty := ColumnType(SchemaOf(local), localCol);
             IsSupportedKeyType(ty)
             && DistinctKeys(Flatten(Materialize(env, local, localCol, n).batches), ty) == Some(keys)
    ensures var v := BroadcastVerdict(env, spec, local, remote, localIsLeft, localCol, remoteCol, n);
            && v.Replace?
            && v.plan == if keys == [] then EmptyPlan(spec)
                         else Broadcasted(spec, local, remote, localIsLeft, remoteCol, keys)
  {}
}
