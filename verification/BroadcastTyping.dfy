/** Typed plans: their rows have the types of their schemas, and key types decide which joins are safe. */
module BroadcastTyping {
  import opened Common
  import opened LogicalPlans
  import opened Broadcast
  import opened BroadcastProofs

  // ---------- typing of rows and plans ----------

  predicate Conforms(row: Row, schema: Schema) {
    |row| == |schema| && forall i :: 0 <= i < |row| ==> row[i].ty == schema[i].ty
  }

  ghost predicate AllConform(rows: Rel, schema: Schema) { forall row :: row in rows ==> Conforms(row, schema) }

  predicate SameTypes(s: Schema, t: Schema) {
    |s| == |t| && forall i :: 0 <= i < |s| ==> s[i].ty == t[i].ty
  }

  /** Every expression has the type of its field on every row of the input's types. */
  ghost predicate TypedProjection(db: Database, input: Schema, exprs: seq<Expr>, schema: Schema) {
    |exprs| == |schema| &&
    forall row, j :: Conforms(row, input) && 0 <= j < |exprs| ==> EvalExpr(db, input, row, exprs[j]).ty == schema[j].ty
  }

  /**
   * Stored tables and operators that the rewrite never inspects yield rows of their schemas; the other
   * operators declare schemas that fit their inputs.
   */
  ghost predicate TypedPlan(db: Database, p: Plan) {
    && (forall i :: 0 <= i < |p.inputs| ==> TypedPlan(db, p.inputs[i]))
    && match p.op
       case TableScan(table, schema) => AllConform(db.tables(table), schema)
       case EmptyRelation(one, schema) => one ==> schema == []
       case Filter(_) => |p.inputs| == 1
       case Limit(_, _) => |p.inputs| == 1
       case Distinct => |p.inputs| == 1
       case Projection(exprs, schema) =>
         |p.inputs| == 1 && TypedProjection(db, SchemaOf(p.inputs[0]), exprs, schema)
       case Join(spec) =>
         if |p.inputs| == 2 && spec.joinType.Inner?
         then SameTypes(spec.schema, SchemaOf(p.inputs[0]) + SchemaOf(p.inputs[1]))
         else AllConform(Eval(db, p), spec.schema)
       case Union(schema) => forall i :: 0 <= i < |p.inputs| ==> SameTypes(SchemaOf(p.inputs[i]), schema)
       case Operator(_, schema) => AllConform(Eval(db, p), schema)
  }

  lemma {:induction false} KeptRowsConform(f: Row -> bool, rows: Rel, schema: Schema)
    requires AllConform(rows, schema)
    ensures AllConform(Keep(f, rows), schema)
  {
    if rows != [] {
      KeptRowsConform(f, rows[1..], schema);
    }
  }

  lemma ProjectedRowsConform(db: Database, input: Schema, exprs: seq<Expr>, rows: Rel, schema: Schema)
    requires AllConform(rows, input) && TypedProjection(db, input, exprs, schema)
    ensures AllConform(ProjectRows(db, input, exprs, rows), schema)
  {
    var projected := ProjectRows(db, input, exprs, rows);
    forall i | 0 <= i < |projected| ensures Conforms(projected[i], schema) {
      assert Conforms(rows[i], input);
    }
  }

  lemma DistinctRowsConform(rows: Rel, schema: Schema)
    requires AllConform(rows, schema)
    ensures AllConform(FirstOccurrences(rows), schema)
  {
    FirstOccurrencesElements(rows);
    forall row | row in FirstOccurrences(rows) ensures Conforms(row, schema) {
      assert row in Elements(FirstOccurrences(rows));
    }
  }

  lemma {:induction false} PairsConform(m: (Row, Row) -> bool, l: Row, rights: Rel, ls: Schema, rs: Schema)
    requires Conforms(l, ls) && AllConform(rights, rs)
    ensures AllConform(PairsWith(m, l, rights), ls + rs)
  {
    if rights != [] {
      PairsConform(m, l, rights[1..], ls, rs);
      assert Conforms(rights[0], rs);
      assert Conforms(l + rights[0], ls + rs);
    }
  }

  lemma {:induction false} JoinedRowsConform(m: (Row, Row) -> bool, lefts: Rel, rights: Rel, ls: Schema, rs: Schema)
    requires AllConform(lefts, ls) && AllConform(rights, rs)
    ensures AllConform(NestedLoop(m, lefts, rights), ls + rs)
  {
    if lefts != [] {
      PairsConform(m, lefts[0], rights, ls, rs);
      JoinedRowsConform(m, lefts[1..], rights, ls, rs);
    }
  }

  lemma {:induction false} UnionConforms(rels: seq<Rel>, schema: Schema)
    requires forall i :: 0 <= i < |rels| ==> AllConform(rels[i], schema)
    ensures AllConform(Flatten(rels), schema)
  {
    if rels != [] {
      UnionConforms(rels[1..], schema);
    }
  }

  lemma SameTypesConform(rows: Rel, s: Schema, t: Schema)
    requires AllConform(rows, s) && SameTypes(s, t)
    ensures AllConform(rows, t)
  {}

  /** The rows of a typed plan have the types of its schema. */
  lemma {:induction false} TypedRows(db: Database, p: Plan)
    requires TypedPlan(db, p)
    ensures AllConform(Eval(db, p), SchemaOf(p))
  {
    forall i | 0 <= i < |p.inputs| ensures AllConform(Eval(db, p.inputs[i]), SchemaOf(p.inputs[i])) {
      TypedRows(db, p.inputs[i]);
    }
    if p.op.Join? {
      JoinRows(db, p);
    } else if p.op.Union? {
      UnionRows(db, p);
    } else if |p.inputs| == 1 && !p.op.TableScan? && !p.op.EmptyRelation? && !p.op.Operator? {
      UnaryRows(db, p);
    }
  }

  lemma UnaryRows(db: Database, p: Plan)
    requires TypedPlan(db, p) && |p.inputs| == 1 && AllConform(Eval(db, p.inputs[0]), SchemaOf(p.inputs[0]))
    requires p.op.Filter? || p.op.Limit? || p.op.Distinct? || p.op.Projection?
    ensures AllConform(Eval(db, p), SchemaOf(p))
  {
    var input := p.inputs[0];
    assert p.inputs == [input];
    EvalUnary(db, p.op, input);
    match p.op
    case Filter(e) => KeptRowsConform(Satisfies(db, SchemaOf(input), e), Eval(db, input), SchemaOf(input));
    case Distinct => DistinctRowsConform(Eval(db, input), SchemaOf(input));
    case Projection(exprs, schema) => ProjectedRowsConform(db, SchemaOf(input), exprs, Eval(db, input), schema);
    case Limit(_, _) =>
  }

  lemma JoinRows(db: Database, p: Plan)
    requires TypedPlan(db, p) && p.op.Join?
    requires forall i :: 0 <= i < |p.inputs| ==> AllConform(Eval(db, p.inputs[i]), SchemaOf(p.inputs[i]))
    ensures AllConform(Eval(db, p), SchemaOf(p))
  {
    var spec := p.op.spec;
    if |p.inputs| == 2 && spec.joinType.Inner? {
      var l, r := p.inputs[0], p.inputs[1];
      assert p.inputs == [l, r];
      EvalJoin(db, spec, l, r);
      var m := Matcher(db, spec, SchemaOf(l), SchemaOf(r));
      JoinedRowsConform(m, Eval(db, l), Eval(db, r), SchemaOf(l), SchemaOf(r));
      SameTypesConform(Eval(db, p), SchemaOf(l) + SchemaOf(r), spec.schema);
    }
  }

  lemma UnionRows(db: Database, p: Plan)
    requires TypedPlan(db, p) && p.op.Union?
    requires forall i :: 0 <= i < |p.inputs| ==> AllConform(Eval(db, p.inputs[i]), SchemaOf(p.inputs[i]))
    ensures AllConform(Eval(db, p), SchemaOf(p))
  {
    var rels := seq(|p.inputs|, i requires 0 <= i < |p.inputs| => Eval(db, p.inputs[i]));
    forall i | 0 <= i < |rels| ensures AllConform(rels[i], p.op.schema) {
      SameTypesConform(rels[i], SchemaOf(p.inputs[i]), p.op.schema);
    }
    UnionConforms(rels, p.op.schema);
  }

  // ---------- which key types are safe ----------

  /** Key columns of these types agree: what the join equates is equal before casts and not NULL. */
  ghost predicate KeyTypesAgree(db: Database, spec: JoinSpec, lty: DataType, rty: DataType, localIsLeft: bool)
    requires |spec.on| == 1
  {
    IsSupportedKeyType(if localIsLeft then lty else rty) ==>
      forall a: Scalar, b: Scalar :: a.ty == lty && b.ty == rty && Equates(db, spec, a, b) ==> SqlEq(a, b)
  }

  function ColumnType(schema: Schema, column: string): DataType
    requires IndexOf(schema, column).Some?
  {
    schema[IndexOf(schema, column).value].ty
  }

  /** The declared types of its key columns make a join safe, whatever the rows. */
  ghost predicate TypesAgree(db: Database, spec: JoinSpec, left: Plan, right: Plan) {
    Eligible(spec) && SidesResolve(spec, left, right) ==>
      var lty, rty := ColumnType(SchemaOf(left), LeftKey(spec)), ColumnType(SchemaOf(right), RightKey(spec));
      KeyTypesAgree(db, spec, lty, rty, true) && KeyTypesAgree(db, spec, lty, rty, false)
  }

  ghost predicate SafelyTyped(db: Database, p: Plan) {
    && (IsJoin(p) ==> TypesAgree(db, p.op.spec, p.inputs[0], p.inputs[1]))
    && forall i :: 0 <= i < |p.inputs| ==> SafelyTyped(db, p.inputs[i])
  }

  lemma ConformingColumn(schema: Schema, row: Row, column: string)
    requires Conforms(row, schema) && IndexOf(schema, column).Some?
    ensures ColumnValue(schema, row, column).ty == ColumnType(schema, column)
  {}

  lemma TypedSidesAgree(db: Database, spec: JoinSpec, left: Plan, right: Plan, localIsLeft: bool)
    requires AllConform(Eval(db, left), SchemaOf(left)) && AllConform(Eval(db, right), SchemaOf(right))
    requires Eligible(spec) && SidesResolve(spec, left, right)
    requires KeyTypesAgree(db, spec, ColumnType(SchemaOf(left), LeftKey(spec)),
                           ColumnType(SchemaOf(right), RightKey(spec)), localIsLeft)
    ensures KeysAgree(db, spec, left, right, localIsLeft)
  {
    var ls, rs := SchemaOf(left), SchemaOf(right);
    forall l, r | l in Eval(db, left) && r in Eval(db, right) ensures RowsAgree(db, spec, ls, rs, localIsLeft, l, r) {
      ConformingColumn(ls, l, LeftKey(spec));
      ConformingColumn(rs, r, RightKey(spec));
    }
  }

  lemma {:induction false} TypedPlanIsSafe(db: Database, p: Plan)
    requires TypedPlan(db, p) && KeysResolve(p) && SafelyTyped(db, p)
    ensures SafePlan(db, p)
  {
    forall i | 0 <= i < |p.inputs| ensures SafePlan(db, p.inputs[i]) {
      TypedPlanIsSafe(db, p.inputs[i]);
    }
    if IsJoin(p) {
      TypedRows(db, p.inputs[0]);
      TypedRows(db, p.inputs[1]);
      if Eligible(p.op.spec) {
        TypedSidesAgree(db, p.op.spec, p.inputs[0], p.inputs[1], true);
        TypedSidesAgree(db, p.op.spec, p.inputs[0], p.inputs[1], false);
      }
    }
  }

  /** For typed plans the types of the key columns decide: the pass succeeds, keeps the meaning and accounts. */
  lemma TypedPassCorrect(env: Env, p: Plan)
    requires ValidEnv(env) && TypedPlan(env.db, p) && KeysResolve(p) && SafelyTyped(env.db, p)
    ensures var (r, log) := RewritePass(env, p);
            && r.Ok? && Meaning(env.db, r.value, p)
            && (env.config.enabled ==> log.considered == CountJoins(p) == |log.applied| + |log.skipped|)
  {
    TypedPlanIsSafe(env.db, p);
    BroadcastPassCorrect(env, p);
  }

  // ---------- casts of typed keys ----------

  /** On a column of type `ty` the casts only change the type of a value, as integer widening does. */
  ghost predicate KeepsRaw(db: Database, e: Expr, ty: DataType) {
    forall v: Scalar :: v.ty == ty ==>
      var w := ThroughCasts(db, e, v); w.Value? ==> v.Value? && v.raw == w.raw
  }

  /** Under the standard NULL rule, plain and widened columns are safe on both sides. */
  lemma WideningKeysAreSafe(db: Database, spec: JoinSpec, lty: DataType, rty: DataType, localIsLeft: bool)
    requires |spec.on| == 1 && KeepsRaw(db, spec.on[0].0, lty) && KeepsRaw(db, spec.on[0].1, rty)
    requires spec.nullEquality.NullEqualsNothing?
    ensures KeyTypesAgree(db, spec, lty, rty, localIsLeft)
  {
    forall a: Scalar, b: Scalar | a.ty == lty && b.ty == rty && Equates(db, spec, a, b) ensures SqlEq(a, b) {
      var x, y := ThroughCasts(db, spec.on[0].0, a), ThroughCasts(db, spec.on[0].1, b);
      assert x.Value? && y.Value? && x.raw == y.raw;
    }
  }

  /** No cast anywhere on the way to the column. */
  predicate Uncast(e: Expr) {
    match e
    case Column(_) => true
    case Alias(x, _) => Uncast(x)
    case _ => false
  }

  lemma {:induction false} UncastIsIdentity(db: Database, e: Expr, v: Scalar)
    requires Uncast(e)
    ensures ThroughCasts(db, e, v) == v
  {
    if e.Alias? {
      UncastIsIdentity(db, e.expr, v);
    }
  }

  lemma UncastKeysKeepRaw(db: Database, e: Expr, ty: DataType)
    requires Uncast(e)
    ensures KeepsRaw(db, e, ty)
  {
    forall v: Scalar ensures ThroughCasts(db, e, v) == v {
      UncastIsIdentity(db, e, v);
    }
  }

  /** A database that widens 32-bit integers, and that parses text as integers too. */
  ghost predicate WidensAndParses(db: Database) {
    && (forall v: Scalar :: v.ty == Int32 ==>
          db.castTo(Int64, v) == if v.Null? then Null(Int64) else Value(Int64, v.raw))
    && db.castTo(Int64, Value(Utf8, Text("05"))) == Value(Int64, Num(5))
  }

  /** There, `id = CAST(rid AS Int64)` is safe to broadcast for 32-bit `rid`, from either side ... */
  lemma WidenedIntegersAreSafe(db: Database, spec: JoinSpec, localIsLeft: bool)
    requires WidensAndParses(db) && spec.nullEquality.NullEqualsNothing?
    requires spec.on == [(Column("id"), Cast(Column("rid"), Int64))]
    ensures KeyTypesAgree(db, spec, Int64, Int32, localIsLeft)
  {
    var e := spec.on[0].1;
    forall v: Scalar | v.ty == Int32 ensures ThroughCasts(db, e, v) == db.castTo(Int64, v) {
      assert ThroughCasts(db, Column("rid"), v) == v;
    }
    UncastKeysKeepRaw(db, spec.on[0].0, Int64);
    WideningKeysAreSafe(db, spec, Int64, Int32, localIsLeft);
  }

  /** ... and for text it is not: '05' is cast to 5, which it is not equal to. */
  lemma ParsedTextIsUnsafe(db: Database, spec: JoinSpec, localIsLeft: bool)
    requires WidensAndParses(db) && spec.on == [(Column("id"), Cast(Column("rid"), Int64))]
    ensures !KeyTypesAgree(db, spec, Int64, Utf8, localIsLeft)
  {
    var a, b := Value(Int64, Num(5)), Value(Utf8, Text("05"));
    assert Num(5) != Text("05");
    assert ThroughCasts(db, spec.on[0].1.expr, b) == b;
    assert ThroughCasts(db, spec.on[0].1, b) == a && ThroughCasts(db, spec.on[0].0, a) == a;
    assert Equates(db, spec, a, b) && !SqlEq(a, b);
  }

  /** Joins that let NULL equal NULL are not safe even on plain columns of one type. */
  lemma NullMatchingIsUnsafe(db: Database, spec: JoinSpec, ty: DataType, localIsLeft: bool)
    requires spec.nullEquality.NullEqualsNull? && IsSupportedKeyType(ty)
    requires |spec.on| == 1 && Uncast(spec.on[0].0) && Uncast(spec.on[0].1)
    ensures !KeyTypesAgree(db, spec, ty, ty, localIsLeft)
  {
    UncastIsIdentity(db, spec.on[0].0, Null(ty));
    UncastIsIdentity(db, spec.on[0].1, Null(ty));
    assert Equates(db, spec, Null(ty), Null(ty)) && !SqlEq(Null(ty), Null(ty));
  }
}
