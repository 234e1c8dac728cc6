/** Logical query plans, the values they compute on, and their meaning over a fixed database. */
module LogicalPlans {
  import opened Common

  datatype DataType =
    | NullType | Boolean
    | Int8 | Int16 | Int32 | Int64 | UInt8 | UInt16 | UInt32 | UInt64
    | Float32 | Float64 | Utf8 | LargeUtf8 | Date32 | Date64
    | Timestamp | Decimal128 | Binary

  datatype Raw = Num(n: int) | Text(s: string)

  /** A typed SQL value; NULLs carry a type too. */
  datatype Scalar = Null(ty: DataType) | Value(ty: DataType, raw: Raw)

  type Row = seq<Scalar>
  type Rel = seq<Row>

  datatype Field = Field(name: string, ty: DataType)
  type Schema = seq<Field>

  datatype Expr =
    | Column(name: string)
    | Literal(value: Scalar)
    | Cast(expr: Expr, ty: DataType)
    | Alias(expr: Expr, alias: string)
    | InList(expr: Expr, list: seq<Scalar>, negated: bool)
    | Call(fn: string, args: seq<Expr>)

  datatype JoinType = Inner | Left | Right | Full | LeftSemi | RightSemi | LeftAnti | RightAnti
  datatype NullEquality = NullEqualsNothing | NullEqualsNull

  datatype JoinSpec = JoinSpec(
    joinType: JoinType,
    on: seq<(Expr, Expr)>,
    filter: Option<Expr>,
    schema: Schema,
    nullEquality: NullEquality)

  /** What a plan node does to its inputs; every operator the rewrite never inspects is `Operator`. */
  datatype Op =
    | TableScan(table: string, schema: Schema)
    | EmptyRelation(produceOneRow: bool, schema: Schema)
    | Filter(condition: Expr)
    | Projection(exprs: seq<Expr>, schema: Schema)
    | Join(spec: JoinSpec)
    | Limit(skip: nat, fetch: Option<nat>)
    | Distinct
    | Union(schema: Schema)
    | Operator(name: string, schema: Schema)

  datatype Plan = Node(op: Op, inputs: seq<Plan>)

  /** The stored tables, and the meaning of everything that is a parameter of the query language. */
  datatype Database = Database(
    tables: string -> Rel,
    castTo: (DataType, Scalar) -> Scalar,
    call: (string, seq<Scalar>) -> Scalar,
    otherJoin: (JoinSpec, seq<Schema>, seq<Rel>) -> Rel,
    operator: (string, seq<Schema>, seq<Rel>) -> Rel)

  // ---------- scalar expressions ----------

  /** The first field of that name. */
  function IndexOf(schema: Schema, name: string): (r: Option<nat>)
    ensures r.Some? ==> r.value < |schema| && schema[r.value].name == name
  {
    if schema == [] then None
    else if schema[0].name == name then Some(0)
    else match IndexOf(schema[1..], name)
         case Some(i) => Some(i + 1)
         case None => None
  }

  function ColumnValue(schema: Schema, row: Row, name: string): Scalar {
    match IndexOf(schema, name)
    case Some(i) => if i < |row| then row[i] else Null(NullType)
    case None => Null(NullType)
  }

  /** `=` between two values: NULL equals nothing, integers compare across widths. */
  predicate SqlEq(a: Scalar, b: Scalar) {
    a.Value? && b.Value? && a.raw == b.raw
  }

  function Bool(b: bool): Scalar { Value(Boolean, Num(if b then 1 else 0)) }

  predicate IsTrue(v: Scalar) { v == Bool(true) }

  /** Three-valued `v [NOT] IN (list)`. */
  function InListValue(v: Scalar, list: seq<Scalar>, negated: bool): Scalar {
    if v.Null? then Null(Boolean)
    else if exists i :: 0 <= i < |list| && SqlEq(v, list[i]) then Bool(!negated)
    else if exists i :: 0 <= i < |list| && list[i].Null? then Null(Boolean)
    else Bool(negated)
  }

  function EvalExpr(db: Database, schema: Schema, row: Row, e: Expr): Scalar {
    match e
    case Column(name) => ColumnValue(schema, row, name)
    case Literal(v) => v
    case Cast(x, ty) => db.castTo(ty, EvalExpr(db, schema, row, x))
    case Alias(x, _) => EvalExpr(db, schema, row, x)
    case InList(x, list, negated) => InListValue(EvalExpr(db, schema, row, x), list, negated)
    case Call(fn, args) =>
      db.call(fn, seq(|args|, i requires 0 <= i < |args| => EvalExpr(db, schema, row, args[i])))
  }

  // ---------- relational operators ----------

  function Keep(f: Row -> bool, rows: Rel): Rel {
    if rows == [] then []
    else (if f(rows[0]) then [rows[0]] else []) + Keep(f, rows[1..])
  }

  function PairsWith(m: (Row, Row) -> bool, l: Row, rights: Rel): Rel {
    if rights == [] then []
    else (if m(l, rights[0]) then [l + rights[0]] else []) + PairsWith(m, l, rights[1..])
  }

  /** The matching pairs in left-major order. */
  function NestedLoop(m: (Row, Row) -> bool, lefts: Rel, rights: Rel): Rel {
    if lefts == [] then []
    else PairsWith(m, lefts[0], rights) + NestedLoop(m, lefts[1..], rights)
  }

  predicate KeyEq(q: NullEquality, a: Scalar, b: Scalar) {
    SqlEq(a, b) || (q.NullEqualsNull? && a.Null? && b.Null?)
  }

  predicate Matches(db: Database, spec: JoinSpec, ls: Schema, rs: Schema, l: Row, r: Row) {
    && (forall i :: 0 <= i < |spec.on| ==>
          KeyEq(spec.nullEquality, EvalExpr(db, ls, l, spec.on[i].0), EvalExpr(db, rs, r, spec.on[i].1)))
    && (spec.filter.Some? ==> IsTrue(EvalExpr(db, spec.schema, l + r, spec.filter.value)))
  }

  function Matcher(db: Database, spec: JoinSpec, ls: Schema, rs: Schema): (Row, Row) -> bool {
    (l, r) => Matches(db, spec, ls, rs, l, r)
  }

  function Satisfies(db: Database, schema: Schema, e: Expr): Row -> bool {
    row => IsTrue(EvalExpr(db, schema, row, e))
  }

  function ProjectRows(db: Database, schema: Schema, exprs: seq<Expr>, rows: Rel): Rel {
    seq(|rows|, i requires 0 <= i < |rows| =>
      seq(|exprs|, j requires 0 <= j < |exprs| => EvalExpr(db, schema, rows[i], exprs[j])))
  }

  function Window(rows: Rel, skip: nat, fetch: Option<nat>): Rel {
    var tail := if skip <= |rows| then rows[skip..] else [];
    if fetch.Some? && fetch.value < |tail| then tail[..fetch.value] else tail
  }

  function Apply(db: Database, op: Op, schemas: seq<Schema>, rels: seq<Rel>): Rel
    requires |schemas| == |rels|
  {
    match op
    case TableScan(table, _) => db.tables(table)
    case EmptyRelation(one, _) => if one then [[]] else []
    case Filter(e) => if |rels| == 1 then Keep(Satisfies(db, schemas[0], e), rels[0]) else []
    case Projection(exprs, _) => if |rels| == 1 then ProjectRows(db, schemas[0], exprs, rels[0]) else []
    case Join(spec) =>
      if |rels| == 2 && spec.joinType.Inner?
      then NestedLoop(Matcher(db, spec, schemas[0], schemas[1]), rels[0], rels[1])
      else db.otherJoin(spec, schemas, rels)
    case Limit(skip, fetch) => if |rels| == 1 then Window(rels[0], skip, fetch) else []
    case Distinct => if |rels| == 1 then FirstOccurrences(rels[0]) else []
    case Union(_) => Flatten(rels)
    case Operator(name, _) => db.operator(name, schemas, rels)
  }

  // ---------- plans ----------

  function SchemaOf(p: Plan): Schema {
    match p.op
    case TableScan(_, schema) => schema
    case EmptyRelation(_, schema) => schema
    case Projection(_, schema) => schema
    case Join(spec) => spec.schema
    case Union(schema) => schema
    case Operator(_, schema) => schema
    case Filter(_) => if |p.inputs| > 0 then SchemaOf(p.inputs[0]) else []
    case Limit(_, _) => if |p.inputs| > 0 then SchemaOf(p.inputs[0]) else []
    case Distinct => if |p.inputs| > 0 then SchemaOf(p.inputs[0]) else []
  }

  function Schemas(ps: seq<Plan>): seq<Schema> {
    seq(|ps|, i requires 0 <= i < |ps| => SchemaOf(ps[i]))
  }

  /** The rows a plan produces, in order. */
  function Eval(db: Database, p: Plan): Rel {
    Apply(db, p.op, Schemas(p.inputs),
          seq(|p.inputs|, i requires 0 <= i < |p.inputs| => Eval(db, p.inputs[i])))
  }

  predicate IsJoin(p: Plan) { p.op.Join? && |p.inputs| == 2 }

  function CountJoins(p: Plan): nat
    decreases p, 1
  {
    CountJoinsIn(p.inputs) + (if IsJoin(p) then 1 else 0)
  }

  function CountJoinsIn(ps: seq<Plan>): nat
    decreases ps, 0
  {
    if ps == [] then 0 else CountJoins(ps[0]) + CountJoinsIn(ps[1..])
  }
}
