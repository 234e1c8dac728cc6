/** The database tables a statement refers to, collected by a walk that keeps track of CTE names. */
module TableRefs {
  import opened Common

  // ---------- statements ----------

  datatype Statement = QueryStatement(query: Query) | OtherStatement

  datatype Query = Query(ctes: seq<Cte>, body: SetExpr)

  datatype Cte = Cte(name: string, query: Query)

  datatype SetExpr =
    | Select(from: seq<TableWithJoins>, projection: seq<SelectItem>, selection: Option<Expr>, having: Option<Expr>)
    | NestedQuery(query: Query)
    | SetOperation(left: SetExpr, right: SetExpr)
    | TableCommand(schemaName: Option<string>, tableName: Option<string>)
    | OtherSet

  datatype SelectItem = Item(expr: Expr) | Wildcard

  datatype TableWithJoins = TableWithJoins(relation: TableFactor, joins: seq<TableFactor>)

  datatype TableFactor =
    | Table(parts: seq<NamePart>)
    | Derived(subquery: Query)
    | NestedJoin(inner: TableWithJoins)
    | OtherFactor

  datatype NamePart = Identifier(value: string) | FunctionPart

  /** The expressions the walk enters; all others, such as function calls and casts, are `OtherExpr`. */
  datatype Expr =
    | InSubquery(expr: Expr, subquery: Query)
    | Subquery(subquery: Query)
    | Binary(left: Expr, right: Expr)
    | Unary(expr: Expr)
    | InList(expr: Expr, list: seq<Expr>)
    | Between(expr: Expr, low: Expr, high: Expr)
    | Like(expr: Expr, pattern: Expr)
    | Case(operand: Option<Expr>, conditions: seq<When>, elseResult: Option<Expr>)
    | Tuple(exprs: seq<Expr>)
    | OtherExpr

  datatype When = When(condition: Expr, result: Expr)

  // ---------- the visited positions ----------

  /** A two-part name at a table position, and the CTE names in scope there. */
  datatype Position = Position(schemaName: string, tableName: string, scope: set<string>)

  function CteNames(ctes: seq<Cte>, k: nat): set<string>
    requires k <= |ctes|
  {
    if k == 0 then {} else CteNames(ctes, k - 1) + {ctes[k - 1].name}
  }

  function Identifiers(parts: seq<NamePart>, k: nat): seq<string>
    requires k <= |parts|
  {
    if k == 0 then []
    else Identifiers(parts, k - 1) + (if parts[k - 1].Identifier? then [parts[k - 1].value] else [])
  }

  /** A CTE's name is in scope in the body, in its own query and in those of its siblings. */
  function OfQuery(q: Query, scope: set<string>): seq<Position>
    decreases q, 0
  {
    var inner := scope + CteNames(q.ctes, |q.ctes|);
    OfCtes(q.ctes, |q.ctes|, inner) + OfSet(q.body, inner)
  }

  function OfCtes(ctes: seq<Cte>, k: nat, scope: set<string>): seq<Position>
    requires k <= |ctes|
    decreases ctes, k
  {
    if k == 0 then [] else OfCtes(ctes, k - 1, scope) + OfQuery(ctes[k - 1].query, scope)
  }

  function OfSet(s: SetExpr, scope: set<string>): seq<Position>
    decreases s, 0
  {
    match s
    case Select(from, projection, selection, having) =>
      OfFrom(from, |from|, scope) + OfItems(projection, |projection|, scope)
      + OfOption(selection, scope) + OfOption(having, scope)
    case NestedQuery(q) => OfQuery(q, scope)
    case SetOperation(l, r) => OfSet(l, scope) + OfSet(r, scope)
    case TableCommand(schemaName, tableName) =>
      if schemaName.Some? && tableName.Some? then [Position(schemaName.value, tableName.value, scope)] else []
    case OtherSet => []
  }

  function OfFrom(tables: seq<TableWithJoins>, k: nat, scope: set<string>): seq<Position>
    requires k <= |tables|
    decreases tables, k
  {
    if k == 0 then [] else OfFrom(tables, k - 1, scope) + OfTable(tables[k - 1], scope)
  }

  function OfTable(t: TableWithJoins, scope: set<string>): seq<Position>
    decreases t, 0
  {
    OfFactor(t.relation, scope) + OfJoins(t.joins, |t.joins|, scope)
  }

  function OfJoins(joins: seq<TableFactor>, k: nat, scope: set<string>): seq<Position>
    requires k <= |joins|
    decreases joins, k
  {
    if k == 0 then [] else OfJoins(joins, k - 1, scope) + OfFactor(joins[k - 1], scope)
  }

  function OfFactor(f: TableFactor, scope: set<string>): seq<Position>
    decreases f, 0
  {
    match f
    case Table(parts) =>
      var names := Identifiers(parts, |parts|);
      if |names| == 2 then [Position(names[0], names[1], scope)] else []
    case Derived(q) => OfQuery(q, scope)
    case NestedJoin(t) => OfTable(t, scope)
    case OtherFactor => []
  }

  function OfItems(items: seq<SelectItem>, k: nat, scope: set<string>): seq<Position>
    requires k <= |items|
    decreases items, k
  {
    if k == 0 then []
    else OfItems(items, k - 1, scope) + OfItem(items[k - 1], scope)
  }

  function OfItem(item: SelectItem, scope: set<string>): seq<Position>
    decreases item, 0
  {
    if item.Item? then OfExpr(item.expr, scope) else []
  }

  function OfOption(e: Option<Expr>, scope: set<string>): seq<Position>
    decreases e, 0
  {
    match e case None => [] case Some(x) => OfExpr(x, scope)
  }

  function OfExpr(e: Expr, scope: set<string>): seq<Position>
    decreases e, 0
  {
    match e
    case InSubquery(x, q) => OfExpr(x, scope) + OfQuery(q, scope)
    case Subquery(q) => OfQuery(q, scope)
    case Binary(l, r) => OfExpr(l, scope) + OfExpr(r, scope)
    case Unary(x) => OfExpr(x, scope)
    case InList(x, list) => OfExpr(x, scope) + OfExprs(list, |list|, scope)
    case Between(x, low, high) => OfExpr(x, scope) + OfExpr(low, scope) + OfExpr(high, scope)
    case Like(x, p) => OfExpr(x, scope) + OfExpr(p, scope)
    case Case(operand, conditions, elseResult) =>
      OfOption(operand, scope) + OfWhens(conditions, |conditions|, scope) + OfOption(elseResult, scope)
    case Tuple(exprs) => OfExprs(exprs, |exprs|, scope)
    case OtherExpr => []
  }

  function OfExprs(es: seq<Expr>, k: nat, scope: set<string>): seq<Position>
    requires k <= |es|
    decreases es, k
  {
    if k == 0 then [] else OfExprs(es, k - 1, scope) + OfExpr(es[k - 1], scope)
  }

  function OfWhens(whens: seq<When>, k: nat, scope: set<string>): seq<Position>
    requires k <= |whens|
    decreases whens, k
  {
    if k == 0 then []
    else OfWhens(whens, k - 1, scope) + OfWhen(whens[k - 1], scope)
  }

  function OfWhen(w: When, scope: set<string>): seq<Position>
    decreases w, 0
  {
    OfExpr(w.condition, scope) + OfExpr(w.result, scope)
  }

  function OfStatements(statements: seq<Statement>, k: nat): seq<Position>
    requires k <= |statements|
  {
    if k == 0 then []
    else
      OfStatements(statements, k - 1)
      + (if statements[k - 1].QueryStatement? then OfQuery(statements[k - 1].query, {}) else [])
  }

  // ---------- collecting ----------

  datatype Ref = Ref(alias: string, tableName: string)

  /** The references already collected and those of more positions: unshadowed, each once. */
  function Added(refs: seq<Ref>, ps: seq<Position>): seq<Ref> {
    if ps == [] then refs else AddOne(Added(refs, ps[..|ps| - 1]), ps[|ps| - 1])
  }

  function AddOne(refs: seq<Ref>, p: Position): seq<Ref> {
    var r := Ref(p.schemaName, p.tableName);
    if p.schemaName in p.scope || r in refs then refs else refs + [r]
  }

  lemma {:induction false} AddedAppend(refs: seq<Ref>, a: seq<Position>, b: seq<Position>)
    ensures Added(refs, a + b) == Added(Added(refs, a), b)
    decreases b
  {
    if b == [] {
      assert a + b == a;
    } else {
      assert (a + b)[..|a + b| - 1] == a + b[..|b| - 1];
      AddedAppend(refs, a, b[..|b| - 1]);
    }
  }

  lemma AddedNothing(refs: seq<Ref>)
    ensures Added(refs, []) == refs
  {}

  class Collector {
    var refs: seq<Ref>
    var seen: set<(string, string)>

    constructor ()
      ensures refs == [] && Valid()
    {
      refs, seen := [], {};
    }

    /** `seen` holds exactly the references collected. */
    ghost predicate Valid()
      reads this
    {
      forall a, t :: (a, t) in seen <==> Ref(a, t) in refs
    }

    method AddSchemaTable(schemaName: string, tableName: string, ctes: set<string>)
      requires Valid()
      modifies this
      ensures Valid() && refs == Added(old(refs), [Position(schemaName, tableName, ctes)])
    {
      AddedNothing(refs);
      if schemaName in ctes {
        return;
      }
      var key := (schemaName, tableName);
      if key !in seen {
        seen := seen + {key};
        refs := refs + [Ref(schemaName, tableName)];
      }
    }

    method AddObjectName(parts: seq<NamePart>, ctes: set<string>)
      requires Valid()
      modifies this
      ensures Valid() && refs == Added(old(refs), OfFactor(Table(parts), ctes))
    {
      var names := Identifiers(parts, |parts|);
      if |names| != 2 || names[0] in ctes {
        AddedNothing(refs);
        if |names| == 2 {
          assert Added(refs, [Position(names[0], names[1], ctes)]) == refs;
        }
        return;
      }
      AddSchemaTable(names[0], names[1], ctes);
    }

    method CollectQuery(query: Query, inherited: set<string>)
      requires Valid()
      modifies this
      ensures Valid() && refs == Added(old(refs), OfQuery(query, inherited))
      decreases query, 0
    {
      var ctes := inherited;
      for i := 0 to |query.ctes|
        invariant ctes == inherited + CteNames(query.ctes, i)
        invariant Valid() && refs == old(refs)
      {
        ctes := ctes + {query.ctes[i].name};
      }
      for i := 0 to |query.ctes|
        invariant Valid() && refs == Added(old(refs), OfCtes(query.ctes, i, ctes))
      {
        CollectQuery(query.ctes[i].query, ctes);
        AddedAppend(old(refs), OfCtes(query.ctes, i, ctes), OfQuery(query.ctes[i].query, ctes));
      }
      CollectSetExpr(query.body, ctes);
      AddedAppend(old(refs), OfCtes(query.ctes, |query.ctes|, ctes), OfSet(query.body, ctes));
    }

    method CollectSetExpr(s: SetExpr, ctes: set<string>)
      requires Valid()
      modifies this
      ensures Valid() && refs == Added(old(refs), OfSet(s, ctes))
      decreases s, 1
    {
      match s
      case Select(_, _, _, _) => CollectSelect(s, ctes);
      case NestedQuery(q) => CollectQuery(q, ctes);
      case SetOperation(l, r) =>
        CollectSetExpr(l, ctes);
        CollectSetExpr(r, ctes);
        AddedAppend(old(refs), OfSet(l, ctes), OfSet(r, ctes));
      case TableCommand(schemaName, tableName) =>
        AddedNothing(refs);
        if schemaName.Some? && tableName.Some? {
          AddSchemaTable(schemaName.value, tableName.value, ctes);
        }
      case OtherSet => AddedNothing(refs);
    }

    method CollectSelect(s: SetExpr, ctes: set<string>)
      requires Valid() && s.Select?
      modifies this
      ensures Valid() && refs == Added(old(refs), OfSet(s, ctes))
      decreases s, 0
    {
      CollectFrom(s.from, ctes);
      CollectItems(s.projection, ctes);
      CollectOption(s.selection, ctes);
      CollectOption(s.having, ctes);
      AddedFourfold(old(refs), OfFrom(s.from, |s.from|, ctes), OfItems(s.projection, |s.projection|, ctes),
                    OfOption(s.selection, ctes), OfOption(s.having, ctes));
    }

    method CollectFrom(from: seq<TableWithJoins>, ctes: set<string>)
      requires Valid()
      modifies this
      ensures Valid() && refs == Added(old(refs), OfFrom(from, |from|, ctes))
      decreases from, 0
    {
      AddedNothing(refs);
      for i := 0 to |from|
        invariant Valid() && refs == Added(old(refs), OfFrom(from, i, ctes))
      {
        CollectTableWithJoins(from[i], ctes);
        AddedAppend(old(refs), OfFrom(from, i, ctes), OfTable(from[i], ctes));
      }
    }

    method CollectItems(items: seq<SelectItem>, ctes: set<string>)
      requires Valid()
      modifies this
      ensures Valid() && refs == Added(old(refs), OfItems(items, |items|, ctes))
      decreases items, 0
    {
      AddedNothing(refs);
      for i := 0 to |items|
        invariant Valid() && refs == Added(old(refs), OfItems(items, i, ctes))
      {
        CollectSelectItem(items[i], ctes);
        AddedAppend(old(refs), OfItems(items, i, ctes), OfItem(items[i], ctes));
      }
    }

    method CollectSelectItem(item: SelectItem, ctes: set<string>)
      requires Valid()
      modifies this
      ensures Valid() && refs == Added(old(refs), OfItem(item, ctes))
      decreases item, 0
    {
      AddedNothing(refs);
      if item.Item? {
        CollectExpr(item.expr, ctes);
      }
    }

    method CollectOption(e: Option<Expr>, ctes: set<string>)
      requires Valid()
      modifies this
      ensures Valid() && refs == Added(old(refs), OfOption(e, ctes))
      decreases e, 0
    {
      AddedNothing(refs);
      if e.Some? {
        CollectExpr(e.value, ctes);
      }
    }

    method CollectExpr(e: Expr, ctes: set<string>)
      requires Valid()
      modifies this
      ensures Valid() && refs == Added(old(refs), OfExpr(e, ctes))
      decreases e, 1
    {
      match e
      case InSubquery(_, _) => CollectInSubquery(e, ctes);
      case Subquery(q) => CollectQuery(q, ctes);
      case Binary(l, r) =>
        CollectExpr(l, ctes);
        CollectExpr(r, ctes);
        AddedAppend(old(refs), OfExpr(l, ctes), OfExpr(r, ctes));
      case Unary(x) => CollectExpr(x, ctes);
      case InList(_, _) => CollectInList(e, ctes);
      case Between(_, _, _) => CollectBetween(e, ctes);
      case Like(x, p) =>
        CollectExpr(x, ctes);
        CollectExpr(p, ctes);
        AddedAppend(old(refs), OfExpr(x, ctes), OfExpr(p, ctes));
      case Case(_, _, _) => CollectCase(e, ctes);
      case Tuple(exprs) => CollectExprs(exprs, ctes);
      case OtherExpr => AddedNothing(refs);
    }

    method CollectInSubquery(e: Expr, ctes: set<string>)
      requires Valid() && e.InSubquery?
      modifies this
      ensures Valid() && refs == Added(old(refs), OfExpr(e, ctes))
      decreases e, 0
    {
      CollectExpr(e.expr, ctes);
      CollectQuery(e.subquery, ctes);
      AddedAppend(old(refs), OfExpr(e.expr, ctes), OfQuery(e.subquery, ctes));
    }

    method CollectInList(e: Expr, ctes: set<string>)
      requires Valid() && e.InList?
      modifies this
      ensures Valid() && refs == Added(old(refs), OfExpr(e, ctes))
      decreases e, 0
    {
      CollectExpr(e.expr, ctes);
      CollectExprs(e.list, ctes);
      AddedAppend(old(refs), OfExpr(e.expr, ctes), OfExprs(e.list, |e.list|, ctes));
    }

    method CollectBetween(e: Expr, ctes: set<string>)
      requires Valid() && e.Between?
      modifies this
      ensures Valid() && refs == Added(old(refs), OfExpr(e, ctes))
      decreases e, 0
    {
      CollectExpr(e.expr, ctes);
      CollectExpr(e.low, ctes);
      CollectExpr(e.high, ctes);
      AddedThreefold(old(refs), OfExpr(e.expr, ctes), OfExpr(e.low, ctes), OfExpr(e.high, ctes));
    }

    method CollectCase(e: Expr, ctes: set<string>)
      requires Valid() && e.Case?
      modifies this
      ensures Valid() && refs == Added(old(refs), OfExpr(e, ctes))
      decreases e, 0
    {
      CollectOption(e.operand, ctes);
      CollectWhens(e.conditions, ctes);
      CollectOption(e.elseResult, ctes);
      AddedThreefold(old(refs), OfOption(e.operand, ctes), OfWhens(e.conditions, |e.conditions|, ctes),
                     OfOption(e.elseResult, ctes));
    }

    method CollectExprs(es: seq<Expr>, ctes: set<string>)
      requires Valid()
      modifies this
      ensures Valid() && refs == Added(old(refs), OfExprs(es, |es|, ctes))
      decreases es, 0
    {
      AddedNothing(refs);
      for i := 0 to |es|
        invariant Valid() && refs == Added(old(refs), OfExprs(es, i, ctes))
      {
        CollectExpr(es[i], ctes);
        AddedAppend(old(refs), OfExprs(es, i, ctes), OfExpr(es[i], ctes));
      }
    }

    method CollectWhens(whens: seq<When>, ctes: set<string>)
      requires Valid()
      modifies this
      ensures Valid() && refs == Added(old(refs), OfWhens(whens, |whens|, ctes))
      decreases whens, 0
    {
      AddedNothing(refs);
      for i := 0 to |whens|
        invariant Valid() && refs == Added(old(refs), OfWhens(whens, i, ctes))
      {
        CollectWhen(whens[i], ctes);
        AddedAppend(old(refs), OfWhens(whens, i, ctes), OfWhen(whens[i], ctes));
      }
    }

    method CollectWhen(w: When, ctes: set<string>)
      requires Valid()
      modifies this
      ensures Valid() && refs == Added(old(refs), OfWhen(w, ctes))
      decreases w, 0
    {
      CollectExpr(w.condition, ctes);
      CollectExpr(w.result, ctes);
      AddedAppend(old(refs), OfExpr(w.condition, ctes), OfExpr(w.result, ctes));
    }

    method CollectTableWithJoins(t: TableWithJoins, ctes: set<string>)
      requires Valid()
      modifies this
      ensures Valid() && refs == Added(old(refs), OfTable(t, ctes))
      decreases t, 0
    {
      CollectTableFactor(t.relation, ctes);
      ghost var first := OfFactor(t.relation, ctes);
      AddedNothing(refs);
      for i := 0 to |t.joins|
        invariant Valid() && refs == Added(Added(old(refs), first), OfJoins(t.joins, i, ctes))
      {
        CollectTableFactor(t.joins[i], ctes);
        AddedAppend(Added(old(refs), first), OfJoins(t.joins, i, ctes), OfFactor(t.joins[i], ctes));
      }
      AddedAppend(old(refs), first, OfJoins(t.joins, |t.joins|, ctes));
    }

    method CollectTableFactor(f: TableFactor, ctes: set<string>)
      requires Valid()
      modifies this
      ensures Valid() && refs == Added(old(refs), OfFactor(f, ctes))
      decreases f, 0
    {
      match f
      case Table(parts) => AddObjectName(parts, ctes);
      case Derived(q) => CollectQuery(q, ctes);
      case NestedJoin(t) => CollectTableWithJoins(t, ctes);
      case OtherFactor => AddedNothing(refs);
    }
  }

  lemma AddedThreefold(refs: seq<Ref>, a: seq<Position>, b: seq<Position>, c: seq<Position>)
    ensures Added(refs, a + b + c) == Added(Added(Added(refs, a), b), c)
  {
    AddedAppend(refs, a, b);
    AddedAppend(refs, a + b, c);
  }

  lemma AddedFourfold(refs: seq<Ref>, a: seq<Position>, b: seq<Position>, c: seq<Position>, d: seq<Position>)
    ensures Added(refs, a + b + c + d) == Added(Added(Added(Added(refs, a), b), c), d)
  {
    AddedThreefold(refs, a, b, c);
    AddedAppend(refs, a + b + c, d);
  }

  /** The references of parsed statements. */
  method ExtractDatabaseTableRefs(statements: seq<Statement>) returns (refs: seq<Ref>)
    ensures refs == Added([], OfStatements(statements, |statements|))
  {
    var collector := new Collector();
    AddedNothing([]);
    for i := 0 to |statements|
      invariant collector.Valid() && fresh(collector)
      invariant collector.refs == Added([], OfStatements(statements, i))
    {
      AddedNothing(collector.refs);
      if statements[i].QueryStatement? {
        collector.CollectQuery(statements[i].query, {});
        AddedAppend([], OfStatements(statements, i), OfQuery(statements[i].query, {}));
      } else {
        assert OfStatements(statements, i) + [] == OfStatements(statements, i);
      }
    }
    refs := collector.refs;
  }
}
