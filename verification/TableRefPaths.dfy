/** What is collected, told from the syntax tree alone: which names stand where, and which queries hide them. */
module TableRefPaths {
  import opened Common
  import opened Paths
  import opened TableRefs
  import opened TableRefProofs

  // ---------- the syntax tree ----------

  /** A node of the syntax tree, or a list of nodes. */
  datatype Part =
    | StatementsPart(statements: seq<Statement>)
    | StatementPart(statement: Statement)
    | QueryPart(query: Query)
    | CtesPart(ctes: seq<Cte>)
    | SetPart(body: SetExpr)
    | FromPart(from: seq<TableWithJoins>)
    | TablePart(table: TableWithJoins)
    | JoinsPart(joins: seq<TableFactor>)
    | FactorPart(factor: TableFactor)
    | ItemsPart(items: seq<SelectItem>)
    | ItemPart(item: SelectItem)
    | OptionPart(option: Option<Expr>)
    | ExprPart(expr: Expr)
    | ExprsPart(exprs: seq<Expr>)
    | WhensPart(whens: seq<When>)
    | WhenPart(when: When)

  /** The direct parts of a node, in the order of the text; the names of CTEs and tables are no nodes. */
  function Children(p: Part): seq<Part> {
    match p
    case StatementsPart(ss) => seq(|ss|, i requires 0 <= i < |ss| => StatementPart(ss[i]))
    case StatementPart(s) => if s.QueryStatement? then [QueryPart(s.query)] else []
    case QueryPart(q) => [CtesPart(q.ctes), SetPart(q.body)]
    case CtesPart(ctes) => seq(|ctes|, i requires 0 <= i < |ctes| => QueryPart(ctes[i].query))
    case SetPart(s) => ChildrenOfSet(s)
    case FromPart(from) => seq(|from|, i requires 0 <= i < |from| => TablePart(from[i]))
    case TablePart(t) => [FactorPart(t.relation), JoinsPart(t.joins)]
    case JoinsPart(joins) => seq(|joins|, i requires 0 <= i < |joins| => FactorPart(joins[i]))
    case FactorPart(f) => ChildrenOfFactor(f)
    case ItemsPart(items) => seq(|items|, i requires 0 <= i < |items| => ItemPart(items[i]))
    case ItemPart(item) => if item.Item? then [ExprPart(item.expr)] else []
    case OptionPart(o) => if o.Some? then [ExprPart(o.value)] else []
    case ExprPart(e) => ChildrenOfExpr(e)
    case ExprsPart(es) => seq(|es|, i requires 0 <= i < |es| => ExprPart(es[i]))
    case WhensPart(whens) => seq(|whens|, i requires 0 <= i < |whens| => WhenPart(whens[i]))
    case WhenPart(w) => [ExprPart(w.condition), ExprPart(w.result)]
  }

  function ChildrenOfSet(s: SetExpr): seq<Part> {
    match s
    case Select(from, projection, selection, having) =>
      [FromPart(from), ItemsPart(projection), OptionPart(selection), OptionPart(having)]
    case NestedQuery(q) => [QueryPart(q)]
    case SetOperation(l, r) => [SetPart(l), SetPart(r)]
    case TableCommand(_, _) => []
    case OtherSet => []
  }

  function ChildrenOfFactor(f: TableFactor): seq<Part> {
    match f
    case Table(_) => []
    case Derived(q) => [QueryPart(q)]
    case NestedJoin(t) => [TablePart(t)]
    case OtherFactor => []
  }

  function ChildrenOfExpr(e: Expr): seq<Part> {
    match e
    case InSubquery(x, q) => [ExprPart(x), QueryPart(q)]
    case Subquery(q) => [QueryPart(q)]
    case Binary(l, r) => [ExprPart(l), ExprPart(r)]
    case Unary(x) => [ExprPart(x)]
    case InList(x, list) => [ExprPart(x), ExprsPart(list)]
    case Between(x, low, high) => [ExprPart(x), ExprPart(low), ExprPart(high)]
    case Like(x, pattern) => [ExprPart(x), ExprPart(pattern)]
    case Case(operand, conditions, elseResult) => [OptionPart(operand), WhensPart(conditions), OptionPart(elseResult)]
    case Tuple(exprs) => [ExprsPart(exprs)]
    case OtherExpr => []
  }

  /** The node that a path leads to. */
  function At(p: Part, path: Path): Option<Part>
    decreases |path|
  {
    if path == [] then Some(p)
    else if path[0] < |Children(p)| then At(Children(p)[path[0]], path[1..])
    else None
  }

  /** Exactly two parts of the name are identifiers. */
  ghost predicate TwoIdentifiers(parts: seq<NamePart>, a: string, b: string) {
    exists i, j ::
      && 0 <= i < j < |parts| && parts[i] == Identifier(a) && parts[j] == Identifier(b)
      && forall k :: 0 <= k < |parts| && k != i && k != j ==> parts[k].FunctionPart?
  }

  /** The node is a table of this two-part name, or the command that reads one. */
  ghost predicate Names(p: Part, r: Ref) {
    match p
    case FactorPart(f) => f.Table? && TwoIdentifiers(f.parts, r.alias, r.tableName)
    case SetPart(s) => s == TableCommand(Some(r.alias), Some(r.tableName))
    case _ => false
  }

  ghost predicate NamesAt(p: Part, path: Path, r: Ref) { At(p, path).Some? && Names(At(p, path).value, r) }

  /** The names of a query's CTEs. */
  function Bound(p: Part): set<string> {
    if p.QueryPart? then set i | 0 <= i < |p.query.ctes| :: p.query.ctes[i].name else {}
  }

  /** The names of the CTEs of all queries on a path. */
  function BoundOn(p: Part, path: Path): set<string>
    decreases |path|
  {
    Bound(p)
    + if path != [] && path[0] < |Children(p)| then BoundOn(Children(p)[path[0]], path[1..]) else {}
  }

  /** Some query on the path has a CTE of the schema's name. */
  predicate Hidden(p: Part, path: Path, r: Ref) { r.alias in BoundOn(p, path) }

  // ---------- the names of a node, by their paths ----------

  ghost predicate StandsAs(p: Part, path: Path, scope: set<string>, position: Position) {
    NamesAt(p, path, NameOf(position)) && position.scope == scope + BoundOn(p, path)
  }

  /** The positions are those of the names at and below the node, in the order of their paths. */
  ghost predicate Lists(p: Part, scope: set<string>, ps: seq<Position>, paths: seq<Path>) {
    && |ps| == |paths| && Ascending(paths)
    && (forall k :: 0 <= k < |ps| ==> StandsAs(p, paths[k], scope, ps[k]))
    && forall path, r :: NamesAt(p, path, r) ==> path in paths
  }

  /** The same of what is below the children before `n`. */
  ghost predicate ListsBelow(p: Part, n: nat, scope: set<string>, ps: seq<Position>, paths: seq<Path>) {
    && |ps| == |paths| && Ascending(paths)
    && (forall k :: 0 <= k < |ps| ==> paths[k] != [] && paths[k][0] < n && StandsAs(p, paths[k], scope, ps[k]))
    && forall path, r :: path != [] && path[0] < n && NamesAt(p, path, r) ==> path in paths
  }

  lemma NothingBelow(p: Part, scope: set<string>)
    ensures ListsBelow(p, 0, scope, [], [])
  {}

  lemma NamesBelow(p: Part, n: nat, path: Path, r: Ref)
    requires n < |Children(p)|
    ensures NamesAt(p, [n] + path, r) <==> NamesAt(Children(p)[n], path, r)
    ensures BoundOn(p, [n] + path) == Bound(p) + BoundOn(Children(p)[n], path)
  {
    assert ([n] + path)[1..] == path;
  }

  lemma StandsBelow(p: Part, n: nat, scope: set<string>, inner: set<string>, path: Path, position: Position)
    requires n < |Children(p)| && inner == scope + Bound(p) && StandsAs(Children(p)[n], path, inner, position)
    ensures StandsAs(p, [n] + path, scope, position)
  {
    NamesBelow(p, n, path, NameOf(position));
    assert position.scope == scope + (Bound(p) + BoundOn(Children(p)[n], path));
  }

  lemma FoundBelow(p: Part, n: nat, below: seq<Path>, path: Path, r: Ref)
    requires n < |Children(p)| && path != [] && path[0] == n && NamesAt(p, path, r)
    requires forall other, r :: NamesAt(Children(p)[n], other, r) ==> other in below
    ensures path in Under(n, below)
  {
    assert path == [n] + path[1..];
    NamesBelow(p, n, path[1..], r);
    var k :| 0 <= k < |below| && below[k] == path[1..];
    assert Under(n, below)[k] == path;
  }

  /** The positions of the next child follow those of the children before it. */
  lemma NextBelow(p: Part, n: nat, scope: set<string>, inner: set<string>, ps: seq<Position>, paths: seq<Path>,
                  more: seq<Position>, below: seq<Path>)
    requires n < |Children(p)| && ListsBelow(p, n, scope, ps, paths)
    requires Lists(Children(p)[n], inner, more, below) && inner == scope + Bound(p)
    ensures ListsBelow(p, n + 1, scope, ps + more, paths + Under(n, below))
  {
    UnderAscends(n, below);
    forall k | 0 <= k < |more| ensures StandsAs(p, Under(n, below)[k], scope, more[k]) {
      StandsBelow(p, n, scope, inner, below[k], more[k]);
    }
    forall path, r | path != [] && path[0] == n && NamesAt(p, path, r) ensures path in Under(n, below) {
      FoundBelow(p, n, below, path, r);
    }
    JoinBelow(p, n, scope, ps, paths, more, Under(n, below));
  }

  lemma JoinBelow(p: Part, n: nat, scope: set<string>, ps: seq<Position>, paths: seq<Path>,
                  more: seq<Position>, under: seq<Path>)
    requires ListsBelow(p, n, scope, ps, paths) && |more| == |under| && Ascending(under)
    requires forall k :: 0 <= k < |more| ==>
               under[k] != [] && under[k][0] == n && StandsAs(p, under[k], scope, more[k])
    requires forall path, r :: path != [] && path[0] == n && NamesAt(p, path, r) ==> path in under
    ensures ListsBelow(p, n + 1, scope, ps + more, paths + under)
  {
    AscendOn(n, paths, under);
    forall k | 0 <= k < |ps + more|
      ensures var path := (paths + under)[k];
              path != [] && path[0] < n + 1 && StandsAs(p, path, scope, (ps + more)[k])
    {}
  }

  /** A node that is no name has the positions below all its children. */
  lemma AllBelow(p: Part, scope: set<string>, ps: seq<Position>, paths: seq<Path>)
    requires ListsBelow(p, |Children(p)|, scope, ps, paths) && forall r :: !Names(p, r)
    ensures Lists(p, scope, ps, paths)
  {}

  ghost predicate Nameless(p: Part) { forall r :: !Names(p, r) }

  lemma NoChild(p: Part, scope: set<string>)
    requires Children(p) == [] && Nameless(p)
    ensures Lists(p, scope, [], [])
  {}

  lemma OneChild(p: Part, scope: set<string>, inner: set<string>, ps: seq<Position>, below: seq<Path>)
    returns (paths: seq<Path>)
    requires |Children(p)| == 1 && Nameless(p) && inner == scope + Bound(p)
    requires Lists(Children(p)[0], inner, ps, below)
    ensures Lists(p, scope, ps, paths)
  {
    NothingBelow(p, scope);
    NextBelow(p, 0, scope, inner, [], [], ps, below);
    assert [] + ps == ps;
    paths := [] + Under(0, below);
    AllBelow(p, scope, ps, paths);
  }

  lemma TwoChildren(p: Part, scope: set<string>, inner: set<string>, ps: seq<Position>, below: seq<Path>,
                    ps1: seq<Position>, below1: seq<Path>)
    returns (paths: seq<Path>)
    requires |Children(p)| == 2 && Nameless(p) && inner == scope + Bound(p)
    requires Lists(Children(p)[0], inner, ps, below) && Lists(Children(p)[1], inner, ps1, below1)
    ensures Lists(p, scope, ps + ps1, paths)
  {
    paths := BelowTwo(p, scope, inner, ps, below, ps1, below1);
    AllBelow(p, scope, ps + ps1, paths);
  }

  lemma BelowTwo(p: Part, scope: set<string>, inner: set<string>, ps: seq<Position>, below: seq<Path>,
                 ps1: seq<Position>, below1: seq<Path>)
    returns (paths: seq<Path>)
    requires |Children(p)| >= 2 && inner == scope + Bound(p)
    requires Lists(Children(p)[0], inner, ps, below) && Lists(Children(p)[1], inner, ps1, below1)
    ensures ListsBelow(p, 2, scope, ps + ps1, paths)
  {
    NothingBelow(p, scope);
    NextBelow(p, 0, scope, inner, [], [], ps, below);
    assert [] + ps == ps;
    paths := [] + Under(0, below);
    NextBelow(p, 1, scope, inner, ps, paths, ps1, below1);
    paths := paths + Under(1, below1);
  }

  lemma ThreeChildren(p: Part, scope: set<string>, ps: seq<Position>, below: seq<Path>,
                      ps1: seq<Position>, below1: seq<Path>, ps2: seq<Position>, below2: seq<Path>)
    returns (paths: seq<Path>)
    requires |Children(p)| == 3 && Nameless(p) && Bound(p) == {}
    requires Lists(Children(p)[0], scope, ps, below) && Lists(Children(p)[1], scope, ps1, below1)
    requires Lists(Children(p)[2], scope, ps2, below2)
    ensures Lists(p, scope, ps + ps1 + ps2, paths)
  {
    paths := BelowTwo(p, scope, scope, ps, below, ps1, below1);
    NextBelow(p, 2, scope, scope, ps + ps1, paths, ps2, below2);
    paths := paths + Under(2, below2);
    AllBelow(p, scope, ps + ps1 + ps2, paths);
  }

  lemma FourChildren(p: Part, scope: set<string>, ps: seq<Position>, below: seq<Path>, ps1: seq<Position>,
                     below1: seq<Path>, ps2: seq<Position>, below2: seq<Path>, ps3: seq<Position>, below3: seq<Path>)
    returns (paths: seq<Path>)
    requires |Children(p)| == 4 && Nameless(p) && Bound(p) == {}
    requires Lists(Children(p)[0], scope, ps, below) && Lists(Children(p)[1], scope, ps1, below1)
    requires Lists(Children(p)[2], scope, ps2, below2) && Lists(Children(p)[3], scope, ps3, below3)
    ensures Lists(p, scope, ps + ps1 + ps2 + ps3, paths)
  {
    paths := BelowTwo(p, scope, scope, ps, below, ps1, below1);
    NextBelow(p, 2, scope, scope, ps + ps1, paths, ps2, below2);
    paths := paths + Under(2, below2);
    NextBelow(p, 3, scope, scope, ps + ps1 + ps2, paths, ps3, below3);
    paths := paths + Under(3, below3);
    AllBelow(p, scope, ps + ps1 + ps2 + ps3, paths);
  }

  lemma NextInList(p: Part, n: nat, child: Part, scope: set<string>, ps: seq<Position>, paths: seq<Path>,
                   more: seq<Position>, below: seq<Path>, whole: seq<Position>)
    returns (all: seq<Path>)
    requires n < |Children(p)| && Children(p)[n] == child && Bound(p) == {}
    requires ListsBelow(p, n, scope, ps, paths) && Lists(child, scope, more, below) && whole == ps + more
    ensures ListsBelow(p, n + 1, scope, whole, all)
  {
    NextBelow(p, n, scope, scope, ps, paths, more, below);
    all := paths + Under(n, below);
  }

  // ---------- the walk lists the names ----------

  lemma {:induction false} NamesOfQuery(ctes: seq<Cte>, k: nat)
    requires k <= |ctes|
    ensures CteNames(ctes, k) == set i | 0 <= i < k :: ctes[i].name
  {
    if k > 0 {
      NamesOfQuery(ctes, k - 1);
    }
  }

  lemma {:induction false} QueryLists(q: Query, scope: set<string>) returns (paths: seq<Path>)
    ensures Lists(QueryPart(q), scope, OfQuery(q, scope), paths)
    decreases q, 0
  {
    var inner := scope + CteNames(q.ctes, |q.ctes|);
    NamesOfQuery(q.ctes, |q.ctes|);
    var below := CtesList(q.ctes, inner);
    var below1 := SetLists(q.body, inner);
    paths := TwoChildren(QueryPart(q), scope, inner, OfCtes(q.ctes, |q.ctes|, inner), below,
                         OfSet(q.body, inner), below1);
  }

  lemma {:induction false} CtesList(ctes: seq<Cte>, scope: set<string>) returns (paths: seq<Path>)
    ensures Lists(CtesPart(ctes), scope, OfCtes(ctes, |ctes|, scope), paths)
    decreases ctes, 0
  {
    var p := CtesPart(ctes);
    paths := [];
    for i := 0 to |ctes|
      invariant ListsBelow(p, i, scope, OfCtes(ctes, i, scope), paths)
    {
      var below := QueryLists(ctes[i].query, scope);
      paths := NextInList(p, i, QueryPart(ctes[i].query), scope, OfCtes(ctes, i, scope), paths,
                          OfQuery(ctes[i].query, scope), below, OfCtes(ctes, i + 1, scope));
    }
    AllBelow(p, scope, OfCtes(ctes, |ctes|, scope), paths);
  }

  lemma {:induction false} SetLists(s: SetExpr, scope: set<string>) returns (paths: seq<Path>)
    ensures Lists(SetPart(s), scope, OfSet(s, scope), paths)
    decreases s, 0
  {
    match s
    case Select(from, projection, selection, having) =>
      var below := FromLists(from, scope);
      var below1 := ItemsList(projection, scope);
      var below2 := OptionLists(selection, scope);
      var below3 := OptionLists(having, scope);
      paths := FourChildren(SetPart(s), scope, OfFrom(from, |from|, scope), below,
                            OfItems(projection, |projection|, scope), below1, OfOption(selection, scope), below2,
                            OfOption(having, scope), below3);
    case NestedQuery(q) =>
      var below := QueryLists(q, scope);
      paths := OneChild(SetPart(s), scope, scope, OfQuery(q, scope), below);
    case SetOperation(l, r) =>
      var below := SetLists(l, scope);
      var below1 := SetLists(r, scope);
      paths := TwoChildren(SetPart(s), scope, scope, OfSet(l, scope), below, OfSet(r, scope), below1);
    case TableCommand(schemaName, tableName) =>
      paths := if schemaName.Some? && tableName.Some? then [[]] else [];
      LeafLists(SetPart(s), scope, OfSet(s, scope), paths);
    case OtherSet =>
      paths := [];
      NoChild(SetPart(s), scope);
  }

  /** A node without children lists its own name, if it is one. */
  lemma LeafLists(p: Part, scope: set<string>, ps: seq<Position>, paths: seq<Path>)
    requires Children(p) == [] && Bound(p) == {}
    requires ps == [] ==> paths == [] && Nameless(p)
    requires ps != [] ==> |ps| == 1 && paths == [[]] && ps[0].scope == scope && Names(p, NameOf(ps[0]))
    ensures Lists(p, scope, ps, paths)
  {
    if ps == [] {
      NoChild(p, scope);
    }
  }

  lemma {:induction false} FromLists(from: seq<TableWithJoins>, scope: set<string>) returns (paths: seq<Path>)
    ensures Lists(FromPart(from), scope, OfFrom(from, |from|, scope), paths)
    decreases from, 0
  {
    var p := FromPart(from);
    paths := [];
    for i := 0 to |from|
      invariant ListsBelow(p, i, scope, OfFrom(from, i, scope), paths)
    {
      var below := TableLists(from[i], scope);
      paths := NextInList(p, i, TablePart(from[i]), scope, OfFrom(from, i, scope), paths,
                          OfTable(from[i], scope), below, OfFrom(from, i + 1, scope));
    }
    AllBelow(p, scope, OfFrom(from, |from|, scope), paths);
  }

  lemma {:induction false} TableLists(t: TableWithJoins, scope: set<string>) returns (paths: seq<Path>)
    ensures Lists(TablePart(t), scope, OfTable(t, scope), paths)
    decreases t, 0
  {
    var below := FactorLists(t.relation, scope);
    var below1 := JoinsList(t.joins, scope);
    paths := TwoChildren(TablePart(t), scope, scope, OfFactor(t.relation, scope), below,
                         OfJoins(t.joins, |t.joins|, scope), below1);
  }

  lemma {:induction false} JoinsList(joins: seq<TableFactor>, scope: set<string>) returns (paths: seq<Path>)
    ensures Lists(JoinsPart(joins), scope, OfJoins(joins, |joins|, scope), paths)
    decreases joins, |joins| + 1
  {
    paths := JoinsBelow(joins, |joins|, scope);
    AllBelow(JoinsPart(joins), scope, OfJoins(joins, |joins|, scope), paths);
  }

  lemma {:induction false} JoinsBelow(joins: seq<TableFactor>, k: nat, scope: set<string>) returns (paths: seq<Path>)
    requires k <= |joins|
    ensures ListsBelow(JoinsPart(joins), k, scope, OfJoins(joins, k, scope), paths)
    decreases joins, k
  {
    if k == 0 {
      paths := [];
      NothingBelow(JoinsPart(joins), scope);
    } else {
      paths := JoinsBelow(joins, k - 1, scope);
      var below := FactorLists(joins[k - 1], scope);
      paths := NextJoin(joins, k - 1, scope, paths, below);
    }
  }

  lemma NextJoin(joins: seq<TableFactor>, i: nat, scope: set<string>, paths: seq<Path>, below: seq<Path>)
    returns (all: seq<Path>)
    requires i < |joins| && ListsBelow(JoinsPart(joins), i, scope, OfJoins(joins, i, scope), paths)
    requires Lists(FactorPart(joins[i]), scope, OfFactor(joins[i], scope), below)
    ensures ListsBelow(JoinsPart(joins), i + 1, scope, OfJoins(joins, i + 1, scope), all)
  {
    all := NextInList(JoinsPart(joins), i, FactorPart(joins[i]), scope, OfJoins(joins, i, scope), paths,
                      OfFactor(joins[i], scope), below, OfJoins(joins, i + 1, scope));
  }

  lemma {:induction false} FactorLists(f: TableFactor, scope: set<string>) returns (paths: seq<Path>)
    ensures Lists(FactorPart(f), scope, OfFactor(f, scope), paths)
    decreases f, 0
  {
    match f
    case Table(parts) =>
      var names := Identifiers(parts, |parts|);
      paths := if |names| == 2 then [[]] else [];
      IdentifiersAreTwo(parts);
      LeafLists(FactorPart(f), scope, OfFactor(f, scope), paths);
    case Derived(q) =>
      var below := QueryLists(q, scope);
      paths := OneChild(FactorPart(f), scope, scope, OfQuery(q, scope), below);
    case NestedJoin(t) =>
      var below := TableLists(t, scope);
      paths := OneChild(FactorPart(f), scope, scope, OfTable(t, scope), below);
    case OtherFactor =>
      paths := [];
      NoChild(FactorPart(f), scope);
  }

  lemma {:induction false} ItemsList(items: seq<SelectItem>, scope: set<string>) returns (paths: seq<Path>)
    ensures Lists(ItemsPart(items), scope, OfItems(items, |items|, scope), paths)
    decreases items, 0
  {
    var p := ItemsPart(items);
    paths := [];
    for i := 0 to |items|
      invariant ListsBelow(p, i, scope, OfItems(items, i, scope), paths)
    {
      var below := ItemLists(items[i], scope);
      paths := NextInList(p, i, ItemPart(items[i]), scope, OfItems(items, i, scope), paths,
                          OfItem(items[i], scope), below, OfItems(items, i + 1, scope));
    }
    AllBelow(p, scope, OfItems(items, |items|, scope), paths);
  }

  lemma {:induction false} ItemLists(item: SelectItem, scope: set<string>) returns (paths: seq<Path>)
    ensures Lists(ItemPart(item), scope, OfItem(item, scope), paths)
    decreases item, 0
  {
    if item.Item? {
      var below := ExprLists(item.expr, scope);
      paths := OneChild(ItemPart(item), scope, scope, OfExpr(item.expr, scope), below);
    } else {
      paths := [];
      NoChild(ItemPart(item), scope);
    }
  }

  lemma {:induction false} OptionLists(e: Option<Expr>, scope: set<string>) returns (paths: seq<Path>)
    ensures Lists(OptionPart(e), scope, OfOption(e, scope), paths)
    decreases e, 0
  {
    if e.Some? {
      var below := ExprLists(e.value, scope);
      paths := OneChild(OptionPart(e), scope, scope, OfExpr(e.value, scope), below);
    } else {
      paths := [];
      NoChild(OptionPart(e), scope);
    }
  }

  lemma {:induction false} ExprLists(e: Expr, scope: set<string>) returns (paths: seq<Path>)
    ensures Lists(ExprPart(e), scope, OfExpr(e, scope), paths)
    decreases e, 0
  {
    var p := ExprPart(e);
    match e
    case InSubquery(x, q) =>
      var below := ExprLists(x, scope);
      var below1 := QueryLists(q, scope);
      paths := TwoChildren(p, scope, scope, OfExpr(x, scope), below, OfQuery(q, scope), below1);
    case Subquery(q) =>
      var below := QueryLists(q, scope);
      paths := OneChild(p, scope, scope, OfQuery(q, scope), below);
    case Binary(l, r) =>
      var below := ExprLists(l, scope);
      var below1 := ExprLists(r, scope);
      paths := TwoChildren(p, scope, scope, OfExpr(l, scope), below, OfExpr(r, scope), below1);
    case Unary(x) =>
      var below := ExprLists(x, scope);
      paths := OneChild(p, scope, scope, OfExpr(x, scope), below);
    case InList(x, list) =>
      var below := ExprLists(x, scope);
      var below1 := ExprsList(list, scope);
      paths := TwoChildren(p, scope, scope, OfExpr(x, scope), below, OfExprs(list, |list|, scope), below1);
    case Between(x, low, high) =>
      var below := ExprLists(x, scope);
      var below1 := ExprLists(low, scope);
      var below2 := ExprLists(high, scope);
      paths := ThreeChildren(p, scope, OfExpr(x, scope), below, OfExpr(low, scope), below1,
                             OfExpr(high, scope), below2);
    case Like(x, pattern) =>
      var below := ExprLists(x, scope);
      var below1 := ExprLists(pattern, scope);
      paths := TwoChildren(p, scope, scope, OfExpr(x, scope), below, OfExpr(pattern, scope), below1);
    case Case(operand, conditions, elseResult) =>
      var below := OptionLists(operand, scope);
      var below1 := WhensList(conditions, scope);
      var below2 := OptionLists(elseResult, scope);
      paths := ThreeChildren(p, scope, OfOption(operand, scope), below,
                             OfWhens(conditions, |conditions|, scope), below1, OfOption(elseResult, scope), below2);
    case Tuple(exprs) =>
      var below := ExprsList(exprs, scope);
      paths := OneChild(p, scope, scope, OfExprs(exprs, |exprs|, scope), below);
    case OtherExpr =>
      paths := [];
      NoChild(p, scope);
  }

  lemma {:induction false} ExprsList(es: seq<Expr>, scope: set<string>) returns (paths: seq<Path>)
    ensures Lists(ExprsPart(es), scope, OfExprs(es, |es|, scope), paths)
    decreases es, 0
  {
    var p := ExprsPart(es);
    paths := [];
    for i := 0 to |es|
      invariant ListsBelow(p, i, scope, OfExprs(es, i, scope), paths)
    {
      var below := ExprLists(es[i], scope);
      paths := NextInList(p, i, ExprPart(es[i]), scope, OfExprs(es, i, scope), paths,
                          OfExpr(es[i], scope), below, OfExprs(es, i + 1, scope));
    }
    AllBelow(p, scope, OfExprs(es, |es|, scope), paths);
  }

  lemma {:induction false} WhensList(whens: seq<When>, scope: set<string>) returns (paths: seq<Path>)
    ensures Lists(WhensPart(whens), scope, OfWhens(whens, |whens|, scope), paths)
    decreases whens, 0
  {
    var p := WhensPart(whens);
    paths := [];
    for i := 0 to |whens|
      invariant ListsBelow(p, i, scope, OfWhens(whens, i, scope), paths)
    {
      var below := WhenLists(whens[i], scope);
      paths := NextInList(p, i, WhenPart(whens[i]), scope, OfWhens(whens, i, scope), paths,
                          OfWhen(whens[i], scope), below, OfWhens(whens, i + 1, scope));
    }
    AllBelow(p, scope, OfWhens(whens, |whens|, scope), paths);
  }

  lemma {:induction false} WhenLists(w: When, scope: set<string>) returns (paths: seq<Path>)
    ensures Lists(WhenPart(w), scope, OfWhen(w, scope), paths)
    decreases w, 0
  {
    var below := ExprLists(w.condition, scope);
    var below1 := ExprLists(w.result, scope);
    paths := TwoChildren(WhenPart(w), scope, scope, OfExpr(w.condition, scope), below, OfExpr(w.result, scope), below1);
  }

  // ---------- two-part names ----------

  /** Where the identifiers of a name stand. */
  ghost predicate IdentifiersAt(parts: seq<NamePart>, k: nat, names: seq<string>, at: seq<nat>)
    requires k <= |parts|
  {
    && |names| == |at|
    && (forall m :: 0 <= m < |at| ==> at[m] < k && parts[at[m]] == Identifier(names[m]))
    && (forall m, n :: 0 <= m < n < |at| ==> at[m] < at[n])
    && forall i :: 0 <= i < k && parts[i].Identifier? ==> i in at
  }

  lemma {:induction false} IdentifiersStand(parts: seq<NamePart>, k: nat) returns (at: seq<nat>)
    requires k <= |parts|
    ensures IdentifiersAt(parts, k, Identifiers(parts, k), at)
  {
    at := [];
    if k > 0 {
      at := IdentifiersStand(parts, k - 1);
      var names := Identifiers(parts, k - 1);
      IdentifierNext(parts, k - 1, names, at);
      assert names + [] == names;
      if parts[k - 1].Identifier? {
        at := at + [k - 1];
      }
    }
  }

  lemma IdentifierNext(parts: seq<NamePart>, k: nat, names: seq<string>, at: seq<nat>)
    requires k < |parts| && IdentifiersAt(parts, k, names, at)
    ensures parts[k].Identifier? ==> IdentifiersAt(parts, k + 1, names + [parts[k].value], at + [k])
    ensures !parts[k].Identifier? ==> IdentifiersAt(parts, k + 1, names, at)
  {}

  /** A name has two identifiers exactly if the walk finds two. */
  lemma IdentifiersAreTwo(parts: seq<NamePart>)
    ensures var names := Identifiers(parts, |parts|);
            && (|names| == 2 ==> TwoIdentifiers(parts, names[0], names[1]))
            && (forall a, b :: TwoIdentifiers(parts, a, b) ==> names == [a, b])
  {
    var names := Identifiers(parts, |parts|);
    var at := IdentifiersStand(parts, |parts|);
    if |names| == 2 {
      TwoStand(parts, names, at);
    }
    forall a, b | TwoIdentifiers(parts, a, b) ensures names == [a, b] {
      var i, j :| && 0 <= i < j < |parts| && parts[i] == Identifier(a) && parts[j] == Identifier(b)
                  && forall k :: 0 <= k < |parts| && k != i && k != j ==> parts[k].FunctionPart?;
      OnlyTwo(parts, |parts|, i, j);
    }
  }

  lemma TwoStand(parts: seq<NamePart>, names: seq<string>, at: seq<nat>)
    requires |names| == 2 && IdentifiersAt(parts, |parts|, names, at)
    ensures TwoIdentifiers(parts, names[0], names[1])
  {
    var i, j := at[0], at[1];
    assert parts[i] == Identifier(names[0]) && parts[j] == Identifier(names[1]);
    forall k | 0 <= k < |parts| && k != i && k != j ensures parts[k].FunctionPart? {
      assert parts[k].Identifier? ==> k in at;
    }
  }

  lemma {:induction false} OnlyTwo(parts: seq<NamePart>, k: nat, i: nat, j: nat)
    requires i < j < |parts| && k <= |parts| && parts[i].Identifier? && parts[j].Identifier?
    requires forall l :: 0 <= l < |parts| && l != i && l != j ==> parts[l].FunctionPart?
    ensures Identifiers(parts, k) == (if i < k then [parts[i].value] else []) + (if j < k then [parts[j].value] else [])
  {
    if k > 0 {
      OnlyTwo(parts, k - 1, i, j);
    }
  }

  // ---------- what is collected ----------

  lemma {:induction false} StatementsList(statements: seq<Statement>) returns (paths: seq<Path>)
    ensures Lists(StatementsPart(statements), {}, OfStatements(statements, |statements|), paths)
  {
    var p := StatementsPart(statements);
    paths := [];
    for i := 0 to |statements|
      invariant ListsBelow(p, i, {}, OfStatements(statements, i), paths)
    {
      var s := statements[i];
      var more := if s.QueryStatement? then OfQuery(s.query, {}) else [];
      var below := StatementLists(s, more);
      paths := NextInList(p, i, StatementPart(s), {}, OfStatements(statements, i), paths, more, below,
                          OfStatements(statements, i + 1));
    }
    AllBelow(p, {}, OfStatements(statements, |statements|), paths);
  }

  lemma StatementLists(s: Statement, ps: seq<Position>) returns (paths: seq<Path>)
    requires ps == if s.QueryStatement? then OfQuery(s.query, {}) else []
    ensures Lists(StatementPart(s), {}, ps, paths)
  {
    if s.QueryStatement? {
      var below := QueryLists(s.query, {});
      paths := OneChild(StatementPart(s), {}, {}, ps, below);
    } else {
      paths := [];
      NoChild(StatementPart(s), {});
    }
  }

  /** The indices at which the references were added: the first visible position of each name. */
  ghost predicate FirstAt(ps: seq<Position>, refs: seq<Ref>, at: seq<nat>) {
    && |at| == |refs|
    && (forall k, l :: 0 <= k < l < |at| ==> at[k] < at[l])
    && (forall k :: 0 <= k < |at| ==> at[k] < |ps| && Shows(ps[at[k]], refs[k]))
    && forall i, r :: 0 <= i < |ps| && Shows(ps[i], r) ==> KnownBy(refs, at, i, r)
  }

  ghost predicate KnownBy(refs: seq<Ref>, at: seq<nat>, i: nat, r: Ref) {
    exists k :: 0 <= k < |refs| == |at| && refs[k] == r && at[k] <= i
  }

  /** The position has that name, and its schema's name is not in scope as a CTE. */
  predicate Shows(p: Position, r: Ref) { NameOf(p) == r && p.schemaName !in p.scope }

  lemma {:induction false} AddedAtFirst(ps: seq<Position>) returns (at: seq<nat>)
    ensures FirstAt(ps, Added([], ps), at)
    decreases |ps|
  {
    at := [];
    if ps != [] {
      var n := |ps| - 1;
      at := AddedAtFirst(ps[..n]);
      AddedNext(ps, n, Added([], ps[..n]), at);
      if Added([], ps) != Added([], ps[..n]) {
        at := at + [n];
      }
    }
  }

  lemma AddedNext(ps: seq<Position>, n: nat, refs: seq<Ref>, at: seq<nat>)
    requires |ps| == n + 1 && FirstAt(ps[..n], refs, at)
    ensures AddOne(refs, ps[n]) == refs ==> FirstAt(ps, refs, at)
    ensures AddOne(refs, ps[n]) != refs ==> FirstAt(ps, AddOne(refs, ps[n]), at + [n])
  {
    var p := ps[n];
    if AddOne(refs, p) == refs {
      KnownNext(ps, n, refs, at);
    } else {
      NewNext(ps, n, refs, at);
    }
  }

  lemma KnownNext(ps: seq<Position>, n: nat, refs: seq<Ref>, at: seq<nat>)
    requires |ps| == n + 1 && FirstAt(ps[..n], refs, at) && AddOne(refs, ps[n]) == refs
    ensures FirstAt(ps, refs, at)
  {
    forall i, r | 0 <= i < |ps| && Shows(ps[i], r) ensures KnownBy(refs, at, i, r) {
      if i < n {
        assert Shows(ps[..n][i], r);
      } else {
        assert (refs + [r])[|refs|] == r && r in refs;
      }
    }
  }

  lemma NewNext(ps: seq<Position>, n: nat, refs: seq<Ref>, at: seq<nat>)
    requires |ps| == n + 1 && FirstAt(ps[..n], refs, at) && AddOne(refs, ps[n]) != refs
    ensures FirstAt(ps, AddOne(refs, ps[n]), at + [n])
  {
    var r := NameOf(ps[n]);
    assert AddOne(refs, ps[n]) == refs + [r];
    ShownStay(ps, n, refs, at);
    forall i, other | 0 <= i < |ps| && Shows(ps[i], other) ensures KnownBy(refs + [r], at + [n], i, other) {
      KnownNow(ps, n, refs, at, r, i, other);
    }
    NextIsLast(ps, n, refs, at, r);
  }

  lemma ShownStay(ps: seq<Position>, n: nat, refs: seq<Ref>, at: seq<nat>)
    requires |ps| == n + 1 && FirstAt(ps[..n], refs, at)
    ensures forall k :: 0 <= k < |at| ==> at[k] < n && Shows(ps[at[k]], refs[k])
  {
    forall k | 0 <= k < |at| ensures at[k] < n && Shows(ps[at[k]], refs[k]) {
      assert ps[..n][at[k]] == ps[at[k]];
    }
  }

  lemma KnownNow(ps: seq<Position>, n: nat, refs: seq<Ref>, at: seq<nat>, r: Ref, i: nat, other: Ref)
    requires |ps| == n + 1 && FirstAt(ps[..n], refs, at) && Shows(ps[n], r) && i < |ps| && Shows(ps[i], other)
    ensures KnownBy(refs + [r], at + [n], i, other)
  {
    if i < n {
      assert Shows(ps[..n][i], other);
      StillKnown(refs, at, i, other, r, n);
    } else {
      assert (refs + [r])[|refs|] == other && (at + [n])[|refs|] == n;
    }
  }

  lemma NextIsLast(ps: seq<Position>, n: nat, refs: seq<Ref>, at: seq<nat>, r: Ref)
    requires |ps| == n + 1 && |at| == |refs| && Shows(ps[n], r)
    requires forall k, l :: 0 <= k < l < |at| ==> at[k] < at[l]
    requires forall k :: 0 <= k < |at| ==> at[k] < n && Shows(ps[at[k]], refs[k])
    requires forall i, other :: 0 <= i < |ps| && Shows(ps[i], other) ==> KnownBy(refs + [r], at + [n], i, other)
    ensures FirstAt(ps, refs + [r], at + [n])
  {}

  lemma StillKnown(refs: seq<Ref>, at: seq<nat>, i: nat, r: Ref, last: Ref, n: nat)
    requires KnownBy(refs, at, i, r)
    ensures KnownBy(refs + [last], at + [n], i, r)
  {
    var k :| 0 <= k < |refs| == |at| && refs[k] == r && at[k] <= i;
    assert (refs + [last])[k] == r && (at + [n])[k] <= i;
  }

  /** The name stands at the end of the path, and no query on the path has a CTE of its schema's name. */
  ghost predicate VisibleAt(p: Part, path: Path, r: Ref) { NamesAt(p, path, r) && !Hidden(p, path, r) }

  /** The paths are in order, each is the first on which its reference is visible, and none is missing. */
  ghost predicate FirstPaths(p: Part, refs: seq<Ref>, firsts: seq<Path>) {
    && |firsts| == |refs| && Ascending(firsts)
    && (forall k :: 0 <= k < |refs| ==> VisibleAt(p, firsts[k], refs[k]))
    && forall path, r :: VisibleAt(p, path, r) ==> CollectedBy(refs, firsts, path, r)
  }

  /** The reference is collected, on this path at the latest. */
  ghost predicate CollectedBy(refs: seq<Ref>, firsts: seq<Path>, path: Path, r: Ref) {
    exists k :: 0 <= k < |refs| == |firsts| && refs[k] == r && (path == firsts[k] || Before(firsts[k], path))
  }

  /**
   * A reference is collected if and only if its name stands somewhere in the statements where no enclosing query
   * has a CTE of its schema's name; and references come in the order of the first such places.
   */
  lemma CollectedByPaths(statements: seq<Statement>) returns (firsts: seq<Path>)
    ensures FirstPaths(StatementsPart(statements), Added([], OfStatements(statements, |statements|)), firsts)
  {
    var p, ps := StatementsPart(statements), OfStatements(statements, |statements|);
    var refs := Added([], ps);
    var paths := StatementsList(statements);
    var at := AddedAtFirst(ps);
    firsts := seq(|at|, k requires 0 <= k < |at| => paths[at[k]]);
    FirstsAreFirst(p, ps, paths, refs, at, firsts);
  }

  lemma SameName(p: Part, path: Path, scope: set<string>, position: Position, r: Ref)
    requires StandsAs(p, path, scope, position) && NamesAt(p, path, r)
    ensures NameOf(position) == r
  {
    var node := At(p, path).value;
    if node.FactorPart? {
      IdentifiersAreTwo(node.factor.parts);
    }
  }

  lemma FirstsAreFirst(p: Part, ps: seq<Position>, paths: seq<Path>, refs: seq<Ref>, at: seq<nat>, firsts: seq<Path>)
    requires Lists(p, {}, ps, paths) && FirstAt(ps, refs, at)
    requires |firsts| == |at| && forall k :: 0 <= k < |at| ==> firsts[k] == paths[at[k]]
    ensures FirstPaths(p, refs, firsts)
  {
    forall k | 0 <= k < |refs| ensures VisibleAt(p, firsts[k], refs[k]) {
      assert StandsAs(p, paths[at[k]], {}, ps[at[k]]) && Shows(ps[at[k]], refs[k]);
    }
    forall k, l | 0 <= k < l < |firsts| ensures Before(firsts[k], firsts[l]) {
      assert Before(paths[at[k]], paths[at[l]]);
    }
    forall path, r | VisibleAt(p, path, r) ensures CollectedBy(refs, firsts, path, r) {
      VisibleIsCollected(p, ps, paths, refs, at, firsts, path, r);
    }
  }

  lemma VisibleIsCollected(p: Part, ps: seq<Position>, paths: seq<Path>, refs: seq<Ref>, at: seq<nat>,
                           firsts: seq<Path>, path: Path, r: Ref)
    requires Lists(p, {}, ps, paths) && FirstAt(ps, refs, at)
    requires |firsts| == |at| && forall k :: 0 <= k < |at| ==> firsts[k] == paths[at[k]]
    requires VisibleAt(p, path, r)
    ensures CollectedBy(refs, firsts, path, r)
  {
    var i :| 0 <= i < |paths| && paths[i] == path;
    SameName(p, path, {}, ps[i], r);
    ShownIsCollected(ps, paths, refs, at, firsts, i, r);
  }

  lemma ShownIsCollected(ps: seq<Position>, paths: seq<Path>, refs: seq<Ref>, at: seq<nat>, firsts: seq<Path>,
                         i: nat, r: Ref)
    requires |ps| == |paths| && Ascending(paths) && FirstAt(ps, refs, at) && i < |ps| && Shows(ps[i], r)
    requires |firsts| == |at| && forall k :: 0 <= k < |at| ==> firsts[k] == paths[at[k]]
    ensures CollectedBy(refs, firsts, paths[i], r)
  {
    assert KnownBy(refs, at, i, r);
    var k :| 0 <= k < |refs| == |at| && refs[k] == r && at[k] <= i;
    assert at[k] == i || Before(paths[at[k]], paths[i]);
  }
}
