/** What the collected references are, and how CTE names take some away. */
module TableRefProofs {
  import opened Common
  import opened TableRefs

  function NameOf(p: Position): Ref { Ref(p.schemaName, p.tableName) }

  /** The names at the positions where no CTE hides them. */
  function Unshadowed(ps: seq<Position>): seq<Ref> {
    if ps == [] then []
    else
      var last := ps[|ps| - 1];
      Unshadowed(ps[..|ps| - 1]) + (if last.schemaName in last.scope then [] else [NameOf(last)])
  }

  /** The references are the unshadowed names, each once, in the order of their first occurrence. */
  lemma {:induction false} CollectedAreFirstOccurrences(ps: seq<Position>)
    ensures Added([], ps) == FirstOccurrences(Unshadowed(ps))
    decreases ps
  {
    if ps != [] {
      var init, p := ps[..|ps| - 1], ps[|ps| - 1];
      CollectedAreFirstOccurrences(init);
      if p.schemaName in p.scope {
        assert Unshadowed(ps) == Unshadowed(init) + [] == Unshadowed(init);
      } else {
        assert (Unshadowed(init) + [NameOf(p)])[..|Unshadowed(init)|] == Unshadowed(init);
      }
    }
  }

  lemma {:induction false} UnshadowedHas(ps: seq<Position>, r: Ref)
    ensures r in Unshadowed(ps) <==> exists i :: 0 <= i < |ps| && NameOf(ps[i]) == r && ps[i].schemaName !in ps[i].scope
    decreases ps
  {
    if ps != [] {
      var init := ps[..|ps| - 1];
      UnshadowedHas(init, r);
      if i :| 0 <= i < |init| && NameOf(init[i]) == r && init[i].schemaName !in init[i].scope {
        assert ps[i] == init[i];
      }
    }
  }

  /** A name is collected exactly if it stands at some visited position where no CTE has its schema's name. */
  lemma {:induction false} CollectedExactly(ps: seq<Position>, r: Ref)
    ensures NoDup(Added([], ps))
    ensures r in Added([], ps) <==> exists i :: 0 <= i < |ps| && NameOf(ps[i]) == r && ps[i].schemaName !in ps[i].scope
  {
    CollectedAreFirstOccurrences(ps);
    FirstOccurrencesElements(Unshadowed(ps));
    UnshadowedHas(ps, r);
    assert r in Elements(FirstOccurrences(Unshadowed(ps))) <==> r in Elements(Unshadowed(ps));
  }

  // ---------- larger scopes ----------

  function Widened(ps: seq<Position>, more: set<string>): seq<Position> {
    seq(|ps|, i requires 0 <= i < |ps| => ps[i].(scope := ps[i].scope + more))
  }

  lemma WidenedAppend(a: seq<Position>, b: seq<Position>, more: set<string>)
    ensures Widened(a + b, more) == Widened(a, more) + Widened(b, more)
  {}

  lemma WidenedThree(a: seq<Position>, b: seq<Position>, c: seq<Position>, more: set<string>)
    ensures Widened(a + b + c, more) == Widened(a, more) + Widened(b, more) + Widened(c, more)
  {
    WidenedAppend(a + b, c, more);
    WidenedAppend(a, b, more);
  }

  lemma {:induction false} QueryWidens(q: Query, scope: set<string>, more: set<string>)
    ensures OfQuery(q, scope + more) == Widened(OfQuery(q, scope), more)
    decreases q, 0
  {
    var names := CteNames(q.ctes, |q.ctes|);
    assert scope + more + names == (scope + names) + more;
    CtesWiden(q.ctes, |q.ctes|, scope + names, more);
    SetWidens(q.body, scope + names, more);
  }

  lemma {:induction false} CtesWiden(ctes: seq<Cte>, k: nat, scope: set<string>, more: set<string>)
    requires k <= |ctes|
    ensures OfCtes(ctes, k, scope + more) == Widened(OfCtes(ctes, k, scope), more)
    decreases ctes, k
  {
    if k > 0 {
      CtesWiden(ctes, k - 1, scope, more);
      QueryWidens(ctes[k - 1].query, scope, more);
    }
  }

  lemma {:induction false} SetWidens(s: SetExpr, scope: set<string>, more: set<string>)
    ensures OfSet(s, scope + more) == Widened(OfSet(s, scope), more)
    decreases s, 0
  {
    match s
    case Select(from, projection, selection, having) =>
      FromWidens(from, |from|, scope, more);
      ItemsWiden(projection, |projection|, scope, more);
      OptionWidens(selection, scope, more);
      OptionWidens(having, scope, more);
    case NestedQuery(q) => QueryWidens(q, scope, more);
    case SetOperation(l, r) =>
      SetWidens(l, scope, more);
      SetWidens(r, scope, more);
    case _ =>
  }

  lemma {:induction false} FromWidens(tables: seq<TableWithJoins>, k: nat, scope: set<string>, more: set<string>)
    requires k <= |tables|
    ensures OfFrom(tables, k, scope + more) == Widened(OfFrom(tables, k, scope), more)
    decreases tables, k
  {
    if k > 0 {
      FromWidens(tables, k - 1, scope, more);
      TableWidens(tables[k - 1], scope, more);
    }
  }

  lemma {:induction false} TableWidens(t: TableWithJoins, scope: set<string>, more: set<string>)
    ensures OfTable(t, scope + more) == Widened(OfTable(t, scope), more)
    decreases t, 0
  {
    FactorWidens(t.relation, scope, more);
    JoinsWiden(t.joins, |t.joins|, scope, more);
  }

  lemma {:induction false} JoinsWiden(joins: seq<TableFactor>, k: nat, scope: set<string>, more: set<string>)
    requires k <= |joins|
    ensures OfJoins(joins, k, scope + more) == Widened(OfJoins(joins, k, scope), more)
    decreases joins, k
  {
    if k > 0 {
      JoinsWiden(joins, k - 1, scope, more);
      FactorWidens(joins[k - 1], scope, more);
    }
  }

  lemma {:induction false} FactorWidens(f: TableFactor, scope: set<string>, more: set<string>)
    ensures OfFactor(f, scope + more) == Widened(OfFactor(f, scope), more)
    decreases f, 0
  {
    match f
    case Derived(q) => QueryWidens(q, scope, more);
    case NestedJoin(t) => TableWidens(t, scope, more);
    case _ =>
  }

  lemma {:induction false} ItemsWiden(items: seq<SelectItem>, k: nat, scope: set<string>, more: set<string>)
    requires k <= |items|
    ensures OfItems(items, k, scope + more) == Widened(OfItems(items, k, scope), more)
    decreases items, k
  {
    if k > 0 {
      ItemsWiden(items, k - 1, scope, more);
      ItemWidens(items[k - 1], scope, more);
    }
  }

  lemma {:induction false} ItemWidens(item: SelectItem, scope: set<string>, more: set<string>)
    ensures OfItem(item, scope + more) == Widened(OfItem(item, scope), more)
    decreases item, 0
  {
    if item.Item? {
      ExprWidens(item.expr, scope, more);
    }
  }

  lemma {:induction false} OptionWidens(e: Option<Expr>, scope: set<string>, more: set<string>)
    ensures OfOption(e, scope + more) == Widened(OfOption(e, scope), more)
    decreases e, 0
  {
    match e case None => case Some(x) => ExprWidens(x, scope, more);
  }

  lemma {:induction false} ExprWidens(e: Expr, scope: set<string>, more: set<string>)
    ensures OfExpr(e, scope + more) == Widened(OfExpr(e, scope), more)
    decreases e, 0
  {
    match e
    case InSubquery(x, q) =>
      ExprWidens(x, scope, more); QueryWidens(q, scope, more);
      WidenedAppend(OfExpr(x, scope), OfQuery(q, scope), more);
    case Subquery(q) => QueryWidens(q, scope, more);
    case Binary(l, r) =>
      ExprWidens(l, scope, more); ExprWidens(r, scope, more);
      WidenedAppend(OfExpr(l, scope), OfExpr(r, scope), more);
    case Unary(x) => ExprWidens(x, scope, more);
    case InList(x, list) =>
      ExprWidens(x, scope, more); ExprsWiden(list, |list|, scope, more);
      WidenedAppend(OfExpr(x, scope), OfExprs(list, |list|, scope), more);
    case Between(x, low, high) =>
      ExprWidens(x, scope, more); ExprWidens(low, scope, more); ExprWidens(high, scope, more);
      WidenedThree(OfExpr(x, scope), OfExpr(low, scope), OfExpr(high, scope), more);
    case Like(x, p) =>
      ExprWidens(x, scope, more); ExprWidens(p, scope, more);
      WidenedAppend(OfExpr(x, scope), OfExpr(p, scope), more);
    case Case(operand, conditions, elseResult) =>
      OptionWidens(operand, scope, more);
      WhensWiden(conditions, |conditions|, scope, more);
      OptionWidens(elseResult, scope, more);
      WidenedThree(OfOption(operand, scope), OfWhens(conditions, |conditions|, scope),
                   OfOption(elseResult, scope), more);
    case Tuple(exprs) => ExprsWiden(exprs, |exprs|, scope, more);
    case OtherExpr =>
  }

  lemma {:induction false} ExprsWiden(es: seq<Expr>, k: nat, scope: set<string>, more: set<string>)
    requires k <= |es|
    ensures OfExprs(es, k, scope + more) == Widened(OfExprs(es, k, scope), more)
    decreases es, k
  {
    if k > 0 {
      ExprsWiden(es, k - 1, scope, more);
      ExprWidens(es[k - 1], scope, more);
    }
  }

  lemma {:induction false} WhensWiden(whens: seq<When>, k: nat, scope: set<string>, more: set<string>)
    requires k <= |whens|
    ensures OfWhens(whens, k, scope + more) == Widened(OfWhens(whens, k, scope), more)
    decreases whens, k
  {
    if k > 0 {
      WhensWiden(whens, k - 1, scope, more);
      WhenWidens(whens[k - 1], scope, more);
    }
  }

  lemma {:induction false} WhenWidens(w: When, scope: set<string>, more: set<string>)
    ensures OfWhen(w, scope + more) == Widened(OfWhen(w, scope), more)
    decreases w, 0
  {
    ExprWidens(w.condition, scope, more);
    ExprWidens(w.result, scope, more);
  }

  // ---------- what a larger scope removes ----------

  function Outside(refs: seq<Ref>, more: set<string>): seq<Ref> {
    if refs == [] then []
    else
      Outside(refs[..|refs| - 1], more) + (if refs[|refs| - 1].alias in more then [] else [refs[|refs| - 1]])
  }

  lemma {:induction false} OutsideHas(refs: seq<Ref>, more: set<string>, r: Ref)
    ensures r in Outside(refs, more) <==> r in refs && r.alias !in more
    decreases refs
  {
    if refs != [] {
      OutsideHas(refs[..|refs| - 1], more, r);
    }
  }

  lemma {:induction false} WidenedCollects(ps: seq<Position>, more: set<string>)
    ensures Added([], Widened(ps, more)) == Outside(Added([], ps), more)
    decreases ps
  {
    if ps != [] {
      var init, p := ps[..|ps| - 1], ps[|ps| - 1];
      var wide := Widened(ps, more);
      assert wide[..|wide| - 1] == Widened(init, more);
      WidenedCollects(init, more);
      var refs, r := Added([], init), NameOf(p);
      OutsideHas(refs, more, r);
      if r !in refs {
        assert (refs + [r])[..|refs|] == refs;
      }
    }
  }

  /** CTE names added to the scope of a query take away exactly the references with those schema names. */
  lemma LargerScopesOnlyRemove(q: Query, scope: set<string>, more: set<string>)
    ensures Added([], OfQuery(q, scope + more)) == Outside(Added([], OfQuery(q, scope)), more)
  {
    QueryWidens(q, scope, more);
    WidenedCollects(OfQuery(q, scope), more);
  }

  // ---------- names that are not CTEs ----------

  /** All names at visited positions, whether or not a CTE has their schema's name. */
  function AllNames(ps: seq<Position>): seq<Ref> { seq(|ps|, i requires 0 <= i < |ps| => NameOf(ps[i])) }

  /**
   * In SQL a two-part name does not denote a CTE, yet one whose schema shares a CTE's name is dropped. Nothing is
   * lost exactly if every visited name has a visited position outside the scope of such a CTE.
   */
  lemma NothingIsLost(ps: seq<Position>)
    ensures Elements(Added([], ps)) == Elements(AllNames(ps)) <==>
              forall i :: 0 <= i < |ps| ==> VisibleSomewhere(ps, NameOf(ps[i]))
  {
    forall r: Ref ensures r in Elements(Added([], ps)) <==> VisibleSomewhere(ps, r) {
      CollectedExactly(ps, r);
    }
    var all := AllNames(ps);
    forall i | 0 <= i < |ps| ensures NameOf(ps[i]) in Elements(all) {
      assert all[i] == NameOf(ps[i]);
    }
  }

  ghost predicate VisibleSomewhere(ps: seq<Position>, r: Ref) {
    exists i :: 0 <= i < |ps| && NameOf(ps[i]) == r && ps[i].schemaName !in ps[i].scope
  }

  function TwoPart(schemaName: string, tableName: string): TableFactor {
    Table([Identifier(schemaName), Identifier(tableName)])
  }

  lemma TwoPartPosition(schemaName: string, tableName: string, scope: set<string>)
    ensures OfFactor(TwoPart(schemaName, tableName), scope) == [Position(schemaName, tableName, scope)]
  {
    var parts := [Identifier(schemaName), Identifier(tableName)];
    assert Identifiers(parts, 1) == [schemaName];
    assert Identifiers(parts, 2) == [schemaName, tableName];
  }

  /** `SELECT ... FROM factor`. */
  function SelectFrom(factor: TableFactor): SetExpr { Select([TableWithJoins(factor, [])], [], None, None) }

  lemma SelectFromPositions(factor: TableFactor, scope: set<string>)
    ensures OfSet(SelectFrom(factor), scope) == OfFactor(factor, scope)
  {
    var from, ps := [TableWithJoins(factor, [])], OfFactor(factor, scope);
    assert OfTable(from[0], scope) == ps + [] == ps;
    assert OfFrom(from, 0, scope) == [];
    assert OfFrom(from, 1, scope) == [] + ps == ps;
    assert OfSet(SelectFrom(factor), scope) == ps + [] + [] + [];
  }

  /** A query that reads a table of a schema finds no reference to it once a CTE has the schema's name. */
  lemma SchemaNamedLikeACteIsLost(cte: Query, schemaName: string, tableName: string)
    requires Added([], OfQuery(cte, {schemaName})) == []
    ensures Added([], OfQuery(Query([Cte(schemaName, cte)], SelectFrom(TwoPart(schemaName, tableName))), {})) == []
  {
    var scope, ctes := {schemaName}, [Cte(schemaName, cte)];
    var body, p := SelectFrom(TwoPart(schemaName, tableName)), Position(schemaName, tableName, {schemaName});
    assert {} + CteNames(ctes, 1) == scope;
    TwoPartPosition(schemaName, tableName, scope);
    SelectFromPositions(TwoPart(schemaName, tableName), scope);
    assert OfCtes(ctes, 1, scope) == [] + OfQuery(cte, scope) == OfQuery(cte, scope);
    AddedAppend([], OfQuery(cte, scope), [p]);
  }
}
