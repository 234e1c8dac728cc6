/** Printing pushed-down filters as SQLite text, and reading such text with the precedences of SQLite. */
module SqlFilters {
  import opened Common
  import opened Decimals

  datatype Operator = Eq | NotEq | Lt | LtEq | Gt | GtEq | And | Or | OtherOperator

  /** A literal; typed NULLs are all printed alike. */
  datatype Literal = Null | Bool(b: bool) | Int(n: int) | Text(s: string) | OtherLiteral

  /**
   * A filter expression. `Is` is SQL's null-safe comparison, which the printer does not support but
   * which `IS` followed by anything but NULL is read as.
   */
  datatype Expr =
    | Column(name: string)
    | Constant(value: Literal)
    | Binary(left: Expr, op: Operator, right: Expr)
    | IsNull(arg: Expr)
    | IsNotNull(arg: Expr)
    | Not(arg: Expr)
    | Is(left: Expr, right: Expr, negated: bool)
    | OtherExpr

  // ---------- printing ----------

  /** `s.replace(q, qq)`. */
  function Doubled(q: char, s: string): string {
    if s == "" then "" else (if s[0] == q then [q, q] else [s[0]]) + Doubled(q, s[1..])
  }

  function Quoted(q: char, s: string): string { [q] + Doubled(q, s) + [q] }

  datatype SqlDialectKind = Sqlite | Postgres | Mysql | Mariadb

  function QuoteChar(dialect: SqlDialectKind): char { if dialect.Postgres? then '"' else '`' }

  function QuoteIdentifier(name: string, dialect: SqlDialectKind): string { Quoted(QuoteChar(dialect), name) }

  function SqlLiteral(s: string): string { Quoted('\'', s) }

  function OperatorToSql(op: Operator): Option<string> {
    match op
    case Eq => Some("=")
    case NotEq => Some("<>")
    case Lt => Some("<")
    case LtEq => Some("<=")
    case Gt => Some(">")
    case GtEq => Some(">=")
    case And => Some("AND")
    case Or => Some("OR")
    case OtherOperator => None
  }

  function ScalarValueToSql(v: Literal): Option<string> {
    match v
    case Bool(b) => Some(if b then "TRUE" else "FALSE")
    case Int(n) => Some(Signed(n))
    case Text(s) => Some(SqlLiteral(s))
    case Null => Some("NULL")
    case OtherLiteral => None
  }

  function PhysicalExprToSql(e: Expr): Option<string> {
    match e
    case Column(name) => Some(QuoteIdentifier(name, Sqlite))
    case Constant(v) => ScalarValueToSql(v)
    case Binary(l, op, r) => (
      match (PhysicalExprToSql(l), PhysicalExprToSql(r), OperatorToSql(op))
      case (Some(left), Some(right), Some(o)) => Some("(" + left + " " + o + " " + right + ")")
      case _ => None)
    case IsNull(a) => (match PhysicalExprToSql(a) case Some(inner) => Some(inner + " IS NULL") case None => None)
    case IsNotNull(a) => (match PhysicalExprToSql(a) case Some(inner) => Some(inner + " IS NOT NULL") case None => None)
    case Not(a) => (match PhysicalExprToSql(a) case Some(inner) => Some("NOT (" + inner + ")") case None => None)
    case Is(_, _, _) => None
    case OtherExpr => None
  }

  /** A filter is an expression, or one that is still being computed and is skipped. */
  datatype Filter = Static(expr: Expr) | Dynamic

  datatype FilterError = Unsupported(expr: Expr)

  function StaticExprs(filters: seq<Filter>): seq<Expr> {
    if filters == [] then []
    else
      var last := filters[|filters| - 1];
      StaticExprs(filters[..|filters| - 1]) + (if last.Static? then [last.expr] else [])
  }

  function JoinAnd(conditions: seq<string>): string
    requires conditions != []
  {
    if |conditions| == 1 then conditions[0]
    else JoinAnd(conditions[..|conditions| - 1]) + " AND " + conditions[|conditions| - 1]
  }

  ghost predicate Conditions(conditions: seq<string>, es: seq<Expr>) {
    |conditions| == |es| && forall i :: 0 <= i < |es| ==> PhysicalExprToSql(es[i]) == Some(conditions[i])
  }

  /** The condition to add to a query, if any: the static filters in conjunction. */
  method ApplyPhysicalFilters(filters: seq<Filter>) returns (r: Result<Option<string>, FilterError>)
    ensures r.Ok? ==>
              var es := StaticExprs(filters);
              if es == [] then r.value.None?
              else r.value.Some? && exists cs :: Conditions(cs, es) && cs != [] && r.value.value == JoinAnd(cs)
    ensures r.Err? ==> r.error.expr in StaticExprs(filters) && PhysicalExprToSql(r.error.expr).None?
  {
    var conditions: seq<string> := [];
    for i := 0 to |filters|
      invariant Conditions(conditions, StaticExprs(filters[..i]))
      invariant forall e :: e in StaticExprs(filters[..i]) ==> e in StaticExprs(filters)
    {
      StaticPrefix(filters, i);
      if filters[i].Dynamic? {
        continue;
      }
      var condition := PhysicalExprToSql(filters[i].expr);
      if condition.None? {
        return Err(Unsupported(filters[i].expr));
      }
      conditions := conditions + [condition.value];
    }
    assert filters[..|filters|] == filters;
    if conditions == [] {
      return Ok(None);
    }
    return Ok(Some(JoinAnd(conditions)));
  }

  lemma StaticPrefix(filters: seq<Filter>, i: nat)
    requires i < |filters|
    ensures StaticExprs(filters[..i + 1]) ==
              StaticExprs(filters[..i]) + (if filters[i].Static? then [filters[i].expr] else [])
    ensures filters[i].Static? ==> filters[i].expr in StaticExprs(filters)
    decreases |filters| - i
  {
    assert filters[..i + 1][..i] == filters[..i];
    if i == |filters| - 1 {
      assert filters[..i + 1] == filters;
    } else {
      StaticGrows(filters, i + 1, |filters|);
      assert filters[..|filters|] == filters;
    }
  }

  lemma {:induction false} StaticGrows(filters: seq<Filter>, i: nat, j: nat)
    requires i <= j <= |filters|
    ensures StaticExprs(filters[..i]) <= StaticExprs(filters[..j])
    decreases j
  {
    if i < j {
      assert filters[..j][..j - 1] == filters[..j - 1];
      StaticGrows(filters, i, j - 1);
    }
  }

  /** The filters `at` are the static ones, in order, and these are their expressions. */
  ghost predicate StaticAt(filters: seq<Filter>, es: seq<Expr>, at: seq<nat>) {
    && |es| == |at|
    && (forall k, l :: 0 <= k < l < |at| ==> at[k] < at[l])
    && (forall k :: 0 <= k < |at| ==> at[k] < |filters| && filters[at[k]] == Static(es[k]))
    && forall i :: 0 <= i < |filters| && filters[i].Static? ==> i in at
  }

  /** Every static filter is in the conjunction, once and in its place; a dynamic one is not. */
  lemma {:induction false} StaticsStand(filters: seq<Filter>) returns (at: seq<nat>)
    ensures StaticAt(filters, StaticExprs(filters), at)
    decreases |filters|
  {
    at := [];
    if filters != [] {
      var n := |filters| - 1;
      at := StaticsStand(filters[..n]);
      NextStatic(filters, n, StaticExprs(filters[..n]), at);
      if filters[n].Static? {
        at := at + [n];
      }
    }
  }

  lemma NextStatic(filters: seq<Filter>, n: nat, es: seq<Expr>, at: seq<nat>)
    requires |filters| == n + 1 && StaticAt(filters[..n], es, at)
    ensures filters[n].Static? ==> StaticAt(filters, es + [filters[n].expr], at + [n])
    ensures filters[n].Dynamic? ==> StaticAt(filters, es + [], at)
  {
    assert forall i :: 0 <= i < n ==> filters[..n][i] == filters[i];
  }

  // ---------- tokens ----------

  datatype Token = LParen | RParen | Ident(name: string) | Value(v: Literal) | Op(op: Operator) | NotToken | IsToken

  datatype Tokens = Nil | Tok(head: Token, tail: Tokens)

  function Length(ts: Tokens): nat { match ts case Nil => 0 case Tok(_, tail) => 1 + Length(tail) }

  /** Reads up to the closing quote `q`, a doubled one standing for itself. */
  function Unquote(q: char, s: string): (r: Option<(string, string)>)
    ensures r.Some? ==> |r.value.1| < |s|
  {
    if s == "" then None
    else if s[0] != q then
      match Unquote(q, s[1..])
      case None => None
      case Some((text, rest)) => Some(([s[0]] + text, rest))
    else if |s| > 1 && s[1] == q then
      match Unquote(q, s[2..])
      case None => None
      case Some((text, rest)) => Some(([q] + text, rest))
    else Some(("", s[1..]))
  }

  predicate IsLetter(c: char) { 'A' <= c <= 'Z' }

  function SkipLetters(s: string, i: nat): (j: nat)
    requires i <= |s|
    ensures i <= j <= |s| && (j < |s| ==> !IsLetter(s[j]))
    ensures forall k :: i <= k < j ==> IsLetter(s[k])
    decreases |s| - i
  {
    if i < |s| && IsLetter(s[i]) then SkipLetters(s, i + 1) else i
  }

  function Keyword(word: string): Option<Token> {
    if word == "AND" then Some(Op(And))
    else if word == "OR" then Some(Op(Or))
    else if word == "NOT" then Some(NotToken)
    else if word == "IS" then Some(IsToken)
    else if word == "NULL" then Some(Value(Null))
    else if word == "TRUE" then Some(Value(Bool(true)))
    else if word == "FALSE" then Some(Value(Bool(false)))
    else None
  }

  /** The first token of a text that starts with one, and the text after it. */
  function NextToken(s: string): (r: Option<(Token, string)>)
    requires s != ""
    ensures r.Some? ==> |r.value.1| < |s|
  {
    var c := s[0];
    if c == '(' then Some((LParen, s[1..]))
    else if c == ')' then Some((RParen, s[1..]))
    else if c == '`' then
      match Unquote('`', s[1..])
      case None => None
      case Some((name, rest)) => Some((Ident(name), rest))
    else if c == '\'' then
      match Unquote('\'', s[1..])
      case None => None
      case Some((text, rest)) => Some((Value(Text(text)), rest))
    else if IsDigit(c) then
      var j := SkipDigits(s, 0);
      Some((Value(Int(Number(s[..j]))), s[j..]))
    else if c == '-' then
      var j := SkipDigits(s, 1);
      if j == 1 then None else Some((Value(Int(0 - Number(s[1..j]))), s[j..]))
    else if c == '=' then Some((Op(Eq), s[1..]))
    else if c == '<' then
      if |s| > 1 && s[1] == '>' then Some((Op(NotEq), s[2..]))
      else if |s| > 1 && s[1] == '=' then Some((Op(LtEq), s[2..]))
      else Some((Op(Lt), s[1..]))
    else if c == '>' then
      if |s| > 1 && s[1] == '=' then Some((Op(GtEq), s[2..])) else Some((Op(Gt), s[1..]))
    else if IsLetter(c) then
      var j := SkipLetters(s, 0);
      match Keyword(s[..j])
      case None => None
      case Some(t) => Some((t, s[j..]))
    else None
  }

  function Lex(s: string): Option<Tokens>
    decreases |s|
  {
    if s == "" then Some(Nil)
    else if s[0] == ' ' then Lex(s[1..])
    else
      match NextToken(s)
      case None => None
      case Some((t, rest)) => Cons(t, Lex(rest))
  }

  function Cons(t: Token, ts: Option<Tokens>): Option<Tokens> {
    if ts.None? then None else Some(Tok(t, ts.value))
  }

  // ---------- reading ----------

  datatype Parsed = Fail | Done(e: Expr, rest: Tokens)

  const IS_LEVEL := 4

  /** How tightly an operator binds; `NOT` stands between `AND` and the equalities. */
  function Level(op: Operator): nat {
    match op
    case Or => 1
    case And => 2
    case Eq => IS_LEVEL
    case NotEq => IS_LEVEL
    case _ => 5
  }

  function MakeIs(l: Expr, r: Expr, negated: bool): Expr {
    if r != Constant(Null) then Is(l, r, negated) else if negated then IsNotNull(l) else IsNull(l)
  }

  /** Reads an expression whose operators outside parentheses and below a prefix bind at least at level `min`. */
  function Parse(ts: Tokens, min: nat): (p: Parsed)
    ensures p.Done? ==> Length(p.rest) < Length(ts)
    decreases Length(ts), 1
  {
    if ts.Nil? then Fail
    else
      match ts.head
      case Ident(name) => Continue(Column(name), ts.tail, min)
      case Value(v) => Continue(Constant(v), ts.tail, min)
      case LParen => (
        match Parse(ts.tail, 1)
        case Fail => Fail
        case Done(e, rest) => if rest.Tok? && rest.head == RParen then Continue(e, rest.tail, min) else Fail)
      case NotToken => (
        match Parse(ts.tail, IS_LEVEL)
        case Fail => Fail
        case Done(e, rest) => Continue(Not(e), rest, min))
      case _ => Fail
  }

  /** Goes on after a first operand: operators of one level group from the left. */
  function Continue(lhs: Expr, ts: Tokens, min: nat): (p: Parsed)
    ensures p.Done? ==> Length(p.rest) <= Length(ts)
    decreases Length(ts), 0
  {
    if ts.Nil? then Done(lhs, ts)
    else
      match ts.head
      case Op(op) =>
        if Level(op) < min then Done(lhs, ts)
        else (
          match Parse(ts.tail, Level(op) + 1)
          case Fail => Fail
          case Done(rhs, rest) => Continue(Binary(lhs, op, rhs), rest, min))
      case IsToken =>
        if IS_LEVEL < min then Done(lhs, ts)
        else
          var negated := ts.tail.Tok? && ts.tail.head.NotToken?;
          var operand := if negated then ts.tail.tail else ts.tail;
          assert Length(operand) < Length(ts);
          (match Parse(operand, IS_LEVEL + 1)
           case Fail => Fail
           case Done(rhs, rest) => Continue(MakeIs(lhs, rhs, negated), rest, min))
      case _ => Done(lhs, ts)
  }

  /** The expression a text is read as. */
  function Read(s: string): Option<Expr> {
    match Lex(s)
    case None => None
    case Some(ts) =>
      match Parse(ts, 1)
      case Done(e, Nil) => Some(e)
      case _ => None
  }
}
