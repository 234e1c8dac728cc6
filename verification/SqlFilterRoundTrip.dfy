/** From filters to text and back: the lexer recovers the printed tokens, and the reader the safe filters. */
module SqlFilterRoundTrip {
  import opened Common
  import opened Decimals
  import opened SqlFilters
  import opened SqlFilterProofs

  // ---------- quoting ----------

  /** Quoting is self-delimiting and loses nothing: reading stops at the closing quote with the original. */
  lemma {:induction false} QuotingRoundTrip(q: char, s: string, rest: string)
    requires rest == "" || rest[0] != q
    ensures Quoted(q, s)[0] == q
    ensures Unquote(q, Quoted(q, s)[1..] + rest) == Some((s, rest))
    decreases s
  {
    var inner := Doubled(q, s) + [q] + rest;
    assert Quoted(q, s)[1..] + rest == inner;
    if s == "" {
      assert inner == [q] + rest;
      assert inner[1..] == rest;
    } else {
      var tail := Doubled(q, s[1..]) + [q] + rest;
      QuotingRoundTrip(q, s[1..], rest);
      assert Quoted(q, s[1..])[1..] + rest == tail;
      if s[0] == q {
        assert inner == [q, q] + tail;
        assert inner[2..] == tail;
      } else {
        assert inner == [s[0]] + tail;
        assert inner[1..] == tail;
      }
      assert [s[0]] + s[1..] == s;
    }
  }

  /** Each dialect's identifiers and literals are told by their quotes and read back whole. */
  lemma NamesAndLiteralsReadBack(name: string, dialect: SqlDialectKind, rest: string)
    requires rest == "" || (rest[0] !in {'"', '`', '\''})
    ensures var quote := if dialect == Postgres then '"' else '`';
            QuoteIdentifier(name, dialect)[0] == quote
            && Unquote(quote, QuoteIdentifier(name, dialect)[1..] + rest) == Some((name, rest))
    ensures SqlLiteral(name)[0] == '\'' && Unquote('\'', SqlLiteral(name)[1..] + rest) == Some((name, rest))
  {
    QuotingRoundTrip(QuoteChar(dialect), name, rest);
    QuotingRoundTrip('\'', name, rest);
  }

  // ---------- the lexer ----------

  /** What may follow a printed expression. */
  ghost predicate Delimited(s: string) { s == "" || s[0] == ' ' || s[0] == ')' }

  lemma LexSpace(s: string)
    ensures Lex(" " + s) == Lex(s)
  {
    assert (" " + s)[1..] == s;
  }

  lemma LexParens(s: string)
    ensures Lex("(" + s) == Cons(LParen, Lex(s))
    ensures Lex(")" + s) == Cons(RParen, Lex(s))
  {
    assert ("(" + s)[1..] == s && (")" + s)[1..] == s;
  }

  lemma LexQuoted(s: string, rest: string)
    requires Delimited(rest)
    ensures Lex(QuoteIdentifier(s, Sqlite) + rest) == Cons(Ident(s), Lex(rest))
    ensures Lex(SqlLiteral(s) + rest) == Cons(Value(Text(s)), Lex(rest))
  {
    LexIdentifier(s, rest);
    LexText(s, rest);
  }

  lemma LexIdentifier(s: string, rest: string)
    requires Delimited(rest)
    ensures Lex(QuoteIdentifier(s, Sqlite) + rest) == Cons(Ident(s), Lex(rest))
  {
    QuotingRoundTrip('`', s, rest);
    assert (QuoteIdentifier(s, Sqlite) + rest)[1..] == QuoteIdentifier(s, Sqlite)[1..] + rest;
  }

  lemma LexText(s: string, rest: string)
    requires Delimited(rest)
    ensures Lex(SqlLiteral(s) + rest) == Cons(Value(Text(s)), Lex(rest))
  {
    QuotingRoundTrip('\'', s, rest);
    assert (SqlLiteral(s) + rest)[1..] == SqlLiteral(s)[1..] + rest;
  }

  lemma LexNatural(n: nat, rest: string)
    requires Delimited(rest)
    ensures Lex(Decimal(n) + rest) == Cons(Value(Int(n)), Lex(rest))
  {
    var d, s := Decimal(n), Decimal(n) + rest;
    NumberOfDecimal(n);
    assert s[0] == d[0];
    var j := SkipDigits(s, 0);
    assert forall k :: 0 <= k < |d| ==> s[k] == d[k];
    assert |d| < |s| ==> s[|d|] == rest[0];
    assert s[..j] == d && s[j..] == rest;
  }

  lemma LexNegative(n: nat, rest: string)
    requires Delimited(rest)
    ensures Lex("-" + Decimal(n) + rest) == Cons(Value(Int(-(n as int))), Lex(rest))
  {
    var d, s := Decimal(n), "-" + Decimal(n) + rest;
    NumberOfDecimal(n);
    assert forall k :: 0 <= k < |d| ==> s[k + 1] == d[k];
    var j := SkipDigits(s, 1);
    assert |d| + 1 < |s| ==> s[|d| + 1] == rest[0];
    assert s[1..j] == d && s[j..] == rest;
  }

  lemma LexWord(w: string, t: Token, rest: string)
    requires Keyword(w) == Some(t) && Delimited(rest)
    requires w != "" && forall k :: 0 <= k < |w| ==> IsLetter(w[k])
    ensures Lex(w + rest) == Cons(t, Lex(rest))
  {
    var s := w + rest;
    assert s[0] == w[0];
    var j := SkipLetters(s, 0);
    assert forall k :: 0 <= k < |w| ==> s[k] == w[k];
    assert |w| < |s| ==> s[|w|] == rest[0];
    assert s[..j] == w && s[j..] == rest;
  }

  lemma LexOperator(op: Operator, rest: string)
    requires OperatorToSql(op).Some? && Delimited(rest)
    ensures Lex(OperatorToSql(op).value + rest) == Cons(Op(op), Lex(rest))
  {
    var o := OperatorToSql(op).value;
    if op == And || op == Or {
      LexWord(o, Op(op), rest);
    } else {
      assert (o + rest)[|o|..] == rest;
      assert (o + rest)[0] == o[0];
    }
  }

  lemma LexInteger(n: int, rest: string)
    requires Delimited(rest)
    ensures Lex(Signed(n) + rest) == Cons(Value(Int(n)), Lex(rest))
  {
    if n < 0 {
      LexNegative(-n, rest);
      assert Signed(n) + rest == "-" + Decimal(-n) + rest;
    } else {
      LexNatural(n, rest);
      assert Signed(n) + rest == Decimal(n) + rest;
    }
  }

  lemma LexConstant(v: Literal, rest: string)
    requires ScalarValueToSql(v).Some? && Delimited(rest)
    ensures Lex(ScalarValueToSql(v).value + rest) == Cons(Value(v), Lex(rest))
  {
    match v
    case Null => LexWord("NULL", Value(Null), rest);
    case Bool(b) => LexWord(if b then "TRUE" else "FALSE", Value(v), rest);
    case Int(n) => LexInteger(n, rest);
    case Text(s) => LexQuoted(s, rest);
  }

  function Append(e: Expr, ts: Option<Tokens>): Option<Tokens> {
    if ts.None? then None else Some(TokensOf(e, ts.value))
  }

  lemma {:induction false} PrintableIsPrinted(e: Expr)
    ensures PhysicalExprToSql(e).Some? <==> Printable(e)
    decreases e
  {
    match e
    case Binary(l, op, r) => PrintableIsPrinted(l); PrintableIsPrinted(r);
    case IsNull(a) => PrintableIsPrinted(a);
    case IsNotNull(a) => PrintableIsPrinted(a);
    case Not(a) => PrintableIsPrinted(a);
    case _ =>
  }

  /** The lexer recovers the tokens of a printed expression, whatever properly follows it. */
  lemma {:induction false} PrintedIsLexed(e: Expr, rest: string)
    requires PhysicalExprToSql(e).Some? && Delimited(rest)
    ensures Lex(PhysicalExprToSql(e).value + rest) == Append(e, Lex(rest))
    decreases e
  {
    match e
    case Column(name) => LexQuoted(name, rest);
    case Constant(v) => LexConstant(v, rest);
    case Binary(l, op, r) =>
      PrintedIsLexed(r, ")" + rest);
      PrintedIsLexed(l, AfterLeft(op, r, rest));
      BinaryIsLexed(l, op, r, rest);
    case IsNull(a) =>
      var inner := PhysicalExprToSql(a).value;
      assert inner + " IS NULL" + rest == inner + (" IS NULL" + rest);
      LexIsNull(rest);
      PrintedIsLexed(a, " IS NULL" + rest);
    case IsNotNull(a) =>
      var inner := PhysicalExprToSql(a).value;
      assert inner + " IS NOT NULL" + rest == inner + (" IS NOT NULL" + rest);
      LexIsNotNull(rest);
      PrintedIsLexed(a, " IS NOT NULL" + rest);
    case Not(a) =>
      PrintedIsLexed(a, ")" + rest);
      NotIsLexed(a, rest);
  }

  /** What is printed behind the left operand. */
  function AfterLeft(op: Operator, r: Expr, rest: string): string
    requires OperatorToSql(op).Some? && PhysicalExprToSql(r).Some?
  {
    " " + (OperatorToSql(op).value + (" " + (PhysicalExprToSql(r).value + (")" + rest))))
  }

  lemma BinaryIsLexed(l: Expr, op: Operator, r: Expr, rest: string)
    requires PhysicalExprToSql(Binary(l, op, r)).Some?
    requires Lex(PhysicalExprToSql(r).value + (")" + rest)) == Append(r, Lex(")" + rest))
    requires Lex(PhysicalExprToSql(l).value + AfterLeft(op, r, rest)) == Append(l, Lex(AfterLeft(op, r, rest)))
    ensures Lex(PhysicalExprToSql(Binary(l, op, r)).value + rest) == Append(Binary(l, op, r), Lex(rest))
  {
    var left, o, right := PhysicalExprToSql(l).value, OperatorToSql(op).value, PhysicalExprToSql(r).value;
    LexParens(rest);
    OperatorIsLexed(op, right + (")" + rest));
    LexParens(left + AfterLeft(op, r, rest));
    RegroupBinary(left, o, right, rest);
  }

  lemma NotIsLexed(a: Expr, rest: string)
    requires PhysicalExprToSql(a).Some?
    requires Lex(PhysicalExprToSql(a).value + (")" + rest)) == Append(a, Lex(")" + rest))
    ensures Lex(PhysicalExprToSql(Not(a)).value + rest) == Append(Not(a), Lex(rest))
  {
    var inner := PhysicalExprToSql(a).value;
    RegroupNot(inner, rest);
    LexParens(rest);
    LexParens(inner + (")" + rest));
    NotIsToken("(" + (inner + (")" + rest)));
  }

  lemma NotIsToken(rest: string)
    ensures Lex("NOT" + (" " + rest)) == Cons(NotToken, Lex(rest))
  {
    LexSpace(rest);
    LexWord("NOT", NotToken, " " + rest);
  }

  lemma RegroupNot(inner: string, rest: string)
    ensures "NOT (" + inner + ")" + rest == "NOT" + (" " + ("(" + (inner + (")" + rest))))
  {}

  lemma RegroupBinary(left: string, o: string, right: string, rest: string)
    ensures "(" + left + " " + o + " " + right + ")" + rest ==
            "(" + (left + (" " + (o + (" " + (right + (")" + rest))))))
  {}

  lemma OperatorIsLexed(op: Operator, rest: string)
    requires OperatorToSql(op).Some?
    ensures Lex(" " + (OperatorToSql(op).value + (" " + rest))) == Cons(Op(op), Lex(rest))
  {
    LexSpace(rest);
    LexOperator(op, " " + rest);
    LexSpace(OperatorToSql(op).value + (" " + rest));
  }

  lemma LexIsNull(rest: string)
    requires Delimited(rest)
    ensures Lex(" IS NULL" + rest) == Cons(IsToken, Cons(Value(Null), Lex(rest)))
  {
    assert " IS NULL" + rest == " " + ("IS" + (" " + ("NULL" + rest)));
    LexWord("NULL", Value(Null), rest);
    LexSpace("NULL" + rest);
    LexWord("IS", IsToken, " " + ("NULL" + rest));
    LexSpace("IS" + (" " + ("NULL" + rest)));
  }

  lemma LexIsNotNull(rest: string)
    requires Delimited(rest)
    ensures Lex(" IS NOT NULL" + rest) == Cons(IsToken, Cons(NotToken, Cons(Value(Null), Lex(rest))))
  {
    assert " IS NOT NULL" + rest == " " + ("IS" + (" " + ("NOT" + (" " + ("NULL" + rest)))));
    LexWord("NULL", Value(Null), rest);
    LexSpace("NULL" + rest);
    LexWord("NOT", NotToken, " " + ("NULL" + rest));
    LexSpace("NOT" + (" " + ("NULL" + rest)));
    LexWord("IS", IsToken, " " + ("NOT" + (" " + ("NULL" + rest))));
    LexSpace("IS" + (" " + ("NOT" + (" " + ("NULL" + rest)))));
  }

  // ---------- reading back ----------

  /** A printed filter is read back as itself exactly if it is safe; in any case it is read as `ReadBack` says. */
  lemma FilterRoundTrip(e: Expr)
    requires PhysicalExprToSql(e).Some?
    ensures Read(PhysicalExprToSql(e).value) == Some(ReadBack(e))
    ensures Read(PhysicalExprToSql(e).value) == Some(e) <==> Safe(e)
  {
    var s := PhysicalExprToSql(e).value;
    PrintableIsPrinted(e);
    PrintedIsLexed(e, "");
    assert s + "" == s;
    StandsAlone(e, Nil, 1);
    ReadBackIsSafe(e);
  }

  /** `IS NULL` after a printed `NOT` is taken into the operand of the `NOT`. */
  lemma NotIsNullIsMisread(a: Expr)
    requires PhysicalExprToSql(IsNull(Not(a))).Some?
    ensures Read(PhysicalExprToSql(IsNull(Not(a))).value) == Some(Not(IsNull(ReadBack(a))))
  {
    var e := IsNull(Not(a));
    FilterRoundTrip(e);
    assert Base(e) == Not(a) && Core(e) == Core(Not(a)) == ReadBack(a);
    assert Rewrap(e, ReadBack(a)) == IsNull(ReadBack(a));
  }

  // ---------- several filters ----------

  function Conjunction(es: seq<Expr>): Expr
    requires es != []
  {
    if |es| == 1 then es[0] else Binary(Conjunction(es[..|es| - 1]), And, es[|es| - 1])
  }

  function JoinedTokens(es: seq<Expr>, rest: Tokens): Tokens
    requires es != []
    decreases |es|
  {
    var last := TokensOf(es[|es| - 1], rest);
    if |es| == 1 then last else JoinedTokens(es[..|es| - 1], Tok(Op(And), last))
  }

  lemma RegroupAnd(init: string, last: string, rest: string)
    ensures init + " AND " + last + rest == init + (" " + ("AND" + (" " + (last + rest))))
  {}

  lemma {:induction false} JoinedIsLexed(es: seq<Expr>, conditions: seq<string>, rest: string)
    requires es != [] && Conditions(conditions, es) && Delimited(rest)
    ensures Lex(JoinAnd(conditions) + rest) == if Lex(rest).None? then None else Some(JoinedTokens(es, Lex(rest).value))
    decreases |es|
  {
    var n := |es| - 1;
    PrintedIsLexed(es[n], rest);
    if n > 0 {
      var last, init := conditions[n], JoinAnd(conditions[..n]);
      RegroupAnd(init, last, rest);
      OperatorIsLexed(And, last + rest);
      JoinedIsLexed(es[..n], conditions[..n], " " + ("AND" + (" " + (last + rest))));
    }
  }

  lemma {:induction false} JoinedIsRead(es: seq<Expr>, rest: Tokens)
    requires es != [] && (rest.Nil? || rest.head == Op(And))
    requires forall i :: 0 <= i < |es| ==> Printable(es[i]) && Safe(es[i])
    ensures Parse(JoinedTokens(es, rest), 1) == Continue(Conjunction(es), rest, 1)
    decreases |es|
  {
    var n := |es| - 1;
    ReadBackIsSafe(es[n]);
    if n == 0 {
      StandsAlone(es[0], rest, 1);
    } else {
      StandsAlone(es[n], rest, 3);
      JoinedIsRead(es[..n], Tok(Op(And), TokensOf(es[n], rest)));
    }
  }

  /** Safe filters joined by AND are read back as their conjunction. */
  lemma ConjunctionRoundTrip(es: seq<Expr>, conditions: seq<string>)
    requires es != [] && Conditions(conditions, es)
    requires forall i :: 0 <= i < |es| ==> Safe(es[i])
    ensures Read(JoinAnd(conditions)) == Some(Conjunction(es))
  {
    forall i | 0 <= i < |es| ensures Printable(es[i]) {
      PrintableIsPrinted(es[i]);
    }
    JoinedIsLexed(es, conditions, "");
    assert JoinAnd(conditions) + "" == JoinAnd(conditions);
    JoinedIsRead(es, Nil);
  }
}
