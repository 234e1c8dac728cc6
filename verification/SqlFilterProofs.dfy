/** What a printed filter is read back as, and exactly which filters survive. */
module SqlFilterProofs {
  import opened Common
  import opened Decimals
  import opened SqlFilters

  // ---------- the tokens of a printed filter ----------

  ghost predicate Printable(e: Expr) {
    match e
    case Column(_) => true
    case Constant(v) => !v.OtherLiteral?
    case Binary(l, op, r) => Printable(l) && Printable(r) && !op.OtherOperator?
    case IsNull(a) => Printable(a)
    case IsNotNull(a) => Printable(a)
    case Not(a) => Printable(a)
    case Is(_, _, _) => false
    case OtherExpr => false
  }

  /** The tokens of a printed expression, followed by others. */
  function TokensOf(e: Expr, rest: Tokens): Tokens {
    match e
    case Column(name) => Tok(Ident(name), rest)
    case Constant(v) => Tok(Value(v), rest)
    case Binary(l, op, r) => Tok(LParen, TokensOf(l, Tok(Op(op), TokensOf(r, Tok(RParen, rest)))))
    case IsNull(a) => TokensOf(a, Tok(IsToken, Tok(Value(Null), rest)))
    case IsNotNull(a) => TokensOf(a, Tok(IsToken, Tok(NotToken, Tok(Value(Null), rest))))
    case Not(a) => Tok(NotToken, Tok(LParen, TokensOf(a, Tok(RParen, rest))))
    case _ => rest
  }

  // ---------- what it is read back as ----------

  /** The expression under the IS [NOT] NULL suffixes of `e`. */
  function Base(e: Expr): Expr {
    match e case IsNull(a) => Base(a) case IsNotNull(a) => Base(a) case _ => e
  }

  /** `e` with `x` in the place of its base. */
  function Rewrap(e: Expr, x: Expr): Expr {
    match e case IsNull(a) => IsNull(Rewrap(a, x)) case IsNotNull(a) => IsNotNull(Rewrap(a, x)) case _ => x
  }

  predicate Suffixed(e: Expr) { e.IsNull? || e.IsNotNull? }

  /** Printed without parentheses around its first operand, a prefix `NOT` takes all that follows it. */
  predicate Loose(e: Expr) { Base(e).Not? }

  function Negated(loose: bool, e: Expr): Expr { if loose then Not(e) else e }

  /** What the base of an expression is read as, without a prefix `NOT`. */
  function Core(e: Expr): Expr
    decreases e, 1
  {
    match e
    case IsNull(a) => Core(a)
    case IsNotNull(a) => Core(a)
    case Not(a) => ReadBack(a)
    case Binary(_, _, _) => ReadBinary(e)
    case _ => e
  }

  /** What an expression standing alone is read as. */
  function ReadBack(e: Expr): Expr
    decreases e, 2
  {
    Negated(Loose(e), Rewrap(e, Core(e)))
  }

  function ReadBinary(e: Expr): Expr
    requires e.Binary?
    decreases e, 0
  {
    var l, op, r := e.left, e.op, e.right;
    if Level(op) < IS_LEVEL then Binary(ReadBack(l), op, ReadBack(r))
    else if Level(op) == IS_LEVEL || !Suffixed(l) then
      Negated(Loose(l), Compared(Rewrap(l, Core(l)), op, r))
    else
      Negated(Loose(l), IsCompared(Rewrap(l.arg, Core(l)), l.IsNotNull?, op, r))
  }

  /** A comparison takes the base of its right operand only, unless that starts with `NOT`. */
  function Compared(x: Expr, op: Operator, r: Expr): Expr
    decreases r, 3
  {
    if Loose(r) then Binary(x, op, ReadBack(r)) else Rewrap(r, Binary(x, op, Core(r)))
  }

  /** An ordering after `IS NULL` takes the NULL as its left operand. */
  function IsCompared(x: Expr, negated: bool, op: Operator, r: Expr): Expr
    decreases r, 3
  {
    if Loose(r) then Is(x, Binary(Constant(Null), op, ReadBack(r)), negated)
    else Rewrap(r, Is(x, Binary(Constant(Null), op, Core(r)), negated))
  }

  // ---------- reading it ----------

  /** Nothing follows that a reading of any level would go on with. */
  ghost predicate Stops(rest: Tokens) { rest.Nil? || rest.head == RParen }

  ghost predicate NoOrdering(rest: Tokens) { rest.Tok? && rest.head.Op? ==> Level(rest.head.op) <= IS_LEVEL }

  /** The suffixes of an expression's tokens, followed by others. */
  function SuffixesOf(e: Expr, rest: Tokens): Tokens {
    match e
    case IsNull(a) => SuffixesOf(a, Tok(IsToken, Tok(Value(Null), rest)))
    case IsNotNull(a) => SuffixesOf(a, Tok(IsToken, Tok(NotToken, Tok(Value(Null), rest))))
    case _ => rest
  }

  lemma {:induction false} SuffixesRead(e: Expr, x: Expr, rest: Tokens, min: nat)
    requires NoOrdering(rest) && min <= IS_LEVEL
    ensures Continue(x, SuffixesOf(e, rest), min) == Continue(Rewrap(e, x), rest, min)
    decreases e
  {
    if e.IsNull? {
      var more := Tok(Value(Null), rest);
      SuffixesRead(e.arg, x, Tok(IsToken, more), min);
      assert Parse(more, IS_LEVEL + 1) == Done(Constant(Null), rest);
    } else if e.IsNotNull? {
      var more := Tok(Value(Null), rest);
      SuffixesRead(e.arg, x, Tok(IsToken, Tok(NotToken, more)), min);
      assert Parse(more, IS_LEVEL + 1) == Done(Constant(Null), rest);
    }
  }

  lemma {:induction false} SuffixesStop(e: Expr, x: Expr, rest: Tokens, min: nat)
    requires Stops(rest) && min > IS_LEVEL
    ensures Continue(x, SuffixesOf(e, rest), min) == Done(x, SuffixesOf(e, rest))
    decreases e
  {
    if e.IsNull? {
      SuffixesStart(e.arg, Tok(IsToken, Tok(Value(Null), rest)));
    } else if e.IsNotNull? {
      SuffixesStart(e.arg, Tok(IsToken, Tok(NotToken, Tok(Value(Null), rest))));
    }
  }

  lemma {:induction false} SuffixesStart(e: Expr, rest: Tokens)
    requires rest.Tok? && rest.head == IsToken
    ensures SuffixesOf(e, rest).Tok? && SuffixesOf(e, rest).head == IsToken
    decreases e
  {
    if e.IsNull? {
      SuffixesStart(e.arg, Tok(IsToken, Tok(Value(Null), rest)));
    } else if e.IsNotNull? {
      SuffixesStart(e.arg, Tok(IsToken, Tok(NotToken, Tok(Value(Null), rest))));
    }
  }

  function AfterNot(p: Parsed, min: nat): Parsed {
    match p case Fail => Fail case Done(e, rest) => Continue(Not(e), rest, min)
  }

  /** Reading an expression's tokens comes to its core, with its suffixes and the rest still to read. */
  lemma {:induction false} Reads(e: Expr, rest: Tokens, min: nat)
    requires Printable(e)
    ensures !Loose(e) ==> Parse(TokensOf(e, rest), min) == Continue(Core(e), SuffixesOf(e, rest), min)
    ensures Loose(e) ==>
              Parse(TokensOf(e, rest), min) == AfterNot(Continue(Core(e), SuffixesOf(e, rest), IS_LEVEL), min)
    decreases e, 1
  {
    match e
    case IsNull(a) => Reads(a, Tok(IsToken, Tok(Value(Null), rest)), min);
    case IsNotNull(a) => Reads(a, Tok(IsToken, Tok(NotToken, Tok(Value(Null), rest))), min);
    case Not(a) =>
      StandsAlone(a, Tok(RParen, rest), 1);
      assert Parse(Tok(LParen, TokensOf(a, Tok(RParen, rest))), IS_LEVEL) == Continue(ReadBack(a), rest, IS_LEVEL);
    case Binary(l, op, r) =>
      if Level(op) < IS_LEVEL {
        ConnectiveReads(e, Tok(RParen, rest));
      } else {
        ComparisonReads(e, Tok(RParen, rest));
      }
    case _ =>
  }

  /** An expression on its own, or as an operand of AND or OR, is read as its reading. */
  lemma {:induction false} StandsAlone(e: Expr, rest: Tokens, min: nat)
    requires Printable(e) && min < IS_LEVEL
    requires NoOrdering(rest) && Continue(Rewrap(e, Core(e)), rest, IS_LEVEL) == Done(Rewrap(e, Core(e)), rest)
    ensures Parse(TokensOf(e, rest), min) == Continue(ReadBack(e), rest, min)
    decreases e, 2
  {
    Reads(e, rest, min);
    SuffixesRead(e, Core(e), rest, min);
    SuffixesRead(e, Core(e), rest, IS_LEVEL);
  }

  lemma {:induction false} ConnectiveReads(e: Expr, rest: Tokens)
    requires e.Binary? && Printable(e) && Level(e.op) < IS_LEVEL && Stops(rest)
    ensures Parse(TokensOf(e.left, Tok(Op(e.op), TokensOf(e.right, rest))), 1) == Done(ReadBinary(e), rest)
    decreases e, 0
  {
    var l, op, r := e.left, e.op, e.right;
    StandsAlone(l, Tok(Op(op), TokensOf(r, rest)), 1);
    StandsAlone(r, rest, Level(op) + 1);
  }

  /** The right operand of a comparison: all of it after `NOT`, otherwise all but its suffixes. */
  lemma {:induction false} RightOperandReads(r: Expr, rest: Tokens, min: nat)
    requires Printable(r) && Stops(rest) && min > IS_LEVEL
    ensures Parse(TokensOf(r, rest), min) ==
              if Loose(r) then Done(ReadBack(r), rest) else Done(Core(r), SuffixesOf(r, rest))
    decreases r, 3
  {
    Reads(r, rest, min);
    if Loose(r) {
      SuffixesRead(r, Core(r), rest, IS_LEVEL);
    } else {
      SuffixesStop(r, Core(r), rest, min);
    }
  }

  lemma {:induction false} ComparisonReads(e: Expr, rest: Tokens)
    requires e.Binary? && Printable(e) && Level(e.op) >= IS_LEVEL && Stops(rest)
    ensures Parse(TokensOf(e.left, Tok(Op(e.op), TokensOf(e.right, rest))), 1) == Done(ReadBinary(e), rest)
    decreases e, 0
  {
    var l, op, r := e.left, e.op, e.right;
    var min := if Loose(l) then IS_LEVEL else 1;
    var more := Tok(Op(op), TokensOf(r, rest));
    Reads(l, more, 1);
    if Level(op) == IS_LEVEL || !Suffixed(l) {
      if Suffixed(l) {
        SuffixesRead(l, Core(l), more, min);
      }
      ComparesOn(Rewrap(l, Core(l)), op, r, rest, min);
    } else {
      IsComparesOn(l, Core(l), op, r, rest, min);
    }
  }

  lemma {:induction false} ComparesOn(x: Expr, op: Operator, r: Expr, rest: Tokens, min: nat)
    requires Printable(r) && Level(op) >= IS_LEVEL >= min && Stops(rest)
    ensures Continue(x, Tok(Op(op), TokensOf(r, rest)), min) == Done(Compared(x, op, r), rest)
    decreases r, 4
  {
    var more := Tok(Op(op), TokensOf(r, rest));
    RightOperandReads(r, rest, Level(op) + 1);
    if Loose(r) {
      assert Continue(x, more, min) == Continue(Binary(x, op, ReadBack(r)), rest, min);
    } else {
      assert Continue(x, more, min) == Continue(Binary(x, op, Core(r)), SuffixesOf(r, rest), min);
      SuffixesRead(r, Binary(x, op, Core(r)), rest, min);
    }
  }

  /** The NULL of a suffix, followed by an ordering. */
  lemma {:induction false} NullComparesOn(op: Operator, r: Expr, rest: Tokens)
    requires Printable(r) && Level(op) == 5 && Stops(rest)
    ensures Parse(Tok(Value(Null), Tok(Op(op), TokensOf(r, rest))), 5) ==
              if Loose(r) then Done(Binary(Constant(Null), op, ReadBack(r)), rest)
              else Done(Binary(Constant(Null), op, Core(r)), SuffixesOf(r, rest))
    decreases r, 4
  {
    var lhs, more := Constant(Null), Tok(Op(op), TokensOf(r, rest));
    assert Parse(Tok(Value(Null), more), 5) == Continue(lhs, more, 5);
    RightOperandReads(r, rest, 6);
    if Loose(r) {
      assert Continue(lhs, more, 5) == Continue(Binary(lhs, op, ReadBack(r)), rest, 5);
    } else {
      assert Continue(lhs, more, 5) == Continue(Binary(lhs, op, Core(r)), SuffixesOf(r, rest), 5);
      SuffixesStop(r, Binary(lhs, op, Core(r)), rest, 5);
    }
  }

  lemma {:induction false} IsComparesOn(l: Expr, x: Expr, op: Operator, r: Expr, rest: Tokens, min: nat)
    requires Printable(r) && Suffixed(l) && Level(op) == 5 && min <= IS_LEVEL && Stops(rest)
    ensures Continue(x, SuffixesOf(l, Tok(Op(op), TokensOf(r, rest))), min) ==
              Done(IsCompared(Rewrap(l.arg, x), l.IsNotNull?, op, r), rest)
    decreases r, 5
  {
    var more := Tok(Value(Null), Tok(Op(op), TokensOf(r, rest)));
    var w, negated := Rewrap(l.arg, x), l.IsNotNull?;
    var suffix := Tok(IsToken, if negated then Tok(NotToken, more) else more);
    SuffixesRead(l.arg, x, suffix, min);
    assert Continue(x, SuffixesOf(l, Tok(Op(op), TokensOf(r, rest))), min) == Continue(w, suffix, min);
    NullComparesOn(op, r, rest);
    if !Loose(r) {
      SuffixesRead(r, Is(w, Binary(Constant(Null), op, Core(r)), negated), rest, min);
    }
  }

  // ---------- which filters survive ----------

  predicate Tight(e: Expr) { e.Column? || e.Constant? || e.Binary? }

  /** The operands a comparison or an IS [NOT] NULL may have for the printed text to mean the filter. */
  predicate Safe(e: Expr) {
    match e
    case Binary(l, op, r) =>
      && Safe(l) && Safe(r)
      && (Level(op) == IS_LEVEL ==> (Tight(l) || Suffixed(l)) && (Tight(r) || r.Not?))
      && (Level(op) > IS_LEVEL ==> Tight(l) && (Tight(r) || r.Not?))
    case IsNull(a) => Safe(a) && !a.Not?
    case IsNotNull(a) => Safe(a) && !a.Not?
    case Not(a) => Safe(a)
    case _ => true
  }

  lemma {:induction false} RewrapBase(e: Expr, x: Expr)
    ensures Rewrap(e, x) == e <==> x == Base(e)
  {
    if Suffixed(e) {
      RewrapBase(e.arg, x);
    }
  }

  lemma {:induction false} SafeIsNotLoose(e: Expr)
    requires Safe(e) && !e.Not?
    ensures !Loose(e)
  {
    if Suffixed(e) {
      SafeIsNotLoose(e.arg);
    }
  }

  /** An expression is read back as itself exactly if it is safe. */
  lemma {:induction false} ReadBackIsSafe(e: Expr)
    requires Printable(e)
    ensures ReadBack(e) == e <==> Safe(e)
    ensures !e.Not? && !Loose(e) ==> (Core(e) == Base(e) <==> Safe(e))
    decreases e
  {
    match e
    case Not(a) => ReadBackIsSafe(a);
    case IsNull(a) => SuffixIsSafe(e, a);
    case IsNotNull(a) => SuffixIsSafe(e, a);
    case Binary(l, op, r) => ReadBackIsSafe(l); ReadBackIsSafe(r); BinaryIsSafe(l, op, r);
    case _ =>
  }

  lemma {:induction false} SuffixIsSafe(e: Expr, a: Expr)
    requires Printable(e) && (e == IsNull(a) || e == IsNotNull(a))
    ensures ReadBack(e) == e <==> Safe(e)
    ensures !Loose(e) ==> (Core(e) == Base(e) <==> Safe(e))
    decreases e, 0
  {
    ReadBackIsSafe(a);
    RewrapBase(e, Core(e));
    if Safe(e) {
      SafeIsNotLoose(e);
    }
  }

  lemma BinaryIsSafe(l: Expr, op: Operator, r: Expr)
    requires Printable(l) && Printable(r) && !op.OtherOperator?
    requires ReadBack(l) == l <==> Safe(l)
    requires ReadBack(r) == r <==> Safe(r)
    ensures ReadBinary(Binary(l, op, r)) == Binary(l, op, r) <==> Safe(Binary(l, op, r))
  {
    if Safe(l) && !l.Not? {
      SafeIsNotLoose(l);
    }
    if Safe(r) && !r.Not? {
      SafeIsNotLoose(r);
    }
  }
}
