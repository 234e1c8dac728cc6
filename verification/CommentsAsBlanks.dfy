/** Exactly when removing a comment says the same as leaving a blank in its place. */
module CommentsAsBlanks {
  import opened Common
  import opened Strings
  import opened StatementSplitter
  import opened StatementSplitterProofs

  /** Which neighbours outside quotes belong to one token; a blank and a semicolon are tokens' ends. */
  type Joins = (char, char) -> bool

  ghost predicate Lexical(joins: Joins) {
    forall c, d :: joins(c, d) ==> !IsBlank(c) && !IsBlank(d) && c != ';' && d != ';'
  }

  /** The text from position `i` on, read in mode `m`, with one blank in place of each comment. */
  function Blanked(text: string, i: nat, m: Mode): string
    requires i <= |text|
    decreases |text| - i
  {
    if i == |text| then ""
    else match Skip(text, i, m)
      case Some((j, n)) => (if m.Code? then " " else "") + Blanked(text, j, n)
      case None => [text[i]] + Blanked(text, i + 1, After(m, text[i]))
  }

  /** The character `c`, after which the mode is `n`, goes on in the token of the next one. */
  predicate GoesOn(joins: Joins, c: char, next: Option<char>, n: Mode) {
    next.Some? && (!n.Code? || joins(c, next.value))
  }

  /** The tokens of a text: quoted texts are whole, blanks outside quotes only part tokens. */
  function Tokens(s: string, m: Mode, joins: Joins): seq<string> {
    if s == "" then []
    else
      var n := After(m, s[0]);
      var later := Tokens(s[1..], n, joins);
      if m.Code? && IsBlank(s[0]) then later
      else if GoesOn(joins, s[0], First(s[1..]), n) && later != [] then [[s[0]] + later[0]] + later[1..]
      else [[s[0]]] + later
  }

  function Front(c: char, dropped: bool, goesOn: bool, ts: seq<string>): seq<string> {
    if dropped then ts
    else if goesOn && ts != [] then [[c] + ts[0]] + ts[1..]
    else [[c]] + ts
  }

  function Back(ts: seq<string>, c: char, dropped: bool, goesOn: bool): seq<string> {
    if dropped then ts
    else if goesOn && ts != [] then ts[..|ts| - 1] + [ts[|ts| - 1] + [c]]
    else ts + [[c]]
  }

  lemma TokensTakeOne(c: char, s: string, m: Mode, joins: Joins)
    ensures var n := After(m, c);
            Tokens([c] + s, m, joins) ==
            Front(c, m.Code? && IsBlank(c), GoesOn(joins, c, First(s), n), Tokens(s, n, joins))
  {
    assert ([c] + s)[1..] == s;
  }

  /** A token goes on whenever its neighbours join. */
  lemma SomethingIsSaid(s: string, m: Mode, joins: Joins)
    requires s != "" && !(m.Code? && IsBlank(s[0]))
    ensures Tokens(s, m, joins) != []
  {}

  // ---------- the condition ----------

  /** A comment opens right behind position `i`, and what is around it would be one token without it. */
  predicate PartsAt(text: string, i: nat, joins: Joins)
    requires i < |text|
  {
    && (PairAt(text, i + 1, '-', '-') || PairAt(text, i + 1, '/', '*'))
    && var next := NextKept(text, i + 1, Code); next.Some? && joins(text[i], next.value)
  }

  /** Somewhere from `i` on, outside quotes, a comment stands between two characters that join. */
  predicate Parts(text: string, i: nat, m: Mode, joins: Joins)
    requires i <= |text|
    decreases |text| - i
  {
    i < |text| &&
    match Skip(text, i, m)
    case Some((j, n)) => Parts(text, j, n, joins)
    case None => (After(m, text[i]).Code? && PartsAt(text, i, joins)) || Parts(text, i + 1, After(m, text[i]), joins)
  }

  // ---------- the pieces ----------

  /** What each piece says. */
  function Said(ps: seq<string>, m: Mode, joins: Joins): seq<seq<string>>
    requires ps != []
  {
    [Tokens(ps[0], m, joins)] + (if |ps| == 1 then [] else Said(ps[1..], Code, joins))
  }

  function Total(ts: seq<seq<string>>): nat { if ts == [] then 0 else |ts[0]| + Total(ts[1..]) }

  /** One more character in front: it ends a piece, parts tokens, goes on in the first token or is a new one. */
  function Extend(c: char, m: Mode, goesOn: bool, later: seq<seq<string>>): seq<seq<string>>
    requires later != []
  {
    if c == ';' && m.Code? then [[]] + later
    else if m.Code? && IsBlank(c) then later
    else if goesOn && later[0] != [] then [[[c] + later[0][0]] + later[0][1..]] + later[1..]
    else [[[c]] + later[0]] + later[1..]
  }

  function SaidIn(s: string, m: Mode, joins: Joins): (r: seq<seq<string>>)
    ensures r != []
  {
    Said(Pieces(s, m), m, joins)
  }

  lemma SaidTakesOne(c: char, s: string, m: Mode, joins: Joins)
    requires Lexical(joins)
    ensures var n := After(m, c);
            SaidIn([c] + s, m, joins) == Extend(c, m, GoesOn(joins, c, First(s), n), SaidIn(s, n, joins))
  {
    var n := After(m, c);
    var ps := Pieces(s, n);
    assert ([c] + s)[1..] == s;
    if c == ';' && m.Code? {
      assert ([""] + ps)[1..] == ps;
    } else {
      assert Pieces([c] + s, m) == Prefixed([c], ps);
      assert Prefixed([c], ps)[1..] == ps[1..];
      TokensTakeOne(c, ps[0], m, joins);
      FirstOfPieces(s, n);
    }
  }

  lemma ExtendTotal(c: char, m: Mode, goesOn: bool, later: seq<seq<string>>)
    requires later != []
    ensures var adds := !(c == ';' && m.Code?) && !(m.Code? && IsBlank(c)) && !(goesOn && later[0] != []);
            Total(Extend(c, m, goesOn, later)) == Total(later) + (if adds then 1 else 0)
  {
    assert ([[]] + later)[1..] == later;
    var merged := [[[c] + if later[0] == [] then [] else later[0][0]] + later[0][Min(1, |later[0]|)..]] + later[1..];
    assert merged[1..] == later[1..];
    assert ([[[c]] + later[0]] + later[1..])[1..] == later[1..];
  }

  // ---------- the two texts ----------

  /** The pieces say something in the same places, the first list in no more tokens than the second. */
  ghost predicate Alike(a: seq<seq<string>>, b: seq<seq<string>>) {
    |a| == |b| && (forall k :: 0 <= k < |a| ==> (a[k] == [] <==> b[k] == [])) && Total(a) <= Total(b)
  }

  lemma FirstOfBlanked(text: string, i: nat, n: Mode)
    requires i <= |text| && InText(n)
    ensures First(Blanked(text, i, n)) ==
            if i < |text| && Skip(text, i, n).Some? then Some(' ') else NextKept(text, i, n)
  {}

  lemma NeighbourSaysSomething(s: string, n: Mode, joins: Joins)
    requires s != "" && !IsBlank(s[0]) && s[0] != ';'
    ensures SaidIn(s, n, joins)[0] != []
  {
    FirstOfPieces(s, n);
    SomethingIsSaid(Pieces(s, n)[0], n, joins);
  }

  /** What one kept character adds on both sides, when the comment behind it, if any, parts or does not. */
  lemma ExtendAlike(c: char, m: Mode, ga: bool, gb: bool, a: seq<seq<string>>, b: seq<seq<string>>)
    requires a != [] && Alike(a, b)
    requires ga != gb ==> ga && a[0] != [] && !IsBlank(c) && c != ';'
    ensures Alike(Extend(c, m, ga, a), Extend(c, m, gb, b))
    ensures ga != gb || Total(a) < Total(b) ==> Total(Extend(c, m, ga, a)) < Total(Extend(c, m, gb, b))
  {
    ExtendTotal(c, m, ga, a);
    ExtendTotal(c, m, gb, b);
  }

  /** The stripped text says what the blanked one says if no comment parts, and otherwise in fewer tokens. */
  lemma {:induction false} StrippedAndBlanked(text: string, i: nat, m: Mode, joins: Joins)
    requires i <= |text| && Lexical(joins)
    ensures var a, b := SaidIn(Strip(text, i, m), Around(m), joins), SaidIn(Blanked(text, i, m), Around(m), joins);
            Alike(a, b) && if Parts(text, i, m, joins) then Total(a) < Total(b) else a == b
    decreases |text| - i
  {
    if i < |text| {
      StripFollows(text, i, m);
      if Skip(text, i, m).Some? {
        var (j, n) := Skip(text, i, m).value;
        StrippedAndBlanked(text, j, n, joins);
        if m.Code? {
          SaidTakesOne(' ', Blanked(text, j, n), Code, joins);
        } else {
          assert "" + Blanked(text, j, n) == Blanked(text, j, n);
        }
      } else {
        KeptIsAlike(text, i, m, joins);
      }
    }
  }

  lemma {:induction false} KeptIsAlike(text: string, i: nat, m: Mode, joins: Joins)
    requires i < |text| && Lexical(joins) && Skip(text, i, m).None?
    ensures var a, b := SaidIn(Strip(text, i, m), m, joins), SaidIn(Blanked(text, i, m), m, joins);
            Alike(a, b) && if Parts(text, i, m, joins) then Total(a) < Total(b) else a == b
    decreases |text| - i, 0
  {
    var c, n := text[i], After(m, text[i]);
    var s, t := Strip(text, i + 1, n), Blanked(text, i + 1, n);
    StrippedAndBlanked(text, i + 1, n, joins);
    StripFollows(text, i, m);
    SaidTakesOne(c, s, m, joins);
    SaidTakesOne(c, t, m, joins);
    var ga, gb := GoesOn(joins, c, First(s), n), GoesOn(joins, c, First(t), n);
    StrippedStartsWithKept(text, i + 1, n);
    FirstOfBlanked(text, i + 1, n);
    if ga != gb {
      NeighbourSaysSomething(s, n, joins);
    }
    ExtendAlike(c, m, ga, gb, SaidIn(s, n, joins), SaidIn(t, n, joins));
  }

  // ---------- the statements ----------

  lemma FrontThenBack(d: char, drop: bool, goes: bool, ts: seq<string>, c: char, dropLast: bool, goesLast: bool)
    requires ts == [] ==> !goes && !goesLast
    ensures Front(d, drop, goes, Back(ts, c, dropLast, goesLast)) ==
            Back(Front(d, drop, goes, ts), c, dropLast, goesLast)
  {
    if |ts| == 1 {
      Regroup([d], ts[0], [c]);
    }
  }

  lemma {:induction false} SilentIsBlank(s: string, m: Mode, joins: Joins)
    requires s != "" && Tokens(s, m, joins) == []
    ensures EndMode(s, m).Code? && IsBlank(s[|s| - 1])
    decreases s
  {
    if s[1..] != "" {
      SilentIsBlank(s[1..], After(m, s[0]), joins);
    }
  }

  lemma {:induction false} TokensTakeLast(s: string, c: char, m: Mode, joins: Joins)
    requires Lexical(joins)
    ensures var e := EndMode(s, m);
            Tokens(s + [c], m, joins) ==
            Back(Tokens(s, m, joins), c, e.Code? && IsBlank(c), s != "" && GoesOn(joins, s[|s| - 1], Some(c), e))
    decreases s
  {
    if s == "" {
      assert s + [c] == [c] + "";
      TokensTakeOne(c, "", m, joins);
    } else {
      TokensTakeLast(s[1..], c, After(m, s[0]), joins);
      FirstThenLast(s[0], s[1..], c, m, joins);
      assert s == [s[0]] + s[1..] && s + [c] == [s[0]] + (s[1..] + [c]);
    }
  }

  lemma FirstThenLast(d: char, rest: string, c: char, m: Mode, joins: Joins)
    requires Lexical(joins)
    requires var n := After(m, d);
             var e := EndMode(rest, n);
             Tokens(rest + [c], n, joins) ==
             Back(Tokens(rest, n, joins), c, e.Code? && IsBlank(c),
                  rest != "" && GoesOn(joins, rest[|rest| - 1], Some(c), e))
    ensures var s, e := [d] + rest, EndMode(rest, After(m, d));
            Tokens([d] + (rest + [c]), m, joins) ==
            Back(Tokens(s, m, joins), c, e.Code? && IsBlank(c), GoesOn(joins, s[|s| - 1], Some(c), e))
  {
    TokensTakeOne(d, rest + [c], m, joins);
    TokensTakeOne(d, rest, m, joins);
    if rest != "" {
      LastAddsBehind(d, rest, c, m, joins);
    }
  }

  lemma LastAddsBehind(d: char, rest: string, c: char, m: Mode, joins: Joins)
    requires Lexical(joins) && rest != ""
    ensures var n, e, ts := After(m, d), EndMode(rest, After(m, d)), Tokens(rest, After(m, d), joins);
            var drop, goes := m.Code? && IsBlank(d), GoesOn(joins, d, First(rest), n);
            var dropLast, goesLast := e.Code? && IsBlank(c), GoesOn(joins, rest[|rest| - 1], Some(c), e);
            Front(d, drop, goes, Back(ts, c, dropLast, goesLast)) ==
            Back(Front(d, drop, goes, ts), c, dropLast, goesLast)
  {
    var n, e, ts := After(m, d), EndMode(rest, After(m, d)), Tokens(rest, After(m, d), joins);
    if ts == [] {
      SilentIsBlank(rest, n, joins);
    }
    FrontThenBack(d, m.Code? && IsBlank(d), GoesOn(joins, d, First(rest), n), ts,
                  c, e.Code? && IsBlank(c), GoesOn(joins, rest[|rest| - 1], Some(c), e));
  }

  /** The last token without the blanks that an open quote leaves at its end. */
  function TrimLast(ts: seq<string>): (r: seq<string>)
    ensures |r| == |ts|
  {
    if ts == [] then [] else ts[..|ts| - 1] + [TrimEnd(ts[|ts| - 1], IsBlank)]
  }

  lemma {:induction false} TrimStartSaysAll(p: string, joins: Joins)
    ensures Tokens(TrimStart(p, IsBlank), Code, joins) == Tokens(p, Code, joins)
  {
    if p != "" && IsBlank(p[0]) {
      TrimStartSaysAll(p[1..], joins);
    }
  }

  lemma {:induction false} TrimEndSaysAll(p: string, joins: Joins)
    requires Lexical(joins)
    ensures Tokens(TrimEnd(p, IsBlank), Code, joins) == TrimLast(Tokens(p, Code, joins))
    decreases p
  {
    if p != "" {
      var init, c := p[..|p| - 1], p[|p| - 1];
      assert p == init + [c];
      TokensTakeLast(init, c, Code, joins);
      if IsBlank(c) {
        TrimEndSaysAll(init, joins);
        BlankAtTheEnd(init, c, joins);
      } else {
        LastEndsIn(Tokens(init, Code, joins), c,
                   init != "" && GoesOn(joins, init[|init| - 1], Some(c), EndMode(init, Code)));
      }
    }
  }

  lemma LastEndsIn(ts: seq<string>, c: char, goesOn: bool)
    requires !IsBlank(c)
    ensures TrimLast(Back(ts, c, false, goesOn)) == Back(ts, c, false, goesOn)
  {
    var r := Back(ts, c, false, goesOn);
    assert r[|r| - 1][|r[|r| - 1]| - 1] == c;
    assert r[..|r| - 1] + [r[|r| - 1]] == r;
  }

  lemma BlankAtTheEnd(init: string, c: char, joins: Joins)
    requires Lexical(joins) && IsBlank(c)
    ensures TrimLast(Tokens(init + [c], Code, joins)) == TrimLast(Tokens(init, Code, joins))
  {
    var ts := Tokens(init, Code, joins);
    TokensTakeLast(init, c, Code, joins);
    if !EndMode(init, Code).Code? {
      if ts == [] {
        SilentIsBlank(init, Code, joins);
      }
      var last := ts[|ts| - 1];
      assert (last + [c])[..|last|] == last;
    }
  }

  /** What a piece says as a statement. */
  function SaidTrimmed(ts: seq<string>, end: string): seq<seq<string>> {
    if ts == [] then [] else [TrimLast(ts) + (if end == "" then [] else [end])]
  }

  function SaidByEach(qs: seq<string>, joins: Joins): seq<seq<string>> {
    if qs == [] then [] else [Tokens(qs[0], Code, joins)] + SaidByEach(qs[1..], joins)
  }

  /** What the statements say, from what their pieces say. */
  function Sentences(ts: seq<seq<string>>): seq<seq<string>>
    requires ts != []
  {
    if |ts| == 1 then SaidTrimmed(ts[0], "") else SaidTrimmed(ts[0], ";") + Sentences(ts[1..])
  }

  lemma TrimmingSaysAll(p: string, joins: Joins)
    requires Lexical(joins)
    ensures var q, ts := Trim(p, IsBlank), Tokens(p, Code, joins);
            && Tokens(q, Code, joins) == TrimLast(ts) && (q == "" <==> ts == [])
            && EndMode(q, Code) == EndMode(p, Code)
  {
    TrimStartSaysAll(p, joins);
    TrimEndSaysAll(TrimStart(p, IsBlank), joins);
    BlankStartDoesNotMatter(p);
    BlankEndDoesNotMatter(TrimStart(p, IsBlank), Code);
    if Trim(p, IsBlank) != "" {
      StartsUnblank(p);
      SomethingIsSaid(Trim(p, IsBlank), Code, joins);
    }
  }

  lemma SemicolonIsSaid(q: string, joins: Joins)
    requires Lexical(joins) && EndMode(q, Code) == Code
    ensures Tokens(q + ";", Code, joins) == Tokens(q, Code, joins) + [";"]
  {
    TokensTakeLast(q, ';', Code, joins);
  }

  lemma StatementSays(p: string, end: string, joins: Joins)
    requires Lexical(joins) && (end == "" || (end == ";" && EndMode(p, Code) == Code))
    ensures SaidByEach(Statement(p, end), joins) == SaidTrimmed(Tokens(p, Code, joins), end)
  {
    var q := Trim(p, IsBlank);
    TrimmingSaysAll(p, joins);
    if q != "" {
      if end == ";" {
        SemicolonIsSaid(q, joins);
      } else {
        assert q + "" == q;
        assert Tokens(q, Code, joins) + [] == Tokens(q, Code, joins);
      }
      assert Statement(p, end)[1..] == [];
    }
  }

  lemma StartsUnblank(p: string)
    requires Trim(p, IsBlank) != ""
    ensures !IsBlank(Trim(p, IsBlank)[0])
  {
    TrimStartShortens(p);
    TrimEndShortens(TrimStart(p, IsBlank));
  }

  lemma {:induction false} SaidByBoth(a: seq<string>, b: seq<string>, joins: Joins)
    ensures SaidByEach(a + b, joins) == SaidByEach(a, joins) + SaidByEach(b, joins)
  {
    if a == [] {
      assert a + b == b;
    } else {
      assert (a + b)[1..] == a[1..] + b;
      SaidByBoth(a[1..], b, joins);
    }
  }

  lemma {:induction false} StatementsSay(ps: seq<string>, joins: Joins)
    requires Lexical(joins) && ps != [] && forall k :: 0 <= k < |ps| - 1 ==> EndMode(ps[k], Code) == Code
    ensures SaidByEach(Statements(ps), joins) == Sentences(Said(ps, Code, joins))
    decreases ps
  {
    if |ps| == 1 {
      StatementSays(ps[0], "", joins);
    } else {
      StatementSays(ps[0], ";", joins);
      StatementsSay(ps[1..], joins);
      SaidByBoth(Statement(ps[0], ";"), Statements(ps[1..]), joins);
      assert Said(ps, Code, joins)[1..] == Said(ps[1..], Code, joins);
    }
  }

  /** How many pieces but the last say something, and so keep their semicolon. */
  function Ended(ts: seq<seq<string>>): nat
    requires ts != []
  {
    if |ts| == 1 then 0 else (if ts[0] == [] then 0 else 1) + Ended(ts[1..])
  }

  lemma {:induction false} SentencesTotal(ts: seq<seq<string>>)
    requires ts != []
    ensures Total(Sentences(ts)) == Total(ts) + Ended(ts)
  {
    if |ts| == 1 {
      TotalOfOne(SaidTrimmed(ts[0], ""), []);
    } else {
      SentencesTotal(ts[1..]);
      TotalOfOne(SaidTrimmed(ts[0], ";"), Sentences(ts[1..]));
    }
  }

  lemma TotalOfOne(one: seq<seq<string>>, rest: seq<seq<string>>)
    requires |one| <= 1
    ensures Total(one + rest) == (if one == [] then 0 else |one[0]|) + Total(rest)
  {
    if one == [] {
      assert one + rest == rest;
    } else {
      assert (one + rest)[1..] == rest;
    }
  }

  lemma {:induction false} AlikeEnded(a: seq<seq<string>>, b: seq<seq<string>>)
    requires a != [] && |a| == |b| && forall k :: 0 <= k < |a| ==> (a[k] == [] <==> b[k] == [])
    ensures Ended(a) == Ended(b)
    decreases |a|
  {
    if |a| > 1 {
      AlikeEnded(a[1..], b[1..]);
    }
  }

  lemma TextSays(s: string, joins: Joins)
    requires Lexical(joins)
    ensures SaidByEach(Statements(Pieces(s, Code)), joins) == Sentences(SaidIn(s, Code, joins))
  {
    var ps := Pieces(s, Code);
    forall k | 0 <= k < |ps| - 1
      ensures EndMode(ps[k], Code) == Code
    {
      PiecesAreUnsplit(s, Code, k);
    }
    StatementsSay(ps, joins);
  }

  /**
   * For any notion of token: the statements found in a text say what the statements of the text with a
   * blank for each comment say, if and only if no comment stands between two characters that join.
   */
  lemma CommentsActAsBlanks(text: string, joins: Joins)
    requires Lexical(joins)
    ensures SaidByEach(TwoPass(text), joins) == SaidByEach(Statements(Pieces(Blanked(text, 0, Code), Code)), joins)
            <==> !Parts(text, 0, Code, joins)
  {
    var a, b := SaidIn(StripComments(text), Code, joins), SaidIn(Blanked(text, 0, Code), Code, joins);
    StrippedAndBlanked(text, 0, Code, joins);
    TextSays(StripComments(text), joins);
    TextSays(Blanked(text, 0, Code), joins);
    AlikeEnded(a, b);
    SentencesTotal(a);
    SentencesTotal(b);
  }

  // ---------- SQL's tokens ----------

  predicate IsWordCharacter(c: char) {
    'a' <= c <= 'z' || 'A' <= c <= 'Z' || '0' <= c <= '9' || c == '_' || (c >= '\U{80}' && !IsBlank(c))
  }

  const OPERATORS: set<string> := {"<=", ">=", "<>", "<<", ">>", "!=", "==", "||", "->"}

  /** Words, operators of two characters, doubled quotes, and the openings of comments. */
  predicate JoinInSql(c: char, d: char) {
    || (IsWordCharacter(c) && IsWordCharacter(d))
    || [c, d] in OPERATORS
    || (c == d && (c == '\'' || c == '"'))
    || Pairs(c, Some(d))
  }

  function SqlJoins(): (joins: Joins)
    ensures Lexical(joins)
    ensures forall c, d :: joins(c, d) == JoinInSql(c, d)
  {
    assert forall c, d :: [c, d] in OPERATORS ==> [c, d][0] == c && [c, d][1] == d;
    (c, d) => JoinInSql(c, d)
  }

  /** A comment that is glued is one of the tokens that are parted. */
  lemma {:induction false} GluingParts(text: string, i: nat, m: Mode, joins: Joins)
    requires i <= |text| && joins('-', '-') && joins('/', '*') && Glues(text, i, m)
    ensures Parts(text, i, m, joins)
    decreases |text| - i
  {
    match Skip(text, i, m)
    case Some((j, n)) => GluingParts(text, j, n, joins);
    case None =>
      if !(m.Code? && GluesAt(text, i)) {
        GluingParts(text, i + 1, After(m, text[i]), joins);
      }
  }

  /** The line break after a line comment vanishes with it, and words grow together; ... */
  lemma CommentsCanGlueWords()
    ensures TwoPass("a--b\nc") == ["ac"] && Parts("a--b\nc", 0, Code, SqlJoins())
  {
    assert StripComments("a--b\nc") == "ac";
    OneStatement("ac");
    assert PartsAt("a--b\nc", 0, SqlJoins());
  }

  /** ... so do the characters of an operator, ... */
  lemma CommentsCanGlueOperators()
    ensures TwoPass("a</**/=b") == ["a<=b"] && Parts("a</**/=b", 0, Code, SqlJoins())
  {
    assert StripComments("a</**/=b") == "a<=b";
    OneStatement("a<=b");
    assert PartsAt("a</**/=b", 1, SqlJoins());
  }

  /** ... and two quoted texts, which become one with a quote in it. */
  lemma CommentsCanGlueQuotes()
    ensures TwoPass("'a'/**/'b'") == ["'a''b'"] && Parts("'a'/**/'b'", 0, Code, SqlJoins())
  {
    assert StripComments("'a'/**/'b'") == "'a''b'";
    OneStatement("'a''b'");
    assert PartsAt("'a'/**/'b'", 2, SqlJoins());
  }
}
