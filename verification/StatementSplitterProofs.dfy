/** What the splitter keeps of a text, and when its statements survive being split again. */
module StatementSplitterProofs {
  import opened Common
  import opened Strings
  import opened StatementSplitter

  // ---------- splitting loses nothing ----------

  function Join(ps: seq<string>): string
    requires ps != []
  {
    if |ps| == 1 then ps[0] else ps[0] + ";" + Join(ps[1..])
  }

  lemma JoinPrefixed(a: string, ps: seq<string>)
    requires ps != []
    ensures Join(Prefixed(a, ps)) == a + Join(ps)
  {
    if |ps| > 1 {
      assert Prefixed(a, ps)[1..] == ps[1..];
      Regroup(a, ps[0], ";" + Join(ps[1..]));
      Regroup(a + ps[0], ";", Join(ps[1..]));
      Regroup(ps[0], ";", Join(ps[1..]));
    }
  }

  /** The pieces, joined by semicolons, are the whole text. */
  lemma {:induction false} PiecesJoin(s: string, m: Mode)
    ensures Join(Pieces(s, m)) == s
    decreases s
  {
    if s != "" {
      var ps := Pieces(s[1..], if s[0] == ';' && m.Code? then m else After(m, s[0]));
      if s[0] == ';' && m.Code? {
        PiecesJoin(s[1..], m);
        assert ([""] + ps)[1..] == ps;
        assert "" + ";" + Join(ps) == [s[0]] + s[1..];
      } else {
        PiecesJoin(s[1..], After(m, s[0]));
        JoinPrefixed([s[0]], ps);
      }
      assert [s[0]] + s[1..] == s;
    }
  }

  lemma {:induction false} StatementsAreShort(ps: seq<string>, q: string)
    requires ps != [] && q in Statements(ps)
    ensures |q| <= |Join(ps)|
    decreases ps
  {
    TrimShortens(ps[0]);
    if |ps| > 1 && q !in Statement(ps[0], ";") {
      StatementsAreShort(ps[1..], q);
    }
  }

  lemma {:induction false} TrimStartShortens(s: string)
    ensures |TrimStart(s, IsBlank)| <= |s| && (TrimStart(s, IsBlank) != "" ==> !IsBlank(TrimStart(s, IsBlank)[0]))
  {
    if s != "" && IsBlank(s[0]) {
      TrimStartShortens(s[1..]);
    }
  }

  lemma {:induction false} TrimEndShortens(s: string)
    ensures TrimEnd(s, IsBlank) <= s
    ensures TrimEnd(s, IsBlank) != "" ==> !IsBlank(TrimEnd(s, IsBlank)[|TrimEnd(s, IsBlank)| - 1])
  {
    if s != "" && IsBlank(s[|s| - 1]) {
      TrimEndShortens(s[..|s| - 1]);
    }
  }

  /** A trimmed text is no longer, and has nothing left to trim. */
  lemma TrimShortens(s: string)
    ensures |Trim(s, IsBlank)| <= |s| && Trim(Trim(s, IsBlank), IsBlank) == Trim(s, IsBlank)
  {
    TrimStartShortens(s);
    TrimEndShortens(TrimStart(s, IsBlank));
    if Trim(s, IsBlank) != "" {
      assert Trim(s, IsBlank)[0] == TrimStart(s, IsBlank)[0];
    }
  }

  // ---------- comments ----------

  /** Some comment opens outside quotes at or after position `i`. */
  predicate Opens(text: string, i: nat, m: Mode)
    requires i <= |text|
    decreases |text| - i
  {
    i < |text| &&
    ((m.Code? && (PairAt(text, i, '-', '-') || PairAt(text, i, '/', '*'))) || Opens(text, i + 1, After(m, text[i])))
  }

  lemma {:induction false} StrippedIsShort(text: string, i: nat, m: Mode)
    requires i <= |text|
    ensures |Strip(text, i, m)| <= |text| - i
    decreases |text| - i
  {
    if i < |text| {
      if Skip(text, i, m).Some? {
        StrippedIsShort(text, Skip(text, i, m).value.0, Skip(text, i, m).value.1);
      } else {
        StrippedIsShort(text, i + 1, After(m, text[i]));
      }
    }
  }

  /** Stripping changes exactly the texts in which a comment opens, and makes them shorter. */
  lemma {:induction false} StrippingChanges(text: string, i: nat, m: Mode)
    requires i <= |text| && InText(m)
    ensures if Opens(text, i, m) then |Strip(text, i, m)| < |text| - i else Strip(text, i, m) == text[i..]
    decreases |text| - i
  {
    if i < |text| {
      if Skip(text, i, m).Some? {
        StrippedIsShort(text, i + 2, Skip(text, i, m).value.1);
      } else {
        StrippingChanges(text, i + 1, After(m, text[i]));
        assert [text[i]] + text[i + 1..] == text[i..];
      }
    }
  }

  // ---------- splitting a statement again ----------

  /** Nothing to split at: every semicolon is quoted. */
  predicate Unsplit(s: string, m: Mode) {
    s == "" || (!(s[0] == ';' && m.Code?) && Unsplit(s[1..], After(m, s[0])))
  }

  function EndMode(s: string, m: Mode): Mode {
    if s == "" then m else EndMode(s[1..], After(m, s[0]))
  }

  /** Pieces have nothing to split at, and all but the last end outside quotes. */
  lemma {:induction false} PiecesAreUnsplit(s: string, m: Mode, k: nat)
    requires k < |Pieces(s, m)|
    ensures var p, n := Pieces(s, m)[k], if k == 0 then m else Code;
            Unsplit(p, n) && (k < |Pieces(s, m)| - 1 ==> EndMode(p, n) == Code)
    decreases s
  {
    if s != "" {
      if s[0] == ';' && m.Code? {
        if k > 0 {
          PiecesAreUnsplit(s[1..], m, k - 1);
        }
      } else {
        var ps := Pieces(s[1..], After(m, s[0]));
        PiecesAreUnsplit(s[1..], After(m, s[0]), k);
        if k == 0 {
          assert ([s[0]] + ps[0])[1..] == ps[0];
        }
      }
    }
  }

  lemma {:induction false} BlankStartDoesNotMatter(s: string)
    ensures Unsplit(s, Code) ==> Unsplit(TrimStart(s, IsBlank), Code)
    ensures EndMode(TrimStart(s, IsBlank), Code) == EndMode(s, Code)
  {
    if s != "" && IsBlank(s[0]) {
      BlankStartDoesNotMatter(s[1..]);
    }
  }

  lemma {:induction false} LastCharacter(s: string, c: char, m: Mode)
    ensures EndMode(s + [c], m) == After(EndMode(s, m), c)
    ensures Unsplit(s + [c], m) <==> Unsplit(s, m) && !(c == ';' && EndMode(s, m).Code?)
    decreases s
  {
    if s == "" {
      assert s + [c] == [c];
    } else {
      assert (s + [c])[1..] == s[1..] + [c];
      LastCharacter(s[1..], c, After(m, s[0]));
    }
  }

  lemma {:induction false} BlankEndDoesNotMatter(s: string, m: Mode)
    ensures Unsplit(s, m) ==> Unsplit(TrimEnd(s, IsBlank), m)
    ensures EndMode(TrimEnd(s, IsBlank), m) == EndMode(s, m)
    decreases s
  {
    if s != "" && IsBlank(s[|s| - 1]) {
      var init := s[..|s| - 1];
      assert s == init + [s[|s| - 1]];
      LastCharacter(init, s[|s| - 1], m);
      BlankEndDoesNotMatter(init, m);
    }
  }

  lemma {:induction false} UnsplitIsOnePiece(s: string, m: Mode)
    requires Unsplit(s, m)
    ensures Pieces(s, m) == [s]
    ensures EndMode(s, m) == Code ==> Pieces(s + ";", m) == [s, ""]
    decreases s
  {
    if s == "" {
      assert s + ";" == ";";
      assert ";"[1..] == "";
    } else {
      UnsplitIsOnePiece(s[1..], After(m, s[0]));
      assert [s[0]] + s[1..] == s;
      assert (s + ";")[1..] == s[1..] + ";";
    }
  }

  /** The statements a list of pieces gives, each from its piece. */
  lemma {:induction false} StatementHasPiece(ps: seq<string>, q: string) returns (k: nat)
    requires ps != [] && q in Statements(ps)
    ensures k < |ps| && Trim(ps[k], IsBlank) != "" && q == Trim(ps[k], IsBlank) + (if k < |ps| - 1 then ";" else "")
    decreases ps
  {
    k := 0;
    if |ps| > 1 && q !in Statement(ps[0], ";") {
      k := StatementHasPiece(ps[1..], q);
      k := k + 1;
    }
  }

  /** A trimmed piece, with its semicolon if it had one, is split into itself. */
  lemma TrimmedPieceIsOneStatement(p: string, ended: bool)
    requires Trim(p, IsBlank) != "" && Unsplit(p, Code) && (ended ==> EndMode(p, Code) == Code)
    ensures var q := Trim(p, IsBlank) + (if ended then ";" else ""); Statements(Pieces(q, Code)) == [q]
  {
    var t := Trim(p, IsBlank);
    TrimShortens(p);
    BlankStartDoesNotMatter(p);
    BlankEndDoesNotMatter(TrimStart(p, IsBlank), Code);
    UnsplitIsOnePiece(t, Code);
    assert t + "" == t;
    if ended {
      assert Statements([t, ""]) == Statement(t, ";") + Statements([""]);
    }
  }

  /** Splitting a statement again gives back the statement exactly if no comment opens in it. */
  lemma StatementsSplitAgain(text: string, q: string)
    requires q in TwoPass(text)
    ensures TwoPass(q) == [q] <==> !Opens(q, 0, Code)
  {
    var ps := Pieces(StripComments(text), Code);
    var k := StatementHasPiece(ps, q);
    PiecesAreUnsplit(StripComments(text), Code, k);
    TrimmedPieceIsOneStatement(ps[k], k < |ps| - 1);
    StrippingChanges(q, 0, Code);
    assert q[0..] == q;
    if Opens(q, 0, Code) && q in TwoPass(q) {
      StatementsAreShort(Pieces(StripComments(q), Code), q);
      PiecesJoin(StripComments(q), Code);
    }
  }

  // ---------- which texts have statements that do not survive ----------

  /** The first character from position `i` on that is in no comment. */
  function NextKept(text: string, i: nat, m: Mode): Option<char>
    requires i <= |text|
    decreases |text| - i
  {
    if i == |text| then None
    else match Skip(text, i, m)
      case Some((j, n)) => NextKept(text, j, n)
      case None => Some(text[i])
  }

  /** A comment opens right behind position `i`, and its removal turns what is around it into a comment. */
  predicate GluesAt(text: string, i: nat)
    requires i < |text|
  {
    && (PairAt(text, i + 1, '-', '-') || PairAt(text, i + 1, '/', '*'))
    && Pairs(text[i], NextKept(text, i + 1, Code))
  }

  predicate Pairs(c: char, next: Option<char>) {
    (c == '-' && next == Some('-')) || (c == '/' && next == Some('*'))
  }

  /** At some character at or after `i` that is neither quoted nor in a comment, a removed comment glues. */
  predicate Glues(text: string, i: nat, m: Mode)
    requires i <= |text|
    decreases |text| - i
  {
    i < |text| &&
    match Skip(text, i, m)
    case Some((j, n)) => Glues(text, j, n)
    case None => (m.Code? && GluesAt(text, i)) || Glues(text, i + 1, After(m, text[i]))
  }

  /** A comment opens outside quotes, by recursion on the text. */
  predicate OpensIn(s: string, m: Mode) {
    s != "" && ((m.Code? && Pairs(s[0], First(s[1..]))) || OpensIn(s[1..], After(m, s[0])))
  }

  function First(s: string): Option<char> { if s == "" then None else Some(s[0]) }

  lemma {:induction false} OpensIsOpensIn(text: string, i: nat, m: Mode)
    requires i <= |text|
    ensures Opens(text, i, m) == OpensIn(text[i..], m)
    decreases |text| - i
  {
    if i < |text| {
      OpensIsOpensIn(text, i + 1, After(m, text[i]));
      assert text[i..][1..] == text[i + 1..];
    }
  }

  lemma {:induction false} StrippedStartsWithKept(text: string, i: nat, m: Mode)
    requires i <= |text|
    ensures First(Strip(text, i, m)) == NextKept(text, i, m)
    decreases |text| - i
  {
    if i < |text| {
      StripFollows(text, i, m);
      if Skip(text, i, m).Some? {
        StrippedStartsWithKept(text, Skip(text, i, m).value.0, Skip(text, i, m).value.1);
      }
    }
  }

  /** Two characters outside quotes are neighbours without their comments exactly if they were before or are glued. */
  lemma GluedIfNotNeighbours(text: string, i: nat)
    requires i < |text| && Skip(text, i, Code).None?
    ensures Pairs(text[i], NextKept(text, i + 1, Code)) <==> GluesAt(text, i)
  {
    if i + 1 < |text| && Skip(text, i + 1, Code).None? {
      assert NextKept(text, i + 1, Code) == Some(text[i + 1]);
    }
  }

  /** A comment opens in the stripped text exactly if a removed comment glues. */
  lemma {:induction false} StrippingOpens(text: string, i: nat, m: Mode)
    requires i <= |text|
    ensures OpensIn(Strip(text, i, m), Around(m)) <==> Glues(text, i, m)
    decreases |text| - i
  {
    if i < |text| {
      StripFollows(text, i, m);
      if Skip(text, i, m).Some? {
        StrippingOpens(text, Skip(text, i, m).value.0, Skip(text, i, m).value.1);
      } else {
        var n := After(m, text[i]);
        StrippingOpens(text, i + 1, n);
        OpensInOne(text[i], Strip(text, i + 1, n), m);
        if m.Code? {
          StrippedStartsWithKept(text, i + 1, n);
          GluedIfNotNeighbours(text, i);
          assert Pairs(text[i], First(Strip(text, i + 1, n))) ==> n == Code;
          assert GluesAt(text, i) ==> n == Code;
        }
      }
    }
  }

  lemma OpensInOne(c: char, s: string, m: Mode)
    ensures OpensIn([c] + s, m) <==> (m.Code? && Pairs(c, First(s))) || OpensIn(s, After(m, c))
  {
    assert ([c] + s)[1..] == s;
  }

  /** A comment opens in some of the pieces. */
  predicate SomeOpens(ps: seq<string>, m: Mode)
    requires ps != []
  {
    OpensIn(ps[0], m) || (|ps| > 1 && SomeOpens(ps[1..], Code))
  }

  lemma FirstOfPieces(s: string, m: Mode)
    ensures First(Pieces(s, m)[0]) == (if First(s) == Some(';') && m.Code? then None else First(s))
  {}

  /** Splitting at semicolons parts no comment opening. */
  lemma {:induction false} PiecesOpen(s: string, m: Mode)
    requires InText(m)
    ensures SomeOpens(Pieces(s, m), m) <==> OpensIn(s, m)
    decreases s
  {
    if s != "" {
      var n := After(m, s[0]);
      if s[0] == ';' && m.Code? {
        var ps := Pieces(s[1..], m);
        PiecesOpen(s[1..], m);
        assert ([""] + ps)[1..] == ps;
      } else {
        var ps := Pieces(s[1..], n);
        PiecesOpen(s[1..], n);
        FirstOfPieces(s[1..], n);
        OpensInOne(s[0], ps[0], m);
        assert Prefixed([s[0]], ps)[1..] == ps[1..];
      }
    }
  }

  lemma {:induction false} LastDoesNotOpen(s: string, c: char, m: Mode)
    requires c != '-' && c != '*'
    ensures OpensIn(s + [c], m) <==> OpensIn(s, m)
    decreases s
  {
    if s == "" {
      assert s + [c] == [c] && [c][1..] == "";
    } else {
      assert (s + [c])[1..] == s[1..] + [c];
      LastDoesNotOpen(s[1..], c, After(m, s[0]));
      assert First(s[1..] + [c]) == if s[1..] == "" then Some(c) else First(s[1..]);
    }
  }

  lemma {:induction false} TrimStartOpens(s: string)
    ensures OpensIn(TrimStart(s, IsBlank), Code) <==> OpensIn(s, Code)
  {
    if s != "" && IsBlank(s[0]) {
      TrimStartOpens(s[1..]);
    }
  }

  lemma {:induction false} TrimEndOpens(s: string)
    ensures OpensIn(TrimEnd(s, IsBlank), Code) <==> OpensIn(s, Code)
  {
    if s != "" && IsBlank(s[|s| - 1]) {
      TrimEndOpens(s[..|s| - 1]);
      assert s == s[..|s| - 1] + [s[|s| - 1]];
      LastDoesNotOpen(s[..|s| - 1], s[|s| - 1], Code);
    }
  }

  lemma StatementOpens(piece: string, end: string)
    requires end == "" || end == ";"
    ensures OpensIn(piece, Code) <==> exists q :: q in Statement(piece, end) && OpensIn(q, Code)
  {
    var t := Trim(piece, IsBlank);
    TrimStartOpens(piece);
    TrimEndOpens(TrimStart(piece, IsBlank));
    assert t + "" == t;
    LastDoesNotOpen(t, ';', Code);
    if OpensIn(piece, Code) {
      assert t + end in Statement(piece, end);
    }
  }

  lemma {:induction false} StatementsOpen(ps: seq<string>)
    requires ps != []
    ensures SomeOpens(ps, Code) <==> exists q :: q in Statements(ps) && OpensIn(q, Code)
  {
    if |ps| == 1 {
      StatementOpens(ps[0], "");
    } else {
      StatementOpens(ps[0], ";");
      StatementsOpen(ps[1..]);
    }
  }

  lemma GluingShows(text: string)
    ensures Glues(text, 0, Code) <==> exists q :: q in TwoPass(text) && OpensIn(q, Code)
  {
    StrippingOpens(text, 0, Code);
    PiecesOpen(StripComments(text), Code);
    StatementsOpen(Pieces(StripComments(text), Code));
  }

  lemma SplitsAgain(text: string, q: string)
    requires q in TwoPass(text)
    ensures TwoPass(q) == [q] <==> !OpensIn(q, Code)
  {
    StatementsSplitAgain(text, q);
    OpensIsOpensIn(q, 0, Code);
    assert q[0..] == q;
  }

  /** All statements of a text survive being split again if and only if no removed comment glues in it. */
  lemma TextsSplitAgain(text: string)
    ensures (forall q :: q in TwoPass(text) ==> TwoPass(q) == [q]) <==> !Glues(text, 0, Code)
  {
    GluingShows(text);
    if Glues(text, 0, Code) {
      var q :| q in TwoPass(text) && OpensIn(q, Code);
      SplitsAgain(text, q);
    } else {
      forall q | q in TwoPass(text)
        ensures TwoPass(q) == [q]
      {
        SplitsAgain(text, q);
      }
    }
  }

  lemma OneStatement(q: string)
    requires q != "" && !IsBlank(q[0]) && !IsBlank(q[|q| - 1]) && Unsplit(q, Code)
    ensures Statements(Pieces(q, Code)) == [q]
  {
    UnsplitIsOnePiece(q, Code);
    assert Trim(q, IsBlank) == q;
    assert q + "" == q;
  }

  /** Comments vanish without leaving a blank, so that what they separated can become a comment itself. */
  lemma CommentsCanGlueAComment()
    ensures TwoPass("1-/**/-2") == ["1--2"] && Opens("1--2", 0, Code)
  {
    assert StripComments("1-/**/-2") == "1--2";
    OneStatement("1--2");
  }
}
