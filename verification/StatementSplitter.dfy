/** The editor's one-pass statement splitter, against stripping comments first and splitting afterwards. */
module StatementSplitter {
  import opened Common
  import opened Strings

  // ---------- the two passes ----------

  datatype Mode = Code | SingleQuoted | DoubleQuoted | LineComment | BlockComment

  ghost predicate InText(m: Mode) { m.Code? || m.SingleQuoted? || m.DoubleQuoted? }

  /** The mode of the text around a comment is `Code`. */
  function Around(m: Mode): Mode { if m.LineComment? || m.BlockComment? then Code else m }

  /** A quote character opens and closes its own kind of quoted text; a doubled one closes it and opens it again. */
  function After(m: Mode, c: char): Mode {
    match m
    case SingleQuoted => if c == '\'' then Code else SingleQuoted
    case DoubleQuoted => if c == '"' then Code else DoubleQuoted
    case Code => if c == '\'' then SingleQuoted else if c == '"' then DoubleQuoted else Code
    case _ => m
  }

  predicate PairAt(text: string, i: nat, first: char, second: char) {
    i + 1 < |text| && text[i] == first && text[i + 1] == second
  }

  /** First pass: the text from position `i` on, read in mode `m`, without its comments. */
  function Strip(text: string, i: nat, m: Mode): string
    requires i <= |text|
    decreases |text| - i
  {
    if i == |text| then ""
    else if m.LineComment? then Strip(text, i + 1, if text[i] == '\n' then Code else m)
    else if m.BlockComment? then
      if PairAt(text, i, '*', '/') then Strip(text, i + 2, Code) else Strip(text, i + 1, m)
    else if m.Code? && PairAt(text, i, '-', '-') then Strip(text, i + 2, LineComment)
    else if m.Code? && PairAt(text, i, '/', '*') then Strip(text, i + 2, BlockComment)
    else [text[i]] + Strip(text, i + 1, After(m, text[i]))
  }

  function StripComments(text: string): string { Strip(text, 0, Code) }

  /** Second pass: the pieces between semicolons outside quotes. */
  function Pieces(s: string, m: Mode): (ps: seq<string>)
    ensures ps != []
  {
    if s == "" then [""]
    else if s[0] == ';' && m.Code? then [""] + Pieces(s[1..], m)
    else Prefixed([s[0]], Pieces(s[1..], After(m, s[0])))
  }

  function Prefixed(a: string, ps: seq<string>): (r: seq<string>)
    requires ps != []
    ensures r != []
  {
    [a + ps[0]] + ps[1..]
  }

  /** The characters `String.prototype.trim` removes. */
  predicate IsBlank(c: char) {
    var u := c as int;
    || 0x09 <= u <= 0x0D || u == 0x20 || u == 0xA0 || u == 0x1680 || 0x2000 <= u <= 0x200A
    || u == 0x2028 || u == 0x2029 || u == 0x202F || u == 0x205F || u == 0x3000 || u == 0xFEFF
  }

  function Statement(piece: string, end: string): seq<string> {
    if Trim(piece, IsBlank) == "" then [] else [Trim(piece, IsBlank) + end]
  }

  /** The non-blank pieces, trimmed; all but the last get their semicolon back. */
  function Statements(ps: seq<string>): seq<string>
    requires ps != []
  {
    if |ps| == 1 then Statement(ps[0], "") else Statement(ps[0], ";") + Statements(ps[1..])
  }

  function TwoPass(text: string): seq<string> { Statements(Pieces(StripComments(text), Code)) }

  // ---------- the one pass ----------

  /** What the scan still adds: the rest of the piece `current` and the pieces after it. */
  function Rest(current: string, s: string, m: Mode): seq<string> { Statements(Prefixed(current, Pieces(s, m))) }

  lemma PrefixedNothing(ps: seq<string>)
    requires ps != []
    ensures Prefixed("", ps) == ps
  {
    assert "" + ps[0] == ps[0];
  }

  lemma RestTakesOne(current: string, c: char, s: string, m: Mode)
    ensures Rest(current, [c] + s, m) ==
              if c == ';' && m.Code? then Statement(current, ";") + Rest("", s, Code)
              else Rest(current + [c], s, After(m, c))
  {
    assert ([c] + s)[1..] == s;
    assert Pieces([c] + s, m) ==
           if c == ';' && m.Code? then [""] + Pieces(s, m) else Prefixed([c], Pieces(s, After(m, c)));
    var ps := Pieces(s, if c == ';' && m.Code? then m else After(m, c));
    if c == ';' && m.Code? {
      PrefixedNothing(ps);
      assert Prefixed(current, [""] + ps) == [current + ""] + ps;
      assert current + "" == current;
    } else {
      Regroup(current, [c], ps[0]);
      assert Prefixed(current, Prefixed([c], ps)) == Prefixed(current + [c], ps);
    }
  }

  lemma RestEnds(current: string, m: Mode)
    ensures Rest(current, "", m) == Statement(current, "")
  {
    assert Prefixed(current, [""]) == [current + ""];
    assert current + "" == current;
  }

  /** Where the scan goes on after position `i`, if it is not to add the character there. */
  function Skip(text: string, i: nat, m: Mode): (r: Option<(nat, Mode)>)
    requires i < |text|
    ensures r.Some? ==> i < r.value.0 <= |text|
  {
    match m
    case LineComment => Some((i + 1, if text[i] == '\n' then Code else m))
    case BlockComment => if PairAt(text, i, '*', '/') then Some((i + 2, Code)) else Some((i + 1, m))
    case Code =>
      if PairAt(text, i, '-', '-') then Some((i + 2, LineComment))
      else if PairAt(text, i, '/', '*') then Some((i + 2, BlockComment))
      else None
    case _ => None
  }

  /** The statements still to come at position `i`, in mode `m`, with `current` accumulated. */
  function Scan(text: string, i: nat, m: Mode, current: string): seq<string>
    requires i <= |text|
    decreases |text| - i
  {
    if i == |text| then Statement(current, "")
    else
      match Skip(text, i, m)
      case Some((j, n)) => Scan(text, j, n, current)
      case None =>
        if text[i] == ';' && m.Code? then Statement(current, ";") + Scan(text, i + 1, Code, "")
        else Scan(text, i + 1, After(m, text[i]), current + [text[i]])
  }

  lemma StripFollows(text: string, i: nat, m: Mode)
    requires i < |text|
    ensures Strip(text, i, m) ==
              match Skip(text, i, m)
              case Some((j, n)) => Strip(text, j, n)
              case None => [text[i]] + Strip(text, i + 1, After(m, text[i]))
    ensures Skip(text, i, m).Some? ==> Around(m) == Around(Skip(text, i, m).value.1)
    ensures Skip(text, i, m).None? ==> Around(m) == m && Around(After(m, text[i])) == After(m, text[i])
  {}

  lemma ScanFollows(text: string, i: nat, m: Mode, current: string)
    requires i < |text|
    ensures Scan(text, i, m, current) ==
              match Skip(text, i, m)
              case Some((j, n)) => Scan(text, j, n, current)
              case None =>
                if text[i] == ';' && m.Code? then Statement(current, ";") + Scan(text, i + 1, Code, "")
                else Scan(text, i + 1, After(m, text[i]), current + [text[i]])
  {}

  lemma KeptIsTaken(text: string, i: nat, m: Mode, current: string)
    requires i < |text| && Skip(text, i, m).None?
    ensures var (c, s) := (text[i], Strip(text, i + 1, After(m, text[i])));
            Rest(current, Strip(text, i, m), m) ==
              if c == ';' && m.Code? then Statement(current, ";") + Rest("", s, Code)
              else Rest(current + [c], s, After(m, c))
  {
    StripFollows(text, i, m);
    RestTakesOne(current, text[i], Strip(text, i + 1, After(m, text[i])), m);
  }

  lemma {:induction false} ScanIsSplitOfStripped(text: string, i: nat, m: Mode, current: string)
    requires i <= |text|
    ensures Scan(text, i, m, current) == Rest(current, Strip(text, i, m), Around(m))
    decreases |text| - i
  {
    if i == |text| {
      RestEnds(current, Around(m));
    } else {
      StripFollows(text, i, m);
      ScanFollows(text, i, m, current);
      if Skip(text, i, m).Some? {
        ScanIsSplitOfStripped(text, Skip(text, i, m).value.0, Skip(text, i, m).value.1, current);
      } else {
        var c := text[i];
        KeptIsTaken(text, i, m, current);
        if c == ';' && m.Code? {
          ScanIsSplitOfStripped(text, i + 1, Code, "");
        } else {
          ScanIsSplitOfStripped(text, i + 1, After(m, c), current + [c]);
        }
      }
    }
  }

  lemma ScanIsTwoPass(text: string)
    ensures Scan(text, 0, Code, "") == TwoPass(text)
  {
    ScanIsSplitOfStripped(text, 0, Code, "");
    PrefixedNothing(Pieces(StripComments(text), Code));
  }

  /** The scan finds what the two passes find, on every text. */
  method DetectQueries(text: string) returns (queries: seq<string>)
    ensures queries == TwoPass(text)
  {
    queries := [];
    var currentSql := "";
    var inSingleQuote, inDoubleQuote, inLineComment, inBlockComment := false, false, false, false;
    var i := 0;
    while i < |text|
      invariant i <= |text|
      invariant Exclusive(inSingleQuote, inDoubleQuote, inLineComment, inBlockComment)
      invariant queries + Scan(text, i, ModeOf(inSingleQuote, inDoubleQuote, inLineComment, inBlockComment), currentSql)
                  == Scan(text, 0, Code, "")
    {
      var c := text[i];
      ScanFollows(text, i, ModeOf(inSingleQuote, inDoubleQuote, inLineComment, inBlockComment), currentSql);
      if inLineComment {
        if c == '\n' {
          inLineComment := false;
        }
        i := i + 1;
        continue;
      }
      if inBlockComment {
        if PairAt(text, i, '*', '/') {
          inBlockComment := false;
          i := i + 1;
        }
        i := i + 1;
        continue;
      }
      if inSingleQuote {
        if c == '\'' {
          if PairAt(text, i, '\'', '\'') {
            ScanFollows(text, i + 1, Code, currentSql + "'");
            currentSql := currentSql + "'";
            i := i + 1;
          } else {
            inSingleQuote := false;
          }
        }
      } else if inDoubleQuote {
        if c == '"' {
          inDoubleQuote := false;
        }
      } else {
        if PairAt(text, i, '-', '-') {
          inLineComment := true;
          i := i + 2;
          continue;
        }
        if PairAt(text, i, '/', '*') {
          inBlockComment := true;
          i := i + 2;
          continue;
        }
        if c == '\'' {
          inSingleQuote := true;
        }
        if c == '"' {
          inDoubleQuote := true;
        }
      }
      if c == ';' && !inSingleQuote && !inDoubleQuote && !inLineComment && !inBlockComment {
        Regroup(queries, Statement(currentSql, ";"), Scan(text, i + 1, Code, ""));
        var trimmed := Trim(currentSql, IsBlank);
        if |trimmed| > 0 {
          queries := queries + [trimmed + ";"];
        }
        currentSql := "";
      } else {
        currentSql := currentSql + [c];
      }
      i := i + 1;
    }
    ScanIsTwoPass(text);
    var trimmed := Trim(currentSql, IsBlank);
    assert trimmed + "" == trimmed;
    if |trimmed| > 0 {
      queries := queries + [trimmed];
    }
  }

  ghost predicate Exclusive(a: bool, b: bool, c: bool, d: bool) {
    && (a ==> !b && !c && !d) && (b ==> !c && !d) && (c ==> !d)
  }

  ghost function ModeOf(inSingleQuote: bool, inDoubleQuote: bool, inLineComment: bool, inBlockComment: bool): Mode {
    if inSingleQuote then SingleQuoted
    else if inDoubleQuote then DoubleQuoted
    else if inLineComment then LineComment
    else if inBlockComment then BlockComment
    else Code
  }
}
