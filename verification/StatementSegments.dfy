/** The statements of a text, told from how the text reads: ordinary characters, quoted texts, comments, semicolons. */
module StatementSegments {
  import opened Common
  import opened Strings
  import opened StatementSplitter

  // ---------- how a text reads ----------

  /** What is not closed goes on to the end of the text. */
  datatype Segment =
    | Plain(c: char)
    | Semicolon
    | Quoted(q: char, content: string, closed: bool)
    | ToLineEnd(content: string, closed: bool)
    | Bracketed(content: string, closed: bool)

  function Shown(g: Segment): string {
    match g
    case Plain(c) => [c]
    case Semicolon => ";"
    case Quoted(q, content, closed) => [q] + content + (if closed then [q] else "")
    case ToLineEnd(content, closed) => "--" + content + (if closed then "\n" else "")
    case Bracketed(content, closed) => "/*" + content + (if closed then "*/" else "")
  }

  function Show(gs: seq<Segment>): string { if gs == [] then "" else Shown(gs[0]) + Show(gs[1..]) }

  predicate IsQuote(c: char) { c == '\'' || c == '"' }

  predicate Begins(s: string, c: char) { s != "" && s[0] == c }

  ghost predicate HasPair(s: string, a: char, b: char) {
    exists i :: 0 <= i < |s| - 1 && s[i] == a && s[i + 1] == b
  }

  /** The segment reads as what it is said to be before the text `next`. */
  ghost predicate Fits(g: Segment, next: string) {
    match g
    case Plain(c) =>
      !IsQuote(c) && c != ';' && !(c == '-' && Begins(next, '-')) && !(c == '/' && Begins(next, '*'))
    case Semicolon => true
    case Quoted(q, content, closed) => IsQuote(q) && q !in content && (closed || next == "")
    case ToLineEnd(content, closed) => '\n' !in content && (closed || next == "")
    case Bracketed(content, closed) => !HasPair(content, '*', '/') && (closed || next == "")
  }

  ghost predicate AllFit(gs: seq<Segment>) {
    gs != [] ==> Fits(gs[0], Show(gs[1..])) && AllFit(gs[1..])
  }

  predicate IsComment(g: Segment) { g.ToLineEnd? || g.Bracketed? }

  /** The text without the comments. */
  function Kept(gs: seq<Segment>): string { if gs == [] then "" else Own(gs[0]) + Kept(gs[1..]) }

  function Own(g: Segment): string { if IsComment(g) then "" else Shown(g) }

  /** The same, cut at the semicolons. */
  function CutAtSemicolons(gs: seq<Segment>): (ps: seq<string>)
    ensures ps != []
  {
    if gs == [] then [""]
    else if gs[0].Semicolon? then [""] + CutAtSemicolons(gs[1..])
    else if IsComment(gs[0]) then CutAtSemicolons(gs[1..])
    else Prefixed(Shown(gs[0]), CutAtSemicolons(gs[1..]))
  }

  // ---------- every text reads in some way ----------

  /** The first occurrence of a character. */
  function IndexOf(s: string, c: char): (r: Option<nat>)
    ensures r.Some? ==> r.value < |s| && s[r.value] == c && c !in s[..r.value]
    ensures r.None? ==> c !in s
  {
    if s == "" then None
    else if s[0] == c then Some(0)
    else
      match IndexOf(s[1..], c)
      case Some(i) => assert s[..i + 1] == [s[0]] + s[1..][..i]; Some(i + 1)
      case None => None
  }

  /** The first `*` that a slash follows. */
  function EndOfBlock(s: string): (r: Option<nat>)
    ensures r.Some? ==> r.value + 1 < |s| && s[r.value] == '*' && s[r.value + 1] == '/'
    ensures r.Some? ==> !HasPair(s[..r.value], '*', '/')
    ensures r.None? ==> !HasPair(s, '*', '/')
  {
    if |s| < 2 then None
    else if s[0] == '*' && s[1] == '/' then Some(0)
    else
      match EndOfBlock(s[1..])
      case Some(i) => assert s[..i + 1] == [s[0]] + s[1..][..i]; Some(i + 1)
      case None => assert forall i :: 1 <= i < |s| ==> s[i] == s[1..][i - 1]; None
  }

  lemma {:induction false} EveryTextReads(text: string) returns (gs: seq<Segment>)
    ensures Show(gs) == text && AllFit(gs)
    decreases |text|
  {
    if text == "" {
      gs := [];
    } else {
      var g := FirstSegment(text);
      var rest := EveryTextReads(text[|Shown(g)|..]);
      gs := [g] + rest;
      assert gs[1..] == rest;
    }
  }

  lemma FirstSegment(text: string) returns (g: Segment)
    requires text != ""
    ensures Shown(g) != "" && Shown(g) <= text && Fits(g, text[|Shown(g)|..])
  {
    if IsQuote(text[0]) {
      g := FirstQuoted(text);
    } else if text[0] == ';' {
      g := Semicolon;
    } else if PairAt(text, 0, '-', '-') {
      g := FirstToLineEnd(text);
    } else if PairAt(text, 0, '/', '*') {
      g := FirstBracketed(text);
    } else {
      g := Plain(text[0]);
    }
  }

  lemma FirstQuoted(text: string) returns (g: Segment)
    requires text != "" && IsQuote(text[0])
    ensures Shown(g) != "" && Shown(g) <= text && Fits(g, text[|Shown(g)|..])
  {
    var end := IndexOf(text[1..], text[0]);
    g := if end.Some? then Quoted(text[0], text[1..][..end.value], true) else Quoted(text[0], text[1..], false);
    assert Shown(g) == if end.Some? then text[..end.value + 2] else text;
  }

  lemma FirstToLineEnd(text: string) returns (g: Segment)
    requires PairAt(text, 0, '-', '-')
    ensures Shown(g) != "" && Shown(g) <= text && Fits(g, text[|Shown(g)|..])
  {
    var end := IndexOf(text[2..], '\n');
    g := if end.Some? then ToLineEnd(text[2..][..end.value], true) else ToLineEnd(text[2..], false);
    assert Shown(g) == if end.Some? then text[..end.value + 3] else text;
  }

  lemma FirstBracketed(text: string) returns (g: Segment)
    requires PairAt(text, 0, '/', '*')
    ensures Shown(g) != "" && Shown(g) <= text && Fits(g, text[|Shown(g)|..])
  {
    var end := EndOfBlock(text[2..]);
    g := if end.Some? then Bracketed(text[2..][..end.value], true) else Bracketed(text[2..], false);
    assert Shown(g) == if end.Some? then text[..end.value + 4] else text;
  }

  // ---------- the comments go ----------

  /** `part` stands in the text at `i`. */
  ghost predicate StandsAt(text: string, i: nat, part: string) { i + |part| <= |text| && text[i..i + |part|] == part }

  lemma TailStands(text: string, i: nat, part: string)
    requires StandsAt(text, i, part) && part != ""
    ensures text[i] == part[0] && StandsAt(text, i + 1, part[1..]) && part == [part[0]] + part[1..]
  {
    assert text[i] == text[i..i + |part|][0];
    assert text[i + 1..i + |part|] == text[i..i + |part|][1..];
  }

  /** Quoted text, in which the closing quote does not occur, is kept as it is. */
  lemma {:induction false} QuotedIsKept(text: string, i: nat, q: char, content: string)
    requires IsQuote(q) && q !in content && StandsAt(text, i, content)
    ensures var m := After(Code, q); Strip(text, i, m) == content + Strip(text, i + |content|, m)
    decreases |content|
  {
    var m, rest := After(Code, q), Strip(text, i + |content|, After(Code, q));
    if content == "" {
      assert content + rest == rest;
    } else {
      TailStands(text, i, content);
      assert content[0] in content;
      QuotedIsKept(text, i + 1, q, content[1..]);
      OneIsKept(text, i, m, content[0]);
      Regroup([content[0]], content[1..], rest);
    }
  }

  lemma OneIsKept(text: string, i: nat, m: Mode, c: char)
    requires i < |text| && text[i] == c && After(m, c) == m && (m.SingleQuoted? || m.DoubleQuoted?)
    ensures Strip(text, i, m) == [c] + Strip(text, i + 1, m)
  {}

  lemma {:induction false} LineIsDropped(text: string, i: nat, content: string)
    requires '\n' !in content && StandsAt(text, i, content)
    ensures Strip(text, i, LineComment) == Strip(text, i + |content|, LineComment)
    decreases |content|
  {
    if content != "" {
      TailStands(text, i, content);
      assert content[0] in content;
      LineIsDropped(text, i + 1, content[1..]);
    }
  }

  /** `*` at the end of the content is followed by no slash: by the end of the text or by the closing `*`. */
  lemma {:induction false} BlockIsDropped(text: string, i: nat, content: string)
    requires !HasPair(content, '*', '/') && StandsAt(text, i, content)
    requires i + |content| == |text| || text[i + |content|] == '*'
    ensures Strip(text, i, BlockComment) == Strip(text, i + |content|, BlockComment)
    decreases |content|
  {
    if content != "" {
      TailStands(text, i, content);
      if |content| > 1 {
        TailStands(text, i + 1, content[1..]);
      }
      assert !PairAt(text, i, '*', '/');
      if HasPair(content[1..], '*', '/') {
        PairBehind(content, '*', '/');
      }
      BlockIsDropped(text, i + 1, content[1..]);
    }
  }

  lemma PairBehind(s: string, a: char, b: char)
    requires s != "" && HasPair(s[1..], a, b)
    ensures HasPair(s, a, b)
  {
    var i :| 0 <= i < |s[1..]| - 1 && s[1..][i] == a && s[1..][i + 1] == b;
    var k := i + 1;
    assert s[k] == a && s[k + 1] == b;
  }

  lemma SegmentThenRest(text: string, i: nat, gs: seq<Segment>)
    requires i <= |text| && gs != [] && text[i..] == Show(gs)
    ensures StandsAt(text, i, Shown(gs[0])) && text[i + |Shown(gs[0])|..] == Show(gs[1..])
  {
    assert text[i..][..|Shown(gs[0])|] == Shown(gs[0]);
  }

  /** The segment stands at `i`, and it alone is what is kept up to its end. */
  ghost predicate Goes(text: string, i: nat, g: Segment) {
    StandsAt(text, i, Shown(g)) && Strip(text, i, Code) == Own(g) + Strip(text, i + |Shown(g)|, Code)
  }

  /** What a segment adds to the stripped text. */
  lemma SegmentIsStripped(text: string, i: nat, g: Segment, next: string)
    requires StandsAt(text, i, Shown(g)) && text[i + |Shown(g)|..] == next && Fits(g, next)
    ensures Goes(text, i, g)
  {
    match g
    case Plain(_) => PlainIsStripped(text, i, g, next);
    case Semicolon => PlainIsStripped(text, i, g, next);
    case Quoted(_, _, _) => QuotedIsStripped(text, i, g, next);
    case ToLineEnd(_, _) => ToLineEndIsStripped(text, i, g, next);
    case Bracketed(_, _) => BracketedIsStripped(text, i, g, next);
  }

  lemma PlainIsStripped(text: string, i: nat, g: Segment, next: string)
    requires StandsAt(text, i, Shown(g)) && text[i + |Shown(g)|..] == next && Fits(g, next)
    requires g.Plain? || g.Semicolon?
    ensures Goes(text, i, g)
  {
    assert text[i] == text[i..i + 1][0];
    assert next != "" ==> text[i + 1] == next[0];
  }

  lemma PartsStand(text: string, i: nat, a: string, b: string, c: string)
    requires StandsAt(text, i, a + b + c)
    ensures StandsAt(text, i, a) && StandsAt(text, i + |a|, b) && StandsAt(text, i + |a| + |b|, c)
  {
    var all := a + b + c;
    assert a == all[..|a|] && b == all[|a|..|a| + |b|] && c == all[|a| + |b|..];
  }

  lemma QuotedIsStripped(text: string, i: nat, g: Segment, next: string)
    requires StandsAt(text, i, Shown(g)) && text[i + |Shown(g)|..] == next && Fits(g, next) && g.Quoted?
    ensures Goes(text, i, g)
  {
    var q, m, end := g.q, After(Code, g.q), i + 1 + |g.content|;
    PartsStand(text, i, [q], g.content, if g.closed then [q] else "");
    assert text[i] == q;
    QuotedIsKept(text, i + 1, q, g.content);
    var later := Strip(text, i + |Shown(g)|, Code);
    if g.closed {
      assert text[end] == text[end..end + 1][0] == q;
      QuoteCloses(text, end, q);
    }
    QuotedGoes(q, g.content, g.closed, Strip(text, i, Code), Strip(text, end, m), later);
  }

  lemma QuoteCloses(text: string, i: nat, q: char)
    requires IsQuote(q) && i < |text| && text[i] == q
    ensures Strip(text, i, After(Code, q)) == [q] + Strip(text, i + 1, Code)
  {}

  lemma QuotedGoes(q: char, content: string, closed: bool, all: string, tail: string, later: string)
    requires all == [q] + (content + tail) && (closed ==> tail == [q] + later) && (!closed ==> tail == later == "")
    ensures all == Shown(Quoted(q, content, closed)) + later
  {}

  lemma ToLineEndIsStripped(text: string, i: nat, g: Segment, next: string)
    requires StandsAt(text, i, Shown(g)) && text[i + |Shown(g)|..] == next && Fits(g, next) && g.ToLineEnd?
    ensures Goes(text, i, g)
  {
    var end := i + 2 + |g.content|;
    PartsStand(text, i, "--", g.content, if g.closed then "\n" else "");
    assert text[i] == text[i..i + 2][0] && text[i + 1] == text[i..i + 2][1];
    LineIsDropped(text, i + 2, g.content);
    assert g.closed ==> text[end] == '\n';
    NothingInFrontOf(Strip(text, i + |Shown(g)|, Code));
  }

  lemma BracketedIsStripped(text: string, i: nat, g: Segment, next: string)
    requires StandsAt(text, i, Shown(g)) && text[i + |Shown(g)|..] == next && Fits(g, next) && g.Bracketed?
    ensures Goes(text, i, g)
  {
    var end := i + 2 + |g.content|;
    PartsStand(text, i, "/*", g.content, if g.closed then "*/" else "");
    assert text[i] == text[i..i + 2][0] && text[i + 1] == text[i..i + 2][1];
    assert g.closed ==> text[end] == text[end..end + 2][0] && text[end + 1] == text[end..end + 2][1];
    BlockIsDropped(text, i + 2, g.content);
    NothingInFrontOf(Strip(text, i + |Shown(g)|, Code));
  }

  lemma NothingInFrontOf(s: string)
    ensures "" + s == s
  {}

  lemma {:induction false} CommentsGo(text: string, i: nat, gs: seq<Segment>)
    requires i <= |text| && text[i..] == Show(gs) && AllFit(gs)
    ensures Strip(text, i, Code) == Kept(gs)
    decreases |gs|
  {
    if gs != [] {
      SegmentThenRest(text, i, gs);
      CommentsGo(text, i + |Shown(gs[0])|, gs[1..]);
      SegmentGoes(text, i, gs[0], Show(gs[1..]), Kept(gs[1..]), Kept(gs));
    }
  }

  lemma SegmentGoes(text: string, i: nat, g: Segment, next: string, rest: string, kept: string)
    requires StandsAt(text, i, Shown(g)) && text[i + |Shown(g)|..] == next && Fits(g, next)
    requires Strip(text, i + |Shown(g)|, Code) == rest && kept == Own(g) + rest
    ensures Strip(text, i, Code) == kept
  {
    SegmentIsStripped(text, i, g, next);
  }

  // ---------- the rest is cut at the semicolons ----------

  lemma {:induction false} QuotedIsOnePiece(q: char, content: string, s: string)
    requires IsQuote(q) && q !in content
    ensures var m := After(Code, q); Pieces(content + s, m) == Prefixed(content, Pieces(s, m))
    decreases |content|
  {
    var m := After(Code, q);
    if content == "" {
      assert content + s == s;
      PrefixedNothing(Pieces(s, m));
    } else {
      assert content[0] in content;
      assert (content + s)[1..] == content[1..] + s;
      QuotedIsOnePiece(q, content[1..], s);
      PrefixedTwice([content[0]], content[1..], Pieces(s, m));
      assert [content[0]] + content[1..] == content;
    }
  }

  lemma PrefixedTwice(a: string, b: string, ps: seq<string>)
    requires ps != []
    ensures Prefixed(a, Prefixed(b, ps)) == Prefixed(a + b, ps)
  {
    Regroup(a, b, ps[0]);
  }

  /** What stands before the next piece belongs to it, unless it is a semicolon. */
  lemma SegmentIsCut(g: Segment, next: string, rest: string)
    requires Fits(g, next) && !IsComment(g) && !g.Semicolon? && (g.Quoted? && !g.closed ==> rest == "")
    ensures Pieces(Shown(g) + rest, Code) == Prefixed(Shown(g), Pieces(rest, Code))
  {
    match g
    case Plain(c) => assert ([c] + rest)[1..] == rest;
    case Quoted(q, content, closed) => QuotedIsCut(q, content, closed, rest);
  }

  lemma QuotedIsCut(q: char, content: string, closed: bool, rest: string)
    requires IsQuote(q) && q !in content && (!closed ==> rest == "")
    ensures var shown := Shown(Quoted(q, content, closed));
            Pieces(shown + rest, Code) == Prefixed(shown, Pieces(rest, Code))
  {
    var shown, m := Shown(Quoted(q, content, closed)), After(Code, q);
    var tail := (if closed then [q] else "") + rest;
    assert shown + rest == [q] + (content + tail);
    assert ([q] + (content + tail))[1..] == content + tail;
    QuotedIsOnePiece(q, content, tail);
    PrefixedTwice([q], content, Pieces(tail, m));
    if closed {
      assert tail == [q] + rest && tail[1..] == rest && After(m, q) == Code;
      PrefixedTwice([q] + content, [q], Pieces(rest, Code));
    } else {
      assert tail == "" && shown == [q] + content;
    }
  }

  lemma {:induction false} KeptIsCut(gs: seq<Segment>)
    requires AllFit(gs)
    ensures Pieces(Kept(gs), Code) == CutAtSemicolons(gs)
  {
    if gs != [] {
      var g, rest := gs[0], Kept(gs[1..]);
      KeptIsCut(gs[1..]);
      if g.Semicolon? {
        assert (";" + rest)[1..] == rest;
      } else if IsComment(g) {
        assert "" + rest == rest;
      } else {
        NothingBehindOpen(gs);
        SegmentIsCut(g, Show(gs[1..]), rest);
      }
    }
  }

  lemma NothingBehindOpen(gs: seq<Segment>)
    requires gs != [] && AllFit(gs)
    ensures gs[0].Quoted? && !gs[0].closed ==> Kept(gs[1..]) == ""
  {
    assert gs[1..] != [] ==> |Shown(gs[1..][0])| > 0;
  }

  function Trims(ps: seq<string>): seq<string> { seq(|ps|, i requires 0 <= i < |ps| => Trim(ps[i], IsBlank)) }

  /** The statement is the `i`-th of these texts, which is none if it is empty. */
  ghost predicate IsStatementOf(ts: seq<string>, q: string, i: nat) {
    i < |ts| && ts[i] != "" && q == ts[i] + (if i < |ts| - 1 then ";" else "")
  }

  ghost predicate Rising(at: seq<nat>) { forall k, l :: 0 <= k < l < |at| ==> at[k] < at[l] }

  /** The texts that are not empty, in order; all but the very last get their semicolon back. */
  ghost predicate StatementsAt(ts: seq<string>, queries: seq<string>, at: seq<nat>) {
    && |queries| == |at|
    && Rising(at)
    && (forall k :: 0 <= k < |at| ==> IsStatementOf(ts, queries[k], at[k]))
    && forall i :: 0 <= i < |ts| && ts[i] != "" ==> i in at
  }

  lemma {:induction false} StatementsStand(ps: seq<string>) returns (at: seq<nat>)
    requires ps != []
    ensures StatementsAt(Trims(ps), Statements(ps), at)
  {
    if |ps| == 1 {
      at := OneStatement(Trims(ps)[0], "");
      assert Trims(ps) == [Trims(ps)[0]];
    } else {
      var later := StatementsStand(ps[1..]);
      assert Trims(ps) == [Trims(ps)[0]] + Trims(ps[1..]);
      at := FirstStatement(Trims(ps)[0], Trims(ps[1..]), Statements(ps[1..]), later);
    }
  }

  lemma OneStatement(t: string, end: string) returns (at: seq<nat>)
    ensures StatementsAt([t], if t == "" then [] else [t], at)
  {
    at := if t == "" then [] else [0];
    assert t + "" == t;
  }

  function Behind(at: seq<nat>): seq<nat> { seq(|at|, k requires 0 <= k < |at| => at[k] + 1) }

  lemma BehindRises(at: seq<nat>)
    requires Rising(at)
    ensures Rising(Behind(at)) && Rising([0] + Behind(at))
  {}

  lemma BehindHas(at: seq<nat>, i: nat)
    requires i > 0 && i - 1 in at
    ensures i in Behind(at)
  {
    var k :| 0 <= k < |at| && at[k] == i - 1;
    assert Behind(at)[k] == i;
  }

  lemma LaterStands(t: string, ts: seq<string>, q: string, i: nat)
    requires IsStatementOf(ts, q, i)
    ensures IsStatementOf([t] + ts, q, i + 1)
  {}

  /** The later texts, behind one more. */
  ghost predicate StandBehind(t: string, ts: seq<string>, queries: seq<string>, at: seq<nat>) {
    && |queries| == |at| && Rising(at) && Rising([0] + at)
    && (forall k :: 0 <= k < |at| ==> IsStatementOf([t] + ts, queries[k], at[k]))
    && forall i :: 0 <= i < |ts| && ts[i] != "" ==> i + 1 in at
  }

  lemma LaterStandBehind(t: string, ts: seq<string>, queries: seq<string>, later: seq<nat>)
    requires StatementsAt(ts, queries, later)
    ensures StandBehind(t, ts, queries, Behind(later))
  {
    BehindRises(later);
    forall k | 0 <= k < |later| ensures IsStatementOf([t] + ts, queries[k], Behind(later)[k]) {
      LaterStands(t, ts, queries[k], later[k]);
    }
    forall i | 0 <= i < |ts| && ts[i] != "" ensures i + 1 in Behind(later) {
      BehindHas(later, i + 1);
    }
  }

  lemma NothingInFront(ts: seq<string>, queries: seq<string>, at: seq<nat>)
    requires StandBehind("", ts, queries, at)
    ensures StatementsAt([""] + ts, queries, at)
  {
    var all := [""] + ts;
    forall i | 0 <= i < |all| && all[i] != "" ensures i in at {
      assert all[i] == ts[i - 1];
    }
  }

  lemma OneInFront(t: string, ts: seq<string>, queries: seq<string>, at: seq<nat>)
    requires t != "" && ts != [] && StandBehind(t, ts, queries, at)
    ensures StatementsAt([t] + ts, [t + ";"] + queries, [0] + at)
  {
    var all, queries1, at1 := [t] + ts, [t + ";"] + queries, [0] + at;
    forall k | 0 <= k < |at1| ensures IsStatementOf(all, queries1[k], at1[k]) {
      if k > 0 {
        assert IsStatementOf(all, queries[k - 1], at[k - 1]);
      }
    }
    forall i | 0 <= i < |all| && all[i] != "" ensures i in [0] + at {
      if i > 0 {
        assert all[i] == ts[i - 1];
      }
    }
  }

  /** In front of the later texts stands one that may be a statement itself. */
  lemma FirstStatement(t: string, ts: seq<string>, queries: seq<string>, later: seq<nat>) returns (at: seq<nat>)
    requires ts != [] && StatementsAt(ts, queries, later)
    ensures StatementsAt([t] + ts, (if t == "" then [] else [t + ";"]) + queries, at)
  {
    LaterStandBehind(t, ts, queries, later);
    if t == "" {
      at := Behind(later);
      NothingInFront(ts, queries, at);
      assert [] + queries == queries;
    } else {
      at := [0] + Behind(later);
      OneInFront(t, ts, queries, Behind(later));
    }
  }

  /**
   * However a text is read, its statements are what stands between its semicolons, without the comments: the
   * pieces that are not blank, trimmed, in order; and all but the last piece get their semicolon back.
   */
  lemma StatementsOfSegments(text: string, gs: seq<Segment>) returns (at: seq<nat>)
    requires text == Show(gs) && AllFit(gs)
    ensures StatementsAt(Trims(CutAtSemicolons(gs)), TwoPass(text), at)
  {
    assert text[0..] == text;
    CommentsGo(text, 0, gs);
    KeptIsCut(gs);
    at := StatementsStand(CutAtSemicolons(gs));
  }
}
