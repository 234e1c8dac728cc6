/** The daemon's pull parser for requests, and where the two parsers differ. */
module RequestReader {
  import opened Common
  import opened Framing
  import Strings
  import opened Decimals

  datatype Request = Message(text: Bytes) | EndOfInput | ReadError

  // ---------- lines and numbers ----------

  /** `read_line`: the first line with its newline, or all that is left. */
  function LineLength(input: Bytes): (n: nat)
    ensures n <= |input| && (input != "" ==> n > 0)
  {
    match NewlineIndex(input)
    case Some(i) => i + 1
    case None => |input|
  }

  function TrimLineEnd(line: Bytes): Bytes {
    if line != "" && (line[|line| - 1] == '\r' || line[|line| - 1] == '\n') then TrimLineEnd(line[..|line| - 1])
    else line
  }

  function PlusSign(s: Bytes): (r: Bytes)
    ensures r <= s
  {
    if s != "" && s[0] == '+' then "+" else ""
  }

  /** `parse::<usize>()`: an optional plus sign and digits, within the machine word. */
  function ParseUsize(s: Bytes): Option<nat> {
    var digits := s[|PlusSign(s)|..];
    if digits == "" || exists i :: 0 <= i < |digits| && !IsDigit(digits[i]) then None
    else if Number(digits) > USIZE_MAX then None
    else Some(Number(digits))
  }

  /** The body length a first line announces. */
  function AnnouncedLength(trimmed: Bytes): Option<nat> {
    if HEADER_NAME <= trimmed then ParseUsize(Trim(trimmed[|HEADER_NAME|..])) else None
  }

  // ---------- the reader as a function of its input ----------

  /** The input after the blank line that ends the headers. */
  function SkipHeaders(input: Bytes): (r: Option<Bytes>)
    ensures r.Some? ==> |r.value| < |input|
    decreases |input|
  {
    if input == "" then None
    else
      var n := LineLength(input);
      if TrimLineEnd(input[..n]) == "" then Some(input[n..]) else SkipHeaders(input[n..])
  }

  /** One call: what it returns, and what it leaves to be read. */
  function ReadFrame(input: Bytes): (Request, Bytes) {
    if input == "" then (EndOfInput, "")
    else
      var n := LineLength(input);
      var trimmed := TrimLineEnd(input[..n]);
      if trimmed == "" then (Message(""), input[n..])
      else match AnnouncedLength(trimmed)
        case None => (Message(trimmed), input[n..])
        case Some(length) =>
          match SkipHeaders(input[n..])
          case None => (EndOfInput, "")
          case Some(body) =>
            if |body| < length then (ReadError, "") else (Message(body[..length]), body[length..])
  }

  /** Standard input as the daemon reads it. */
  class Reader {
    var rest: Bytes

    constructor (input: Bytes)
      ensures rest == input
    {
      rest := input;
    }

    method ReadLine() returns (line: Bytes)
      modifies this
      ensures line == old(rest)[..LineLength(old(rest))] && rest == old(rest)[LineLength(old(rest))..]
    {
      var n := LineLength(rest);
      line := rest[..n];
      rest := rest[n..];
    }
  }

  method ReadRequestFrame(reader: Reader) returns (r: Request)
    modifies reader
    ensures (r, reader.rest) == ReadFrame(old(reader.rest))
  {
    var line := reader.ReadLine();
    if line == "" {
      return EndOfInput;
    }
    var trimmed := TrimLineEnd(line);
    if trimmed == "" {
      return Message("");
    }
    var length := AnnouncedLength(trimmed);
    if length.Some? {
      ghost var headers := SkipHeaders(reader.rest);
      while true
        invariant SkipHeaders(reader.rest) == headers
        decreases |reader.rest|
      {
        var header := reader.ReadLine();
        if header == "" {
          return EndOfInput;
        }
        if TrimLineEnd(header) == "" {
          break;
        }
      }
      if |reader.rest| < length.value {
        reader.rest := "";
        return ReadError;
      }
      var body := reader.rest[..length.value];
      reader.rest := reader.rest[length.value..];
      return Message(body);
    }
    r := Message(trimmed);
  }

  // ---------- reading undoes writing ----------

  lemma LineThenRest(line: Bytes, rest: Bytes)
    requires '\n' !in line
    ensures LineLength(line + "\n" + rest) == |line| + 1
  {
    NewlineAfter(line);
    NewlineIsStable(line + "\n", rest);
  }

  lemma TrimCrLf(line: Bytes)
    requires line != "" && line[|line| - 1] != '\r' && line[|line| - 1] != '\n'
    ensures TrimLineEnd(line + "\r\n") == line
  {
    assert TrimLineEnd(line) == line;
    assert (line + "\r")[..|line|] == line;
    assert TrimLineEnd(line + "\r") == line;
    assert (line + "\r\n")[..|line| + 1] == line + "\r";
  }

  /** A line that ends in neither line-end character is what is left of it when it is read. */
  lemma LineIsRead(line: Bytes, after: Bytes)
    requires line != "" && '\n' !in line && line[|line| - 1] != '\r'
    ensures var (input, n) := (line + "\r\n" + after, LineLength(line + "\r\n" + after));
            n == |line| + 2 && TrimLineEnd(input[..n]) == line && input[n..] == after
  {
    var input := line + "\r\n" + after;
    assert input == (line + "\r") + "\n" + after;
    LineThenRest(line + "\r", after);
    assert input[..|line| + 2] == line + "\r\n";
    assert line[|line| - 1] in line;
    TrimCrLf(line);
    assert input[|line| + 2..] == after;
  }

  lemma BlankLine(rest: Bytes)
    ensures SkipHeaders("\r\n" + rest) == Some(rest)
  {
    var input := "\r\n" + rest;
    assert input == "\r" + "\n" + rest;
    LineThenRest("\r", rest);
    assert input[..2] == "\r\n";
    assert "\r\n"[..1] == "\r" && "\r"[..0] == "";
    assert TrimLineEnd("\r") == "";
    assert TrimLineEnd("\r\n") == "";
    assert input[2..] == rest;
  }

  lemma AnnouncesItsLength(n: usize)
    ensures AnnouncedLength(HEADER_NAME + " " + Decimal(n)) == Some(n)
  {
    var d := Decimal(n);
    var line := HEADER_NAME + " " + d;
    assert line[|HEADER_NAME|..] == " " + d;
    assert (" " + d)[1..] == d;
    assert !IsSpace(d[0]) && !IsSpace(d[|d| - 1]);
    assert Trim(d) == d;
    assert Trim(" " + d) == d;
    NumberOfDecimal(n);
  }

  /** After a first line that announces a length, further headers are skipped and a body is read. */
  lemma AnnouncedBody(n: usize, after: Bytes, content: Bytes)
    requires SkipHeaders(after) == Some(content) && n <= |content|
    ensures ReadFrame(HEADER_NAME + " " + Decimal(n) + "\r\n" + after) == (Message(content[..n]), content[n..])
  {
    LengthIsOnOneLine(n);
    AnnouncesItsLength(n);
    BodyBehind(HEADER_NAME + " " + Decimal(n), n, after, content);
  }

  lemma LengthIsOnOneLine(n: usize)
    ensures var line := HEADER_NAME + " " + Decimal(n);
            line != "" && '\n' !in line && line[|line| - 1] != '\r'
  {
    var d := Decimal(n);
    assert '\n' !in d;
    assert '\n' !in HEADER_NAME + " ";
    assert (HEADER_NAME + " " + d)[|HEADER_NAME + " "| + |d| - 1] == d[|d| - 1];
  }

  lemma BodyBehind(line: Bytes, n: nat, after: Bytes, content: Bytes)
    requires line != "" && '\n' !in line && line[|line| - 1] != '\r' && AnnouncedLength(line) == Some(n)
    requires SkipHeaders(after) == Some(content) && n <= |content|
    ensures ReadFrame(line + "\r\n" + after) == (Message(content[..n]), content[n..])
  {
    LineIsRead(line, after);
  }

  /** Reading a frame followed by anything returns its body and leaves what follows. */
  lemma ReadUndoesWrite(body: Bytes, rest: Bytes)
    requires |body| <= USIZE_MAX
    ensures ReadFrame(Frame(body) + rest) == (Message(body), rest)
  {
    var after := "\r\n" + (body + rest);
    assert Frame(body) + rest == HEADER_NAME + " " + Decimal(|body|) + "\r\n" + after;
    BlankLine(body + rest);
    AnnouncedBody(|body|, after, body + rest);
    assert (body + rest)[..|body|] == body && (body + rest)[|body|..] == rest;
  }

  /** Reads until the input ends or is broken. */
  method ReadAll(reader: Reader) returns (messages: seq<Bytes>, last: Request)
    modifies reader
    ensures (messages, last) == Requests(old(reader.rest))
  {
    messages := [];
    ghost var all := Requests(reader.rest);
    assert [] + all.0 == all.0;
    while true
      invariant all == (messages + Requests(reader.rest).0, Requests(reader.rest).1)
      decreases |reader.rest|
    {
      ghost var before := reader.rest;
      last := ReadRequestFrame(reader);
      if !last.Message? {
        assert messages + [] == messages;
        return;
      }
      ReadingConsumes(before);
      Regroup(messages, [last.text], Requests(reader.rest).0);
      messages := messages + [last.text];
    }
  }

  lemma ReadingConsumes(input: Bytes)
    requires ReadFrame(input).0.Message?
    ensures |ReadFrame(input).1| < |input|
  {}

  /** All messages of an input, and how it ends. */
  function Requests(input: Bytes): (seq<Bytes>, Request)
    decreases |input|
  {
    var (r, rest) := ReadFrame(input);
    if !r.Message? then ([], r)
    else
      ReadingConsumes(input);
      var (later, end) := Requests(rest);
      ([r.text] + later, end)
  }

  /** A body that is cut short by the end of the input is an error, and ends the reading. */
  lemma CutBodyIsAnError(n: usize, part: Bytes)
    requires |part| < n
    ensures ReadFrame(Header(n) + part) == (ReadError, "")
  {
    var after := "\r\n" + part;
    assert Header(n) + part == HEADER_NAME + " " + Decimal(n) + "\r\n" + after;
    BlankLine(part);
    LengthIsOnOneLine(n);
    AnnouncesItsLength(n);
    CutBehind(HEADER_NAME + " " + Decimal(n), n, after, part);
  }

  lemma CutBehind(line: Bytes, n: nat, after: Bytes, content: Bytes)
    requires line != "" && '\n' !in line && line[|line| - 1] != '\r' && AnnouncedLength(line) == Some(n)
    requires SkipHeaders(after) == Some(content) && n > |content|
    ensures ReadFrame(line + "\r\n" + after) == (ReadError, "")
  {
    LineIsRead(line, after);
  }

  // ---------- requests on lines of their own ----------

  /** A number of the machine word, with a plus sign or without. */
  ghost predicate IsUsize(sign: Bytes, digits: Bytes, n: nat) {
    (sign == "" || sign == "+") && AllDigits(digits) && Worth(digits) == n <= USIZE_MAX
  }

  /** The header's name, and a number in blanks. */
  ghost predicate IsAnnouncement(line: Bytes, before: Bytes, sign: Bytes, digits: Bytes, after: Bytes, n: nat) {
    && line == HEADER_NAME + (before + (sign + digits) + after) && IsUsize(sign, digits, n)
    && Strings.AllBlank(before, IsSpace) && Strings.AllBlank(after, IsSpace)
  }

  /** The line announces a body of `n` bytes. */
  ghost predicate Announces(line: Bytes, n: nat) {
    exists before: Bytes, sign: Bytes, digits: Bytes, after: Bytes ::
      IsAnnouncement(line, before, sign, digits, after, n)
  }

  lemma UsizeIsParsed(sign: Bytes, digits: Bytes, n: nat)
    requires IsUsize(sign, digits, n)
    ensures ParseUsize(sign + digits) == Some(n)
  {
    NumberIsWorth(digits);
    assert PlusSign(sign + digits) == sign;
    assert (sign + digits)[|sign|..] == digits;
  }

  lemma ParsedIsUsize(s: Bytes) returns (sign: Bytes, digits: Bytes)
    requires ParseUsize(s).Some?
    ensures s == sign + digits && IsUsize(sign, digits, ParseUsize(s).value)
  {
    sign, digits := PlusSign(s), s[|PlusSign(s)|..];
    NumberIsWorth(digits);
  }

  lemma AnnouncementIsTaken(line: Bytes, before: Bytes, sign: Bytes, digits: Bytes, after: Bytes, n: nat)
    requires IsAnnouncement(line, before, sign, digits, after, n)
    ensures AnnouncedLength(line) == Some(n)
  {
    var number := sign + digits;
    var rest := before + number + after;
    assert line == HEADER_NAME + rest && line[|HEADER_NAME|..] == rest;
    assert number[|number| - 1] == digits[|digits| - 1];
    Strings.TrimDrops(before, number, after, IsSpace);
    UsizeIsParsed(sign, digits, n);
  }

  lemma TakenIsAnnouncement(line: Bytes)
    requires AnnouncedLength(line).Some?
    ensures Announces(line, AnnouncedLength(line).value)
  {
    var rest := line[|HEADER_NAME|..];
    var before, after := Strings.TrimKeeps(rest, IsSpace);
    var sign, digits := ParsedIsUsize(Trim(rest));
    assert line == HEADER_NAME + (before + (sign + digits) + after);
    assert IsAnnouncement(line, before, sign, digits, after, AnnouncedLength(line).value);
  }

  /** A first line is taken for the length of a body exactly if it announces one. */
  lemma AnnouncedExactly(line: Bytes, n: nat)
    ensures AnnouncedLength(line) == Some(n) <==> Announces(line, n)
  {
    if AnnouncedLength(line) == Some(n) {
      TakenIsAnnouncement(line);
    }
    if before: Bytes, sign: Bytes, digits: Bytes, after: Bytes :|
      IsAnnouncement(line, before, sign, digits, after, n)
    {
      AnnouncementIsTaken(line, before, sign, digits, after, n);
    }
  }

  /** What the daemon takes: bodies of a machine word's length, and lines that announce none. */
  ghost predicate Readable(m: Framing.Message) {
    match m
    case Framed(body) => |body| <= USIZE_MAX
    case Line(text) =>
      '\n' !in text && (text != "" ==> text[|text| - 1] != '\r') && forall n: nat :: !Announces(text, n)
  }

  /** Reading a message followed by anything returns its content and leaves what follows. */
  lemma MessageIsRead(m: Framing.Message, rest: Bytes)
    requires Readable(m)
    ensures ReadFrame(Encode(m) + rest) == (Message(Content(m)), rest)
  {
    match m
    case Framed(body) => ReadUndoesWrite(body, rest);
    case Line(text) => LineIsRequest(text, rest);
  }

  lemma LineIsTrimmed(text: Bytes)
    requires '\n' !in text && (text != "" ==> text[|text| - 1] != '\r')
    ensures TrimLineEnd(text + "\n") == text
  {
    assert text != "" ==> text[|text| - 1] in text;
    assert TrimLineEnd(text) == text;
    assert (text + "\n")[..|text|] == text;
  }

  lemma LineIsRequest(text: Bytes, rest: Bytes)
    requires Readable(Line(text))
    ensures ReadFrame(text + "\n" + rest) == (Message(text), rest)
  {
    var input := text + "\n" + rest;
    LineThenRest(text, rest);
    assert input[..|text| + 1] == text + "\n" && input[|text| + 1..] == rest;
    LineIsTrimmed(text);
    if AnnouncedLength(text).Some? {
      TakenIsAnnouncement(text);
    }
    NothingAnnounced(input, |text| + 1, text);
  }

  lemma NothingAnnounced(input: Bytes, n: nat, text: Bytes)
    requires input != "" && n == LineLength(input) && TrimLineEnd(input[..n]) == text
    requires AnnouncedLength(text).None?
    ensures ReadFrame(input) == (Message(text), input[n..])
  {}

  /** The daemon reads back exactly what a client wrote, framed or on lines, in order, and then the end. */
  lemma {:induction false} RequestsRoundTrip(ms: seq<Framing.Message>)
    requires forall i :: 0 <= i < |ms| ==> Readable(ms[i])
    ensures Requests(EncodeAll(ms)) == (Contents(ms), EndOfInput)
  {
    if ms == [] {
      assert ReadFrame("") == (EndOfInput, "");
      assert Requests("") == ([], EndOfInput);
    } else {
      MessageIsRead(ms[0], EncodeAll(ms[1..]));
      RequestsStep(EncodeAll(ms), Content(ms[0]), EncodeAll(ms[1..]));
      RequestsRoundTrip(ms[1..]);
    }
  }

  lemma RequestsStep(input: Bytes, text: Bytes, rest: Bytes)
    requires ReadFrame(input) == (Message(text), rest)
    ensures Requests(input) == ([text] + Requests(rest).0, Requests(rest).1)
  {}

  // ---------- where the parsers differ ----------

  /** A frame with one more header line, such as Content-Type, after its length. */
  function FrameWithHeader(body: Bytes, header: Bytes): Bytes {
    HEADER_NAME + " " + Decimal(|body|) + "\r\n" + header + "\r\n\r\n" + body
  }

  /** The daemon skips further headers ... */
  lemma DaemonSkipsHeaders(body: Bytes, header: Bytes, rest: Bytes)
    requires |body| <= USIZE_MAX
    requires header != "" && '\n' !in header && header[|header| - 1] != '\r'
    ensures ReadFrame(FrameWithHeader(body, header) + rest) == (Message(body), rest)
  {
    var blank := "\r\n" + (body + rest);
    var after := header + "\r\n" + blank;
    assert FrameWithHeader(body, header) + rest == HEADER_NAME + " " + Decimal(|body|) + "\r\n" + after;
    BlankLine(body + rest);
    HeaderSkipped(header, blank);
    AnnouncedBody(|body|, after, body + rest);
    assert (body + rest)[..|body|] == body && (body + rest)[|body|..] == rest;
  }

  lemma HeaderSkipped(header: Bytes, after: Bytes)
    requires header != "" && '\n' !in header && header[|header| - 1] != '\r'
    ensures SkipHeaders(header + "\r\n" + after) == SkipHeaders(after)
  {
    LineIsRead(header, after);
  }

  // ---------- exactly when the client acts on a length line ----------

  /** A first line that announces a length: the header's name in any case, then a number and a line end. */
  ghost predicate IsLengthLine(name: Bytes, gap: Bytes, d: Bytes, eol: Bytes) {
    |name| == |HEADER_NAME| && StartsWithHeaderName(name) && IsLength(gap, d, eol)
  }

  /** White space, digits and a line end. */
  ghost predicate IsLength(gap: Bytes, d: Bytes, eol: Bytes) {
    && (forall k :: 0 <= k < |gap| ==> IsSpace(gap[k]))
    && d != "" && (forall k :: 0 <= k < |d| ==> IsDigit(d[k]))
    && (eol == "\n" || eol == "\r\n")
  }

  lemma LineEndAfter(line: Bytes, rest: Bytes)
    ensures LineEnd(line + rest, |line|) ==
            match LineEnd(rest, 0) case None => None case Some(e) => Some(|line| + e)
  {
    assert forall k :: 0 <= k < |rest| ==> (line + rest)[|line| + k] == rest[k];
  }

  ghost predicate StandsAt(part: Bytes, s: Bytes, i: nat) { i + |part| <= |s| && s[i..i + |part|] == part }

  lemma MiddleStands(a: Bytes, part: Bytes, b: Bytes)
    ensures StandsAt(part, a + part + b, |a|)
  {}

  lemma GapIsSkipped(s: Bytes, i: nat, gap: Bytes, d: Bytes)
    requires StandsAt(gap, s, i) && StandsAt(d, s, i + |gap|) && d != "" && IsDigit(d[0])
    requires forall k :: 0 <= k < |gap| ==> IsSpace(gap[k])
    ensures SkipSpaces(s, i) == i + |gap|
  {
    var a := SkipSpaces(s, i);
    forall k | i <= k < i + |gap|
      ensures IsSpace(s[k])
    {
      assert s[k] == s[i..i + |gap|][k - i] == gap[k - i];
    }
    assert s[i + |gap|] == s[i + |gap|..i + |gap| + |d|][0] == d[0];
  }

  lemma DigitsAreSkipped(s: Bytes, i: nat, d: Bytes)
    requires StandsAt(d, s, i) && i + |d| < |s| && !IsDigit(s[i + |d|])
    requires forall k :: 0 <= k < |d| ==> IsDigit(d[k])
    ensures SkipDigits(s, i) == i + |d|
  {
    var a := SkipDigits(s, i);
    forall k | i <= k < i + |d|
      ensures IsDigit(s[k])
    {
      assert s[k] == s[i..i + |d|][k - i] == d[k - i];
    }
  }

  ghost predicate InOrder(name: Bytes, gap: Bytes, d: Bytes, eol: Bytes, w: Bytes) {
    name <= w && StandsAt(gap, w, |name|) && StandsAt(d, w, |name + gap|) && StandsAt(eol, w, |name + gap + d|)
  }

  lemma PartsStand(name: Bytes, gap: Bytes, d: Bytes, eol: Bytes, rest: Bytes)
    ensures InOrder(name, gap, d, eol, name + gap + d + eol + rest)
  {
    var w := name + gap + d + eol + rest;
    assert w == name + gap + (d + eol + rest);
    assert w == (name + gap) + d + (eol + rest);
    MiddleStands(name, gap, d + eol + rest);
    MiddleStands(name + gap, d, eol + rest);
    MiddleStands(name + gap + d, eol, rest);
  }

  /** A length is found where it stands. */
  lemma LengthIsFound(w: Bytes, at: nat, gap: Bytes, d: Bytes, eol: Bytes)
    requires at <= |w| && IsLength(gap, d, eol)
    requires StandsAt(gap, w, at) && StandsAt(d, w, at + |gap|) && StandsAt(eol, w, at + |gap| + |d|)
    ensures SkipSpaces(w, at) == at + |gap| && SkipDigits(w, at + |gap|) == at + |gap| + |d|
    ensures LineEnd(w, at + |gap| + |d|) == Some(at + |gap| + |d| + |eol|)
  {
    EolStands(w, at + |gap| + |d|, eol);
    GapIsSkipped(w, at, gap, d);
    DigitsAreSkipped(w, at + |gap|, d);
  }

  lemma NameStays(name: Bytes, w: Bytes)
    requires StartsWithHeaderName(name) && name <= w
    ensures StartsWithHeaderName(w)
  {
    assert forall k :: 0 <= k < |HEADER_NAME| ==> w[k] == name[k];
  }

  lemma MatchGoesOn(w: Bytes, i: nat, d: Bytes, k: nat)
    requires StartsWithHeaderName(w) && d != "" && SkipSpaces(w, |HEADER_NAME|) == i
    requires SkipDigits(w, i) == i + |d| && StandsAt(d, w, i) && LineEnd(w, i + |d|) == Some(k)
    ensures MatchHeader(w) == match LineEnd(w, k) case None => None case Some(end) => Some((end, Number(d)))
  {}

  lemma LengthLineGoesOn(name: Bytes, gap: Bytes, d: Bytes, eol: Bytes, w: Bytes)
    requires IsLengthLine(name, gap, d, eol) && InOrder(name, gap, d, eol, w)
    ensures MatchHeader(w) ==
            match LineEnd(w, |name + gap + d + eol|) case None => None case Some(end) => Some((end, Number(d)))
  {
    NameStays(name, w);
    LengthIsFound(w, |name|, gap, d, eol);
    MatchGoesOn(w, |name + gap|, d, |name + gap + d + eol|);
  }

  lemma EolStands(s: Bytes, j: nat, eol: Bytes)
    requires StandsAt(eol, s, j) && (eol == "\n" || eol == "\r\n")
    ensures LineEnd(s, j) == Some(j + |eol|) && !IsDigit(s[j])
  {
    assert s[j] == s[j..j + |eol|][0];
    assert |eol| == 2 ==> s[j + 1] == s[j..j + |eol|][1];
  }

  lemma LengthLineStands(name: Bytes, gap: Bytes, d: Bytes, eol: Bytes, line: Bytes, rest: Bytes)
    requires IsLengthLine(name, gap, d, eol) && line == name + gap + d + eol
    ensures MatchHeader(line + rest) ==
            match LineEnd(line + rest, |line|) case None => None case Some(end) => Some((end, Number(d)))
  {
    PartsStand(name, gap, d, eol, rest);
    LengthLineGoesOn(name, gap, d, eol, line + rest);
  }

  /** A header that goes on from `start` to a line end, if there is one. */
  function Found(start: nat, end: Option<nat>, length: nat): Option<(nat, nat)> {
    if end.None? then None else Some((start + end.value, length))
  }

  /** The header matches if and only if a line end follows the length line. */
  lemma LengthLineMatches(name: Bytes, gap: Bytes, d: Bytes, eol: Bytes, line: Bytes, rest: Bytes)
    requires IsLengthLine(name, gap, d, eol) && line == name + gap + d + eol
    ensures MatchHeader(line + rest) == Found(|line|, LineEnd(rest, 0), Number(d))
  {
    LengthLineStands(name, gap, d, eol, line, rest);
    LineEndAfter(line, rest);
  }

  /**
   * Behind a length line, as soon as what follows tells: the client acts, on a buffer that holds the
   * body, if and only if a line end follows and the header ends within the window. In all other cases it
   * waits, whatever arrives later.
   */
  lemma ClientActsOnBlankLine(name: Bytes, gap: Bytes, d: Bytes, eol: Bytes, rest: Bytes, more: Bytes)
    requires IsLengthLine(name, gap, d, eol) && rest != "" && rest != "\r"
    ensures var (line, e) := (name + gap + d + eol, LineEnd(rest, 0));
            !NextAction(line + rest + more).Wait? <==>
              && e.Some? && |line| + e.value <= 1024
              && |line + rest + more| >= |line| + e.value + Number(d)
  {
    var line := name + gap + d + eol;
    LengthLineMatches(name, gap, d, eol, line, rest + more);
    LineEndStays(rest, more);
    if LineEnd(rest, 0).Some? {
      LineEndIsThere(rest);
      LengthLineMatches(name, gap, d, eol, line, rest[..LineEnd(rest, 0).value]);
    }
    NameIsInWindow(name, line, rest + more);
    ActsBehind(line, rest, more, Number(d));
    Regroup(line, rest, more);
  }

  lemma LineEndStays(rest: Bytes, more: Bytes)
    requires rest != "" && rest != "\r"
    ensures LineEnd(rest + more, 0) == LineEnd(rest, 0)
  {}

  /** A header that is matched at the start of a buffer is matched in its window, if it fits. */
  lemma MatchedInWindow(head: Bytes, b: Bytes)
    requires head <= b && |head| <= HEADER_WINDOW && MatchHeader(head).Some?
    ensures MatchHeader(HeaderWindow(b)) == MatchHeader(head)
  {
    MatchIsStable(head, HeaderWindow(b));
  }

  lemma NameIsInWindow(name: Bytes, line: Bytes, rest: Bytes)
    requires |name| == |HEADER_NAME| && StartsWithHeaderName(name) && name <= line
    ensures StartsWithHeaderName(HeaderWindow(line + rest))
  {
    assert name <= HeaderWindow(line + rest);
    NameStays(name, HeaderWindow(line + rest));
  }

  /** The same, from what the header of the whole buffer and of its start is. */
  lemma ActsBehind(line: Bytes, rest: Bytes, more: Bytes, length: nat)
    requires StartsWithHeaderName(HeaderWindow(line + (rest + more)))
    requires MatchHeader(line + (rest + more)) == Found(|line|, LineEnd(rest, 0), length)
    requires LineEnd(rest, 0).Some? ==>
               MatchHeader(line + rest[..LineEnd(rest, 0).value]) == Found(|line|, LineEnd(rest, 0), length)
    ensures var (b, e) := (line + (rest + more), LineEnd(rest, 0));
            !NextAction(b).Wait? <==>
              e.Some? && |line| + e.value <= HEADER_WINDOW && |b| >= |line| + e.value + length
  {
    var b, e := line + (rest + more), LineEnd(rest, 0);
    if e.Some? && |line| + e.value <= HEADER_WINDOW {
      assert line + rest[..e.value] <= b;
      MatchedInWindow(line + rest[..e.value], b);
    } else if MatchHeader(HeaderWindow(b)).Some? {
      MatchIsStable(HeaderWindow(b), b);
    }
  }

  lemma LineEndIsThere(rest: Bytes)
    requires LineEnd(rest, 0).Some?
    ensures var e := LineEnd(rest, 0).value; LineEnd(rest[..e], 0) == Some(e) && |rest[..e]| == e
  {}


  /** So the client stalls on a further header, such as Content-Type, whatever arrives later. */
  lemma ClientStallsOnHeaders(body: Bytes, header: Bytes, more: Bytes)
    requires |body| <= USIZE_MAX && header != "" && LineEnd(header, 0).None? && header != "\r"
    ensures Drain(FrameWithHeader(body, header) + more) == ([], FrameWithHeader(body, header) + more)
  {
    var d, tail := Decimal(|body|), "\r\n\r\n" + body + more;
    assert FrameWithHeader(body, header) + more == HEADER_NAME + " " + d + "\r\n" + header + tail;
    ClientActsOnBlankLine(HEADER_NAME, " ", d, "\r\n", header, tail);
  }
}
