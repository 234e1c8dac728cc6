/**
 * Content-Length framing of JSON-RPC messages, as in the Header Part of the Base Protocol section of
 * the Language Server Protocol 3.17 specification: one writer, the client's incremental parser and
 * the daemon's pull parser. A byte is written as the character of the same code below 256.
 */
module Framing {
  import opened Common
  import Strings
  import opened Decimals

  type Bytes = string

  // ---------- bytes ----------

  predicate IsSpace(c: char) { c == ' ' || '\t' <= c <= '\r' }

  lemma LengthsAreShort(n: usize)
    ensures |Decimal(n)| <= 20
  {
    assert Pow10(5) == 100000;
    assert Pow10(10) == 10000000000;
    assert Pow10(15) == 1000000000000000;
    assert Pow10(20) == 100000000000000000000;
    DecimalIsShort(n, 20);
  }

  function Trim(s: Bytes): Bytes { Strings.Trim(s, IsSpace) }

  /** The first position at or after `i` whose byte is no space, or the end. */
  function SkipSpaces(s: Bytes, i: nat): (j: nat)
    requires i <= |s|
    ensures i <= j <= |s| && (j < |s| ==> !IsSpace(s[j]))
    ensures forall k :: i <= k < j ==> IsSpace(s[k])
    decreases |s| - i
  {
    if i < |s| && IsSpace(s[i]) then SkipSpaces(s, i + 1) else i
  }

  /** The end of `\r?\n` at `i`. */
  function LineEnd(s: Bytes, i: nat): (r: Option<nat>)
    ensures r.Some? ==> i < r.value <= |s|
  {
    if i < |s| && s[i] == '\n' then Some(i + 1)
    else if i + 1 < |s| && s[i] == '\r' && s[i + 1] == '\n' then Some(i + 2)
    else None
  }

  function NewlineIndex(s: Bytes): (r: Option<nat>)
    ensures r.Some? ==> r.value < |s| && s[r.value] == '\n' && '\n' !in s[..r.value]
    ensures r.None? ==> '\n' !in s
  {
    if s == "" then None
    else if s[0] == '\n' then Some(0)
    else match NewlineIndex(s[1..])
         case Some(i) => assert s[..i + 1] == [s[0]] + s[1..][..i]; Some(i + 1)
         case None => None
  }

  // ---------- the writer ----------

  const HEADER_NAME: Bytes := "Content-Length:"

  function Header(n: nat): Bytes { HEADER_NAME + " " + Decimal(n) + "\r\n\r\n" }

  /** What both sides write for one message. */
  function Frame(body: Bytes): Bytes { Header(|body|) + body }

  // ---------- the client's incremental parser ----------

  const HEADER_WINDOW: nat := 1024

  function HeaderWindow(buffer: Bytes): Bytes { buffer[..Min(|buffer|, HEADER_WINDOW)] }

  predicate StartsWithHeaderName(s: Bytes) {
    |s| >= |HEADER_NAME| &&
    forall i :: 0 <= i < |HEADER_NAME| ==> Strings.LowerAscii(s[i]) == Strings.LowerAscii(HEADER_NAME[i])
  }

  /** The match of `^Content-Length:\s*(\d+)\r?\n\r?\n`, ignoring case: its length and its number. */
  function MatchHeader(s: Bytes): (r: Option<(nat, nat)>)
    ensures r.Some? ==> StartsWithHeaderName(s) && 0 < r.value.0 <= |s|
  {
    if !StartsWithHeaderName(s) then None
    else
      var i := SkipSpaces(s, |HEADER_NAME|);
      var j := SkipDigits(s, i);
      if i == j then None
      else match LineEnd(s, j)
        case None => None
        case Some(k) =>
          match LineEnd(s, k)
          case None => None
          case Some(end) => Some((end, Number(s[i..j])))
  }

  /** What the parser does with a non-empty buffer. */
  datatype Action = Deliver(frame: Bytes, consumed: nat) | Drop(consumed: nat) | Wait

  function NextAction(buffer: Bytes): (a: Action)
    ensures !a.Wait? ==> 0 < a.consumed <= |buffer|
  {
    match MatchHeader(HeaderWindow(buffer))
    case Some((header, length)) =>
      if |buffer| < header + length then Wait
      else Deliver(buffer[header..header + length], header + length)
    case None =>
      if StartsWithHeaderName(HeaderWindow(buffer)) then Wait
      else match NewlineIndex(buffer)
        case None => Wait
        case Some(i) =>
          var line := Trim(buffer[..i]);
          if line == "" then Drop(i + 1) else Deliver(line, i + 1)
  }

  /** All frames a buffer yields, and what is kept for later. */
  function Drain(buffer: Bytes): (seq<Bytes>, Bytes)
    decreases |buffer|
  {
    match NextAction(buffer)
    case Wait => ([], buffer)
    case Drop(n) => Drain(buffer[n..])
    case Deliver(frame, n) =>
      var (frames, rest) := Drain(buffer[n..]);
      ([frame] + frames, rest)
  }

  lemma SkippingIsStable(s: Bytes, t: Bytes, i: nat)
    requires i <= |s| && s <= t
    ensures SkipSpaces(s, i) < |s| ==> SkipSpaces(t, i) == SkipSpaces(s, i)
    ensures SkipDigits(s, i) < |s| ==> SkipDigits(t, i) == SkipDigits(s, i)
  {}

  lemma LineEndIsStable(s: Bytes, t: Bytes, j: nat)
    requires s <= t && LineEnd(s, j).Some?
    ensures LineEnd(t, j) == LineEnd(s, j)
  {}

  /** A match stays the same match when more bytes arrive. */
  lemma MatchIsStable(s: Bytes, t: Bytes)
    requires s <= t && MatchHeader(s).Some?
    ensures MatchHeader(t) == MatchHeader(s)
  {
    SkippingIsStable(s, t, |HEADER_NAME|);
    var i := SkipSpaces(s, |HEADER_NAME|);
    SkippingIsStable(s, t, i);
    var j := SkipDigits(s, i);
    LineEndIsStable(s, t, j);
    LineEndIsStable(s, t, LineEnd(s, j).value);
    assert s[i..j] == t[i..j];
  }

  lemma {:induction false} NewlineIsStable(s: Bytes, more: Bytes)
    requires NewlineIndex(s).Some?
    ensures NewlineIndex(s + more) == NewlineIndex(s)
  {
    if s[0] != '\n' {
      NewlineIsStable(s[1..], more);
      assert (s + more)[1..] == s[1..] + more;
    }
  }

  /** The header's name is taken in any case. */
  lemma HeaderNameInAnyCase(s: Bytes)
    ensures StartsWithHeaderName(s) <==>
            |s| >= |"Content-Length:"| && Strings.SameButForCase(s[..|"Content-Length:"|], "Content-Length:")
  {
    if |s| >= |HEADER_NAME| {
      Strings.CaseIsIgnored(s[..|HEADER_NAME|], HEADER_NAME);
    }
  }

  lemma HeaderNameHasNoNewline(s: Bytes)
    requires StartsWithHeaderName(s)
    ensures forall i :: 0 <= i < |HEADER_NAME| ==> s[i] != '\n'
  {
    assert forall i :: 0 <= i < |HEADER_NAME| ==> Strings.LowerAscii(HEADER_NAME[i]) != '\n';
    assert forall i :: 0 <= i < |HEADER_NAME| ==> Strings.LowerAscii(s[i]) != '\n';
  }

  /** With a newline in the buffer it is settled whether it starts with the header's name. */
  lemma HeaderNameIsStable(buffer: Bytes, more: Bytes)
    requires '\n' in buffer && StartsWithHeaderName(HeaderWindow(buffer + more))
    ensures StartsWithHeaderName(HeaderWindow(buffer))
  {
    var t := HeaderWindow(buffer + more);
    HeaderNameHasNoNewline(t);
    var i :| 0 <= i < |buffer| && buffer[i] == '\n';
    assert i < |t| ==> t[i] == '\n';
    assert i >= |HEADER_NAME|;
    assert forall k :: 0 <= k < |HEADER_NAME| ==> HeaderWindow(buffer)[k] == t[k];
  }

  lemma FramedActionIsStable(buffer: Bytes, more: Bytes)
    requires !NextAction(buffer).Wait? && MatchHeader(HeaderWindow(buffer)).Some?
    ensures NextAction(buffer + more) == NextAction(buffer)
  {
    var (h, n) := MatchHeader(HeaderWindow(buffer)).value;
    WindowGrows(buffer, more);
    MatchIsStable(HeaderWindow(buffer), HeaderWindow(buffer + more));
    FramedAction(buffer);
    FramedAction(buffer + more);
    PartStays(buffer, more, h, h + n);
  }

  lemma WindowGrows(buffer: Bytes, more: Bytes)
    ensures HeaderWindow(buffer) <= HeaderWindow(buffer + more)
  {}

  lemma PartStays(buffer: Bytes, more: Bytes, i: nat, j: nat)
    requires i <= j <= |buffer|
    ensures (buffer + more)[i..j] == buffer[i..j]
  {}

  lemma FramedAction(buffer: Bytes)
    requires MatchHeader(HeaderWindow(buffer)).Some?
    ensures var (h, n) := MatchHeader(HeaderWindow(buffer)).value;
            NextAction(buffer) == if |buffer| < h + n then Wait else Deliver(buffer[h..h + n], h + n)
  {}

  lemma LineActionIsStable(buffer: Bytes, more: Bytes)
    requires !NextAction(buffer).Wait? && MatchHeader(HeaderWindow(buffer)).None?
    ensures NextAction(buffer + more) == NextAction(buffer)
  {
    NewlineIsStable(buffer, more);
    if StartsWithHeaderName(HeaderWindow(buffer + more)) {
      HeaderNameIsStable(buffer, more);
    }
    var i := NewlineIndex(buffer).value;
    assert (buffer + more)[..i] == buffer[..i];
  }

  /** Once the parser acts, later bytes do not change what it does. */
  lemma ActionIsStable(buffer: Bytes, more: Bytes)
    requires !NextAction(buffer).Wait?
    ensures NextAction(buffer + more) == NextAction(buffer)
  {
    if MatchHeader(HeaderWindow(buffer)).Some? {
      FramedActionIsStable(buffer, more);
    } else {
      LineActionIsStable(buffer, more);
    }
  }

  lemma DrainStep(buffer: Bytes)
    ensures var a := NextAction(buffer);
            && (a.Wait? ==> Drain(buffer) == ([], buffer))
            && (a.Drop? ==> Drain(buffer) == Drain(buffer[a.consumed..]))
            && (a.Deliver? ==>
                  && Drain(buffer).0 == [a.frame] + Drain(buffer[a.consumed..]).0
                  && Drain(buffer).1 == Drain(buffer[a.consumed..]).1)
  {}

  /** An action leaves more of a longer buffer. */
  lemma DrainStepOn(buffer: Bytes, more: Bytes)
    requires !NextAction(buffer).Wait?
    ensures NextAction(buffer + more) == NextAction(buffer)
    ensures var n := NextAction(buffer).consumed; (buffer + more)[n..] == buffer[n..] + more
  {
    ActionIsStable(buffer, more);
  }

  lemma {:induction false} DrainAppend(buffer: Bytes, more: Bytes)
    ensures var (frames, rest) := Drain(buffer);
            Drain(buffer + more) == (frames + Drain(rest + more).0, Drain(rest + more).1)
    decreases |buffer|
  {
    var a := NextAction(buffer);
    DrainStep(buffer);
    if a.Wait? {
      assert [] + Drain(buffer + more).0 == Drain(buffer + more).0;
    } else {
      var left := buffer[a.consumed..];
      DrainStepOn(buffer, more);
      DrainStep(buffer + more);
      DrainAppend(left, more);
      if a.Deliver? {
        Regroup([a.frame], Drain(left).0, Drain(Drain(left).1 + more).0);
      }
    }
  }

  /** Chunks arriving one after the other, each followed by a drain. */
  function Feed(kept: Bytes, chunks: seq<Bytes>): (seq<Bytes>, Bytes)
    decreases chunks
  {
    if chunks == [] then ([], kept)
    else
      var (frames, rest) := Drain(kept + chunks[0]);
      var (later, end) := Feed(rest, chunks[1..]);
      (frames + later, end)
  }

  /** However a byte stream is cut into chunks, the same frames come out and the same tail is kept. */
  lemma {:induction false} ChunkingDoesNotMatter(kept: Bytes, chunks: seq<Bytes>)
    requires Drain(kept) == ([], kept)
    ensures Feed(kept, chunks) == Drain(kept + Flatten(chunks))
    decreases chunks
  {
    if chunks == [] {
      assert kept + Flatten(chunks) == kept;
    } else {
      var now, later := kept + chunks[0], Flatten(chunks[1..]);
      assert kept + Flatten(chunks) == now + later;
      DrainAppend(now, later);
      DrainIsComplete(now);
      ChunkingDoesNotMatter(Drain(now).1, chunks[1..]);
    }
  }

  lemma {:induction false} DrainIsComplete(buffer: Bytes)
    ensures Drain(Drain(buffer).1) == ([], Drain(buffer).1)
    decreases |buffer|
  {
    var a := NextAction(buffer);
    if !a.Wait? {
      DrainIsComplete(buffer[a.consumed..]);
    }
  }

  // ---------- writer and client parser are inverse ----------

  /** A framed body, or a legacy message on a line of its own. */
  datatype Message = Framed(body: Bytes) | Line(text: Bytes)

  ghost predicate Sendable(m: Message) {
    match m
    case Framed(body) => |body| <= USIZE_MAX
    case Line(text) => text != "" && Trim(text) == text && '\n' !in text && !StartsWithHeaderName(text)
  }

  function Encode(m: Message): Bytes {
    match m
    case Framed(body) => Frame(body)
    case Line(text) => text + "\n"
  }

  function Content(m: Message): Bytes {
    match m
    case Framed(body) => body
    case Line(text) => text
  }

  function EncodeAll(ms: seq<Message>): Bytes {
    if ms == [] then "" else Encode(ms[0]) + EncodeAll(ms[1..])
  }

  function Contents(ms: seq<Message>): seq<Bytes> {
    if ms == [] then [] else [Content(ms[0])] + Contents(ms[1..])
  }

  lemma HeaderMatches(n: usize)
    ensures MatchHeader(Header(n)) == Some((|Header(n)|, n))
    ensures |Header(n)| <= 40
  {
    var h, d := Header(n), Decimal(n);
    var i, j := |HEADER_NAME| + 1, |HEADER_NAME| + 1 + |d|;
    LengthsAreShort(n);
    NumberOfDecimal(n);
    assert h[i..j] == d;
    assert h[|HEADER_NAME|] == ' ' && h[i] == d[0];
    assert SkipSpaces(h, |HEADER_NAME|) == i;
    assert forall k :: i <= k < j ==> h[k] == d[k - i];
    assert h[j] == '\r' && h[j + 1] == '\n' && h[j + 2] == '\r' && h[j + 3] == '\n';
    assert SkipDigits(h, i) == j;
    assert LineEnd(h, j) == Some(j + 2) && LineEnd(h, j + 2) == Some(j + 4);
  }

  lemma FrameIsDelivered(m: Message, more: Bytes)
    requires Sendable(m)
    ensures NextAction(Encode(m) + more) == Deliver(Content(m), |Encode(m)|)
  {
    match m {
      case Framed(body) => BodyIsDelivered(body);
      case Line(text) => LineIsDelivered(text);
    }
    ActionIsStable(Encode(m), more);
  }

  lemma BodyIsDelivered(body: Bytes)
    requires |body| <= USIZE_MAX
    ensures NextAction(Frame(body)) == Deliver(body, |Frame(body)|)
  {
    HeaderMatches(|body|);
    DeliveredBehind(Header(|body|), body);
  }

  lemma DeliveredBehind(header: Bytes, body: Bytes)
    requires |header| <= HEADER_WINDOW && MatchHeader(header) == Some((|header|, |body|))
    ensures NextAction(header + body) == Deliver(body, |header + body|)
  {
    assert header <= HeaderWindow(header + body);
    MatchIsStable(header, HeaderWindow(header + body));
    assert (header + body)[|header|..] == body;
  }

  lemma {:induction false} NewlineAfter(text: Bytes)
    requires '\n' !in text
    ensures NewlineIndex(text + "\n") == Some(|text|)
  {
    if text != "" {
      NewlineAfter(text[1..]);
      assert (text + "\n")[1..] == text[1..] + "\n";
      assert text[0] in text;
    }
  }

  lemma LineIsDelivered(text: Bytes)
    requires Sendable(Line(text))
    ensures NextAction(text + "\n") == Deliver(text, |text| + 1)
  {
    var bytes := text + "\n";
    NewlineAfter(text);
    assert bytes[..|text|] == text;
    if StartsWithHeaderName(HeaderWindow(bytes)) {
      LineHeaderIsText(text);
    }
  }

  /** A line is delivered without the white space around it, and dropped if that is all of it. */
  lemma PaddedLineIsTaken(before: Bytes, text: Bytes, after: Bytes, rest: Bytes)
    requires Strings.AllBlank(before, IsSpace) && Strings.AllBlank(after, IsSpace)
    requires text == "" || Strings.Solid(text, IsSpace)
    requires var line := before + text + after; '\n' !in line && !StartsWithHeaderName(line)
    ensures var line := before + text + after;
            Drain(line + "\n" + rest) ==
            ((if text == "" then [] else [text]) + Drain(rest).0, Drain(rest).1)
  {
    var line := before + text + after;
    var bytes := line + "\n";
    Strings.TrimDrops(before, text, after, IsSpace);
    NewlineAfter(line);
    assert bytes[..|line|] == line;
    if StartsWithHeaderName(HeaderWindow(bytes)) {
      LineHeaderIsText(line);
    }
    ActionIsStable(bytes, rest);
    DrainStep(bytes + rest);
    assert (bytes + rest)[|bytes|..] == rest;
    assert [] + Drain(rest).0 == Drain(rest).0;
  }

  lemma LineHeaderIsText(text: Bytes)
    requires StartsWithHeaderName(HeaderWindow(text + "\n"))
    ensures StartsWithHeaderName(text)
  {
    var t := HeaderWindow(text + "\n");
    HeaderNameHasNoNewline(t);
    assert (text + "\n")[|text|] == '\n';
    assert |text| >= |HEADER_NAME|;
    assert forall k :: 0 <= k < |HEADER_NAME| ==> text[k] == t[k];
  }

  lemma ActingTakesAWholeMessage(m: Message, part: Bytes)
    requires Sendable(m) && part <= Encode(m) && !NextAction(part).Wait?
    ensures part == Encode(m)
  {
    var missing := Encode(m)[|part|..];
    assert part + missing == Encode(m) + "";
    ActionIsStable(part, missing);
    FrameIsDelivered(m, "");
  }

  /** The beginning of a message makes the parser wait for the rest. */
  lemma PartialMessageWaits(m: Message, part: Bytes)
    requires Sendable(m) && part < Encode(m)
    ensures NextAction(part).Wait?
  {
    if !NextAction(part).Wait? {
      ActingTakesAWholeMessage(m, part);
    }
  }

  /**
   * Framing undoes itself: a stream of messages and the beginning of another, cut into any chunks,
   * delivers exactly the contents of the complete messages, in order, and keeps the beginning.
   */
  lemma {:induction false} FramingRoundTrip(ms: seq<Message>, next: Message, part: Bytes, chunks: seq<Bytes>)
    requires (forall i :: 0 <= i < |ms| ==> Sendable(ms[i])) && Sendable(next) && part < Encode(next)
    requires Flatten(chunks) == EncodeAll(ms) + part
    ensures Feed("", chunks) == (Contents(ms), part)
  {
    ChunkingDoesNotMatter("", chunks);
    assert "" + Flatten(chunks) == Flatten(chunks);
    DrainsAll(ms, next, part);
  }

  lemma DrainsOne(m: Message, rest: Bytes)
    requires Sendable(m)
    ensures Drain(Encode(m) + rest) == ([Content(m)] + Drain(rest).0, Drain(rest).1)
  {
    FrameIsDelivered(m, rest);
    assert (Encode(m) + rest)[|Encode(m)|..] == rest;
  }

  lemma {:induction false} DrainsAll(ms: seq<Message>, next: Message, part: Bytes)
    requires (forall i :: 0 <= i < |ms| ==> Sendable(ms[i])) && Sendable(next) && part < Encode(next)
    ensures Drain(EncodeAll(ms) + part) == (Contents(ms), part)
  {
    if ms == [] {
      assert EncodeAll(ms) + part == part;
      PartialMessageWaits(next, part);
    } else {
      Regroup(Encode(ms[0]), EncodeAll(ms[1..]), part);
      DrainsOne(ms[0], EncodeAll(ms[1..]) + part);
      DrainsAll(ms[1..], next, part);
    }
  }
}
