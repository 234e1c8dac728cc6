/** What a field of a line is read as, told from its text alone. */
module FixedWidthCells {
  import opened Common
  import opened Decimals
  import opened Strings
  import opened FixedWidth

  // ---------- UTF-8 ----------

  function Pow(b: nat, k: nat): nat { if k == 0 then 1 else b * Pow(b, k - 1) }

  /** How many code points there are for `w` bytes: 7 bits in one, or 7 - w in the first and 6 in each other. */
  function Capacity(w: nat): nat
    requires 1 <= w <= 4
  {
    if w == 1 then Pow(2, 7) else Pow(2, 7 - w) * Pow(64, w - 1)
  }

  /** A character takes as few bytes as its code point fits into. */
  lemma WidthIsShortest(c: char)
    ensures Width(c) > 1 ==> Capacity(Width(c) - 1) <= c as int
    ensures c as int < Capacity(Width(c))
  {
    assert Pow(2, 7) == 128 && Pow(2, 5) == 32 && Pow(2, 4) == 16 && Pow(2, 3) == 8;
    assert Pow(64, 1) == 64 && Pow(64, 2) == 4096 && Pow(64, 3) == 262144;
  }

  // ---------- the text of a field ----------

  /** The line is long enough, and the bytes of the field are those of the text. */
  predicate Holds(line: Line, f: Field, text: string) {
    End(f) <= |line| && line[f.start..End(f)] == Encode(text)
  }

  lemma {:induction false} EncodeDecode(b: Line)
    ensures Decode(b).Some? ==> Encode(Decode(b).value) == b
    decreases |b|
  {
    if Decode(b).Some? && b != [] {
      var c, rest := b[0].ch, b[Width(b[0].ch)..];
      DecodeOne(b);
      EncodeDecode(rest);
      EncodeOne(c, Decode(rest).value);
    }
  }

  lemma DecodeOne(b: Line)
    requires b != [] && Decode(b).Some?
    ensures var c := b[0].ch;
            && Width(c) <= |b| && b == CharBytes(c) + b[Width(c)..]
            && Decode(b[Width(c)..]).Some? && Decode(b).value == [c] + Decode(b[Width(c)..]).value
  {
    assert b == b[..Width(b[0].ch)] + b[Width(b[0].ch)..];
  }

  lemma EncodeOne(c: char, s: string)
    ensures Encode([c] + s) == CharBytes(c) + Encode(s)
  {
    assert ([c] + s)[1..] == s;
  }

  /** A field without a text is beyond the end of the line, or cuts a character in two. */
  lemma NoText(line: Line, f: Field)
    ensures CellOf(line, f) == Err(ShortRow) <==> |line| < f.start + f.length
    ensures CellOf(line, f) == Err(SplitCharacter) <==>
            f.start + f.length <= |line| && forall text :: !Holds(line, f, text)
  {
    if End(f) <= |line| {
      EncodeDecode(line[f.start..End(f)]);
      forall text | Holds(line, f, text) ensures Decode(line[f.start..End(f)]) == Some(text) {
        DecodeEncode(text);
      }
      if Decode(line[f.start..End(f)]).Some? {
        assert Holds(line, f, Decode(line[f.start..End(f)]).value);
      }
    }
  }

  /** `text` with white space around it, of which a text column that is not trimmed has none. */
  ghost predicate HoldsPadded(line: Line, f: Field, text: string) {
    exists before, after ::
      && Holds(line, f, before + text + after)
      && AllBlank(before, IsWhitespace) && AllBlank(after, IsWhitespace)
      && (f.dataType == Some(Utf8) && !f.trim ==> before == after == "")
  }

  /** The text as it is read, from the text that is there. */
  function ReadAs(text: string, f: Field): Result<Option<string>, CellError> {
    if text != "" then Ok(Some(text)) else if f.nullable then Ok(None) else Err(EmptyField)
  }

  predicate Untrimmed(f: Field) { f.dataType == Some(Utf8) && !f.trim }

  lemma TextIsSliced(line: Line, f: Field, whole: string)
    requires Holds(line, f, whole)
    ensures SliceOf(line, f) == ReadAs(if Untrimmed(f) then whole else Trim(whole, IsWhitespace), f)
  {
    DecodeEncode(whole);
  }

  lemma PaddedIsSliced(line: Line, f: Field, text: string)
    requires HoldsPadded(line, f, text) && (text == "" || Solid(text, IsWhitespace) || Untrimmed(f))
    ensures SliceOf(line, f) == ReadAs(text, f)
  {
    var before, after :|
      && Holds(line, f, before + text + after)
      && AllBlank(before, IsWhitespace) && AllBlank(after, IsWhitespace)
      && (f.dataType == Some(Utf8) && !f.trim ==> before == after == "");
    TextIsSliced(line, f, before + text + after);
    if Untrimmed(f) {
      assert before + text + after == text;
    } else {
      TrimDrops(before, text, after, IsWhitespace);
    }
  }

  /** A blank field is NULL if the column may be NULL, and an error otherwise. */
  lemma BlankIsRead(line: Line, f: Field)
    requires HoldsPadded(line, f, "")
    ensures CellOf(line, f) == if !f.nullable then Err(EmptyField)
                               else if f.dataType.None? || f.dataType.value.Other? then Err(UnsupportedType)
                               else Ok(Null)
  {
    PaddedIsSliced(line, f, "");
  }

  /** A text column holds its text, trimmed if it says so. */
  lemma TextIsRead(line: Line, f: Field, text: string)
    requires f.dataType == Some(Utf8) && HoldsPadded(line, f, text) && text != ""
    requires f.trim ==> Solid(text, IsWhitespace)
    ensures CellOf(line, f) == Ok(Text(text))
  {
    PaddedIsSliced(line, f, text);
  }

  // ---------- booleans ----------

  ghost predicate SpelledAs(text: string, words: set<string>) { exists w :: w in words && SameButForCase(text, w) }

  lemma LowerMeans(text: string, word: string)
    requires forall i :: 0 <= i < |word| ==> !('A' <= word[i] <= 'Z')
    ensures LowerCase(text) == word <==> SameButForCase(text, word)
  {
    CaseIsIgnored(text, word);
  }

  /** A boolean column takes five spellings of each truth value, in any case, and nothing else. */
  lemma FlagIsRead(line: Line, f: Field, text: string)
    requires f.dataType == Some(Boolean) && HoldsPadded(line, f, text) && Solid(text, IsWhitespace)
    ensures CellOf(line, f) == if SpelledAs(text, {"true", "t", "1", "y", "yes"}) then Ok(Flag(true))
                               else if SpelledAs(text, {"false", "f", "0", "n", "no"}) then Ok(Flag(false))
                               else Err(BadValue)
  {
    PaddedIsSliced(line, f, text);
    SpellingsAreParsed(text);
  }

  lemma SpellingsAreParsed(text: string)
    ensures ParseBool(text) == if SpelledAs(text, {"true", "t", "1", "y", "yes"}) then Some(true)
                               else if SpelledAs(text, {"false", "f", "0", "n", "no"}) then Some(false)
                               else None
  {
    forall w | w in {"true", "t", "1", "y", "yes", "false", "f", "0", "n", "no"}
      ensures LowerCase(text) == w <==> SameButForCase(text, w)
    {
      LowerMeans(text, w);
    }
  }

  // ---------- integers ----------

  /** Digits, with a sign or without; a minus only where numbers may be negative. */
  ghost predicate Denotes(text: string, lo: int, n: int) {
    || (AllDigits(text) && n == Worth(text))
    || (text != "" && text[0] == '+' && AllDigits(text[1..]) && n == Worth(text[1..]))
    || (text != "" && text[0] == '-' && lo < 0 && AllDigits(text[1..]) && n == -Worth(text[1..]))
  }

  /** An integer column takes the decimal notations of the numbers in its range, and nothing else. */
  lemma IntegerIsRead(line: Line, f: Field, text: string)
    requires f.dataType.Some? && f.dataType.value.Integer? && HoldsPadded(line, f, text) && Solid(text, IsWhitespace)
    ensures var lo, hi := f.dataType.value.lo, f.dataType.value.hi;
            && (forall n :: CellOf(line, f) == Ok(Whole(n)) <==> lo <= n <= hi && Denotes(text, lo, n))
            && (CellOf(line, f).Err? ==> CellOf(line, f) == Err(BadValue))
            && (CellOf(line, f).Ok? ==> CellOf(line, f).value.Whole?)
  {
    PaddedIsSliced(line, f, text);
    forall n ensures ParseInteger(text, f.dataType.value.lo, f.dataType.value.hi) == Some(n) <==>
                       f.dataType.value.lo <= n <= f.dataType.value.hi && Denotes(text, f.dataType.value.lo, n)
    {
      NotationsAreParsed(text, f.dataType.value.lo, f.dataType.value.hi, n);
    }
  }

  lemma NotationsAreParsed(text: string, lo: int, hi: int, n: int)
    requires text != ""
    ensures ParseInteger(text, lo, hi) == Some(n) <==> lo <= n <= hi && Denotes(text, lo, n)
  {
    DigitsAreRead(text);
    DigitsAreRead(text[1..]);
  }

  lemma DigitsAreRead(s: string)
    ensures ParseDigits(s).Some? <==> AllDigits(s)
    ensures ParseDigits(s).Some? ==> ParseDigits(s).value == Worth(s)
  {
    if AllDigits(s) {
      NumberIsWorth(s);
    }
  }

  /** A float column takes what its parser takes. */
  lemma FloatIsRead(line: Line, f: Field, text: string)
    requires f.dataType.Some? && f.dataType.value.Float? && HoldsPadded(line, f, text) && Solid(text, IsWhitespace)
    ensures var bits := f.dataType.value.parse(text);
            CellOf(line, f) == if bits.Some? then Ok(FloatBits(bits.value)) else Err(BadValue)
  {
    PaddedIsSliced(line, f, text);
  }

  // ---------- the lines of a file ----------

  /** What is left are the bytes before the line breaks at the end. */
  lemma {:induction false} StripDropsBreaks(b: Line)
    ensures Strip(b) <= b && forall i :: |Strip(b)| <= i < |b| ==> b[i].ch in {'\r', '\n'}
    ensures Strip(b) != [] ==> Strip(b)[|Strip(b)| - 1].ch !in {'\r', '\n'}
    decreases |b|
  {
    if b != [] && IsBreak(b[|b| - 1]) {
      StripDropsBreaks(b[..|b| - 1]);
    }
  }

  /** What is left of each read. */
  function Stripped(file: seq<Read>): seq<Line> {
    seq(|file|, i requires 0 <= i < |file| => if file[i].Unreadable? then [] else Strip(file[i].bytes))
  }

  /** The reads `at` are those of which something is left, and the lines are what is left of them. */
  ghost predicate LinesAt(stripped: seq<Line>, from: nat, to: nat, lines: seq<Line>, at: seq<nat>)
    requires from <= to <= |stripped|
  {
    && |lines| == |at|
    && (forall k, l :: 0 <= k < l < |at| ==> at[k] < at[l])
    && (forall k :: 0 <= k < |at| ==> from <= at[k] < to && lines[k] == stripped[at[k]] != [])
    && forall i :: from <= i < to && stripped[i] != [] ==> i in at
  }

  lemma {:induction false} LinesStand(file: seq<Read>, from: nat, to: nat) returns (at: seq<nat>)
    requires from <= to <= |file|
    ensures LinesAt(Stripped(file), from, to, Lines(file, from, to), at)
  {
    if from == to {
      at := [];
    } else {
      at := LinesStand(file, from, to - 1);
      var own := Stripped(file)[to - 1];
      assert LineOf(file[to - 1]) == if own == [] then [] else [own];
      at := NextLineStands(Stripped(file), from, to - 1, Lines(file, from, to - 1), at, Lines(file, from, to));
    }
  }

  lemma NextLineStands(stripped: seq<Line>, from: nat, to: nat, lines: seq<Line>, at: seq<nat>, all: seq<Line>)
    returns (more: seq<nat>)
    requires from <= to < |stripped| && LinesAt(stripped, from, to, lines, at)
    requires all == lines + if stripped[to] == [] then [] else [stripped[to]]
    ensures LinesAt(stripped, from, to + 1, all, more)
  {
    more := if stripped[to] == [] then at else at + [to];
  }

  /** No read from `from` up to `to` fails. */
  ghost predicate AllRead(file: seq<Read>, from: nat, to: nat)
    requires from <= to <= |file|
  {
    forall i :: from <= i < to ==> file[i].Raw?
  }

  /** Reading stops behind the last line wanted, behind a failure, or at the end of the file, whichever is first. */
  ghost predicate StopsAt(file: seq<Read>, pos: nat, target: nat, t: Taken) {
    && pos <= t.pos <= |file| && t.count == |Lines(file, pos, t.pos)|
    && match t.stop
       case Full =>
         && AllRead(file, pos, t.pos) && t.count == target
         && (if target == 0 then t.pos == pos else t.pos > pos && Strip(file[t.pos - 1].bytes) != [])
       case Failed => pos < t.pos && AllRead(file, pos, t.pos - 1) && file[t.pos - 1].Unreadable? && t.count < target
       case EndOfFile => AllRead(file, pos, t.pos) && t.pos == |file| && t.count < target
  }

  lemma {:induction false} TakeStops(file: seq<Read>, pos: nat, target: nat)
    requires pos <= |file|
    ensures StopsAt(file, pos, target, Take(file, pos, target))
    decreases |file| - pos
  {
    if target > 0 && pos < |file| && file[pos].Raw? {
      var own := |LineOf(file[pos])|;
      TakeStops(file, pos + 1, target - own);
      TakeGoesOn(file, pos, target, Take(file, pos + 1, target - own));
      OneMoreRead(file, pos, target, Take(file, pos + 1, target - own), Take(file, pos, target));
    } else {
      NothingIsRead(file, pos, target);
    }
  }

  lemma NothingIsRead(file: seq<Read>, pos: nat, target: nat)
    requires pos <= |file| && (target > 0 && pos < |file| ==> file[pos].Unreadable?)
    ensures StopsAt(file, pos, target, Take(file, pos, target))
  {
    if pos < |file| && file[pos].Unreadable? {
      LinesGrow(file, pos, pos);
    }
  }

  lemma TakeGoesOn(file: seq<Read>, pos: nat, target: nat, t: Taken)
    requires pos < |file| && file[pos].Raw? && target > 0 && t == Take(file, pos + 1, target - |LineOf(file[pos])|)
    ensures Take(file, pos, target) == Later(|LineOf(file[pos])|, t)
  {
    TakeOne(file, pos, target);
  }

  /** Before a reading one more line is read, or one that has only line breaks. */
  lemma OneMoreRead(file: seq<Read>, pos: nat, target: nat, t: Taken, whole: Taken)
    requires pos < |file| && file[pos].Raw? && target > 0 && StopsAt(file, pos + 1, target - |LineOf(file[pos])|, t)
    requires whole == Later(|LineOf(file[pos])|, t)
    ensures StopsAt(file, pos, target, whole)
  {
    FirstLine(file, pos, t.pos);
  }

  lemma {:induction false} FirstLine(file: seq<Read>, from: nat, to: nat)
    requires from < to <= |file|
    ensures Lines(file, from, to) == LineOf(file[from]) + Lines(file, from + 1, to)
  {
    if from + 1 == to {
      assert Lines(file, from, from) == [] && Lines(file, to, to) == [];
    } else {
      FirstLine(file, from, to - 1);
    }
  }
}
