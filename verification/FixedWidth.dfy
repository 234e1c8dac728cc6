/** Fixed-width text files: layout validation, cell parsing and the batched scan of a file. */
module FixedWidth {
  import opened Common
  import opened Decimals
  import opened Strings

  const BATCH_SIZE: nat := 8192

  // ---------- text as bytes ----------

  /** Byte number `part` of the UTF-8 encoding of `ch`. */
  datatype Byte = Byte(ch: char, part: nat)

  type Line = seq<Byte>

  function Width(c: char): (w: nat)
    ensures 1 <= w <= 4
  {
    if c as int < 0x80 then 1 else if c as int < 0x800 then 2 else if c as int < 0x1_0000 then 3 else 4
  }

  function CharBytes(c: char): Line { seq(Width(c), (i: nat) => Byte(c, i)) }

  function Encode(s: string): Line {
    if s == "" then [] else CharBytes(s[0]) + Encode(s[1..])
  }

  /** The text of some bytes, unless a character is cut in two. */
  function Decode(b: Line): Option<string> {
    if b == [] then Some("")
    else
      var c := b[0].ch;
      if Width(c) > |b| || b[..Width(c)] != CharBytes(c) then None
      else
        match Decode(b[Width(c)..])
        case None => None
        case Some(rest) => Some([c] + rest)
  }

  lemma {:induction false} DecodeEncode(s: string)
    ensures Decode(Encode(s)) == Some(s)
  {
    if s != "" {
      var head, rest := CharBytes(s[0]), Encode(s[1..]);
      assert Encode(s)[0] == head[0] == Byte(s[0], 0);
      assert (head + rest)[..|head|] == head && (head + rest)[|head|..] == rest;
      DecodeEncode(s[1..]);
      assert [s[0]] + s[1..] == s;
    }
  }

  /** The characters of Unicode property White_Space. */
  predicate IsWhitespace(c: char) {
    var u := c as int;
    || 0x09 <= u <= 0x0D || u == 0x20 || u == 0x85 || u == 0xA0 || u == 0x1680
    || 0x2000 <= u <= 0x200A || u == 0x2028 || u == 0x2029 || u == 0x202F || u == 0x205F || u == 0x3000
  }

  // ---------- layouts ----------

  /** A column type; integers come with their range and floats with the parser of their precision. */
  datatype DataType = Utf8 | Boolean | Integer(lo: int, hi: int) | Float(parse: string -> Option<nat>) | Other

  /** A column of a record layout; `dataType` is `None` for a type name that is not recognised. */
  datatype Field = Field(name: string, start: nat, length: nat, dataType: Option<DataType>, nullable: bool, trim: bool)

  function End(f: Field): nat { f.start + f.length }

  function MinRowWidth(fields: seq<Field>): nat {
    if fields == [] then 0 else Max(MinRowWidth(fields[..|fields| - 1]), End(fields[|fields| - 1]))
  }

  predicate SpansOverlap(a: Field, b: Field) { a.start < End(b) && b.start < End(a) }

  datatype LayoutError = NoFields | ZeroLength(i: nat) | Overlap(i: nat, j: nat) | UnknownType(i: nat)

  ghost predicate Positive(fields: seq<Field>) { forall i :: 0 <= i < |fields| ==> fields[i].length > 0 }

  ghost predicate Disjoint(fields: seq<Field>) {
    forall i, j :: 0 <= i < j < |fields| ==> !SpansOverlap(fields[i], fields[j])
  }

  ghost predicate Typed(fields: seq<Field>) { forall i :: 0 <= i < |fields| ==> fields[i].dataType.Some? }

  /** Accepts exactly the non-empty layouts of typed, non-empty, pairwise disjoint fields. */
  method Validate(fields: seq<Field>) returns (error: Option<LayoutError>)
    ensures error.None? <==> fields != [] && Positive(fields) && Disjoint(fields) && Typed(fields)
    ensures error == Some(NoFields) <==> fields == []
    ensures error.Some? && error.value.ZeroLength? ==> error.value.i < |fields| && fields[error.value.i].length == 0
    ensures error.Some? && error.value.Overlap? ==>
              && error.value.i < error.value.j < |fields| && Positive(fields)
              && SpansOverlap(fields[error.value.i], fields[error.value.j])
    ensures error.Some? && error.value.UnknownType? ==>
              && error.value.i < |fields| && fields[error.value.i].dataType.None?
              && Positive(fields) && Disjoint(fields)
  {
    if fields == [] {
      return Some(NoFields);
    }
    for i := 0 to |fields|
      invariant forall k :: 0 <= k < i ==> fields[k].length > 0
    {
      if fields[i].length == 0 {
        return Some(ZeroLength(i));
      }
    }
    for i := 0 to |fields|
      invariant forall k, l :: 0 <= k < i && k < l < |fields| ==> !SpansOverlap(fields[k], fields[l])
    {
      for j := i + 1 to |fields|
        invariant forall l :: i < l < j ==> !SpansOverlap(fields[i], fields[l])
      {
        if SpansOverlap(fields[i], fields[j]) {
          return Some(Overlap(i, j));
        }
      }
    }
    for i := 0 to |fields|
      invariant forall k :: 0 <= k < i ==> fields[k].dataType.Some?
    {
      if fields[i].dataType.None? {
        return Some(UnknownType(i));
      }
    }
    return None;
  }

  // ---------- cells ----------

  datatype Cell = Null | Text(text: string) | Flag(value: bool) | Whole(number: int) | FloatBits(bits: nat)

  datatype CellError = ShortRow | SplitCharacter | EmptyField | BadValue | UnsupportedType

  function SliceOf(line: Line, f: Field): Result<Option<string>, CellError> {
    if |line| < End(f) then Err(ShortRow)
    else
      match Decode(line[f.start..End(f)])
      case None => Err(SplitCharacter)
      case Some(s) =>
        var trimmed := if f.trim || f.dataType.None? || !f.dataType.value.Utf8? then Trim(s, IsWhitespace) else s;
        if trimmed != "" then Ok(Some(trimmed))
        else if f.nullable then Ok(None)
        else Err(EmptyField)
  }

  function LowerCase(s: string): string { seq(|s|, i requires 0 <= i < |s| => LowerAscii(s[i])) }

  function ParseBool(s: string): Option<bool> {
    var l := LowerCase(s);
    if l in {"true", "t", "1", "y", "yes"} then Some(true)
    else if l in {"false", "f", "0", "n", "no"} then Some(false)
    else None
  }

  function ParseDigits(s: string): Option<nat> {
    if s == "" || exists i :: 0 <= i < |s| && !IsDigit(s[i]) then None else Some(Number(s))
  }

  /** An optional sign, of which unsigned types only take `+`, then digits, for a number in range. */
  function ParseInteger(s: string, lo: int, hi: int): Option<int> {
    var signed := s != "" && (s[0] == '+' || (s[0] == '-' && lo < 0));
    match ParseDigits(if signed then s[1..] else s)
    case None => None
    case Some(n) =>
      var value: int := if signed && s[0] == '-' then 0 - n else n;
      if lo <= value <= hi then Some(value) else None
  }

  function Coerce(s: string, t: DataType): Option<Cell> {
    match t
    case Utf8 => Some(Text(s))
    case Boolean => (match ParseBool(s) case None => None case Some(b) => Some(Flag(b)))
    case Integer(lo, hi) => (match ParseInteger(s, lo, hi) case None => None case Some(n) => Some(Whole(n)))
    case Float(parse) => (match parse(s) case None => None case Some(bits) => Some(FloatBits(bits)))
    case Other => None
  }

  function CellFrom(s: Option<string>, t: DataType): Option<Cell> {
    if s.None? then Some(Null) else Coerce(s.value, t)
  }

  predicate Supported(f: Field) { f.dataType.Some? && !f.dataType.value.Other? }

  function CellOf(line: Line, f: Field): Result<Cell, CellError> {
    match SliceOf(line, f)
    case Err(e) => Err(e)
    case Ok(s) =>
      if !Supported(f) then Err(UnsupportedType)
      else
        match CellFrom(s, f.dataType.value)
        case None => Err(BadValue)
        case Some(c) => Ok(c)
  }

  // ---------- batches ----------

  type Row = seq<Cell>

  ghost predicate Parses(line: Line, columns: seq<Field>) {
    forall c :: 0 <= c < |columns| ==> CellOf(line, columns[c]).Ok?
  }

  ghost function RowOf(line: Line, columns: seq<Field>): Row
    requires Parses(line, columns)
  {
    seq(|columns|, c requires 0 <= c < |columns| => CellOf(line, columns[c]).value)
  }

  ghost predicate AllParse(lines: seq<Line>, columns: seq<Field>) {
    forall i :: 0 <= i < |lines| ==> Parses(lines[i], columns)
  }

  /** A line with a row of its own; no line has one when no column is selected. */
  ghost predicate Readable(line: Line, columns: seq<Field>) { columns != [] && Parses(line, columns) }

  ghost predicate AllReadable(lines: seq<Line>, columns: seq<Field>) {
    forall i :: 0 <= i < |lines| ==> Readable(lines[i], columns)
  }

  ghost function RowsOf(lines: seq<Line>, columns: seq<Field>): seq<Row>
    requires AllParse(lines, columns)
  {
    seq(|lines|, i requires 0 <= i < |lines| => RowOf(lines[i], columns))
  }

  datatype ScanError = BadRow(row: nat, name: string, why: CellError) | BadColumn(name: string) | NoColumns | ReadFailed

  /** The cells of one column, one for each line. */
  ghost predicate ColumnOf(cells: seq<Cell>, lines: seq<Line>, f: Field) {
    |cells| == |lines| && forall i :: 0 <= i < |lines| ==> CellOf(lines[i], f) == Ok(cells[i])
  }

  /** The first `k` lines are long enough for a field, cut no character in two there and are not blank in vain. */
  ghost predicate Sliced(lines: seq<Line>, f: Field, k: nat)
    requires k <= |lines|
  {
    forall i :: 0 <= i < k ==> SliceOf(lines[i], f).Ok?
  }

  ghost predicate Filled(lines: seq<Line>, f: Field, k: nat)
    requires k <= |lines|
  {
    forall i :: 0 <= i < k ==> CellOf(lines[i], f).Ok?
  }

  /**
   * The error a column reports: of its first line, counted from `offset`, that cannot be sliced; failing
   * that of its type; and failing that of its first line whose slice cannot be read.
   */
  ghost predicate Blames(e: ScanError, lines: seq<Line>, f: Field, offset: nat) {
    match e
    case BadRow(row, name, why) =>
      && name == f.name && offset <= row < offset + |lines| && CellOf(lines[row - offset], f) == Err(why)
      && if SliceOf(lines[row - offset], f).Err? then Sliced(lines, f, row - offset)
         else Supported(f) && Sliced(lines, f, |lines|) && Filled(lines, f, row - offset)
    case BadColumn(name) => name == f.name && !Supported(f) && Sliced(lines, f, |lines|)
    case _ => false
  }

  /** The error a batch reports: that of its first column which has one. */
  ghost predicate BlamesFirst(e: ScanError, lines: seq<Line>, columns: seq<Field>, offset: nat, c: nat) {
    && c < |columns| && Blames(e, lines, columns[c], offset)
    && forall d :: 0 <= d < c ==> Filled(lines, columns[d], |lines|)
  }

  /** Each line's slice for a field, or why the first line without one has none. */
  method SliceColumn(lines: seq<Line>, f: Field, rowOffset: nat) returns (r: Result<seq<Option<string>>, ScanError>)
    ensures r.Ok? ==> Slices(r.value, lines, f)
    ensures r.Err? ==> r.error.BadRow? && Blames(r.error, lines, f, rowOffset)
  {
    var slices: seq<Option<string>> := [];
    for i := 0 to |lines|
      invariant Slices(slices, lines[..i], f)
    {
      var s := SliceOf(lines[i], f);
      if s.Err? {
        return Err(BadRow(rowOffset + i, f.name, s.error));
      }
      slices := slices + [s.value];
    }
    assert lines[..|lines|] == lines;
    return Ok(slices);
  }

  ghost predicate Slices(slices: seq<Option<string>>, lines: seq<Line>, f: Field) {
    |slices| == |lines| && forall i :: 0 <= i < |lines| ==> SliceOf(lines[i], f) == Ok(slices[i])
  }

  method BuildColumn(lines: seq<Line>, f: Field, rowOffset: nat) returns (r: Result<seq<Cell>, ScanError>)
    requires lines != []
    ensures r.Ok? ==> ColumnOf(r.value, lines, f)
    ensures r.Err? ==> Blames(r.error, lines, f, rowOffset)
  {
    var slices := SliceColumn(lines, f, rowOffset);
    if slices.Err? {
      return Err(slices.error);
    }
    if !Supported(f) {
      return Err(BadColumn(f.name));
    }
    r := CoerceColumn(slices.value, f, rowOffset);
    forall i | 0 <= i < |lines| ensures CellOf(lines[i], f) == FromSlice(slices.value[i], f) {
      SliceIsCell(lines[i], f, slices.value[i]);
    }
  }

  /** The cell of a line from its slice. */
  function FromSlice(s: Option<string>, f: Field): Result<Cell, CellError>
    requires Supported(f)
  {
    match CellFrom(s, f.dataType.value)
    case None => Err(BadValue)
    case Some(c) => Ok(c)
  }

  lemma SliceIsCell(line: Line, f: Field, s: Option<string>)
    requires Supported(f) && SliceOf(line, f) == Ok(s)
    ensures CellOf(line, f) == FromSlice(s, f)
  {}

  method CoerceColumn(slices: seq<Option<string>>, f: Field, rowOffset: nat) returns (r: Result<seq<Cell>, ScanError>)
    requires Supported(f)
    ensures r.Ok? ==> |r.value| == |slices|
    ensures r.Ok? ==> forall i :: 0 <= i < |slices| ==> FromSlice(slices[i], f) == Ok(r.value[i])
    ensures r.Err? ==> exists i | 0 <= i < |slices| ::
                         && FromSlice(slices[i], f) == Err(BadValue)
                         && (forall k :: 0 <= k < i ==> FromSlice(slices[k], f).Ok?)
                         && r.error == BadRow(rowOffset + i, f.name, BadValue)
  {
    var cells: seq<Cell> := [];
    for i := 0 to |slices|
      invariant |cells| == i
      invariant forall k :: 0 <= k < i ==> FromSlice(slices[k], f) == Ok(cells[k])
    {
      var cell := CellFrom(slices[i], f.dataType.value);
      if cell.None? {
        assert FromSlice(slices[i], f) == Err(BadValue);
        return Err(BadRow(rowOffset + i, f.name, BadValue));
      }
      cells := cells + [cell.value];
    }
    return Ok(cells);
  }

  type Batch = seq<seq<Cell>>

  predicate WellFormed(batch: Batch) {
    batch != [] && forall c :: 0 <= c < |batch| ==> |batch[c]| == |batch[0]|
  }

  function Rows(batch: Batch): seq<Row>
    requires WellFormed(batch)
  {
    seq(|batch[0]|, i requires 0 <= i < |batch[0]| =>
      seq(|batch|, c requires 0 <= c < |batch| => batch[c][i]))
  }

  predicate Selects(projection: Option<seq<nat>>, fields: seq<Field>) {
    projection.Some? ==> forall c :: 0 <= c < |projection.value| ==> projection.value[c] < |fields|
  }

  function Selected(fields: seq<Field>, projection: Option<seq<nat>>): seq<Field>
    requires Selects(projection, fields)
  {
    match projection
    case None => fields
    case Some(p) => seq(|p|, c requires 0 <= c < |p| => fields[p[c]])
  }

  ghost predicate AreColumns(batch: Batch, lines: seq<Line>, columns: seq<Field>) {
    |batch| <= |columns| && forall c :: 0 <= c < |batch| ==> ColumnOf(batch[c], lines, columns[c])
  }

  /** A batch of all the lines' rows; one bad cell loses the batch, and so does an empty selection. */
  method BuildBatch(lines: seq<Line>, columns: seq<Field>, rowOffset: nat) returns (r: Result<Batch, ScanError>)
    requires lines != []
    ensures r.Ok? <==> AllReadable(lines, columns)
    ensures r.Ok? ==> WellFormed(r.value) && Rows(r.value) == RowsOf(lines, columns)
    ensures r == Err(NoColumns) <==> columns == []
    ensures r.Err? && columns != [] ==> exists c :: BlamesFirst(r.error, lines, columns, rowOffset, c)
  {
    var batch: Batch := [];
    for c := 0 to |columns|
      invariant |batch| == c && AreColumns(batch, lines, columns)
    {
      var column := BuildColumn(lines, columns[c], rowOffset);
      if column.Err? {
        BlamedLinesDoNotParse(column.error, lines, columns, c, rowOffset);
        EarlierColumnsAreFilled(batch, lines, columns);
        assert BlamesFirst(column.error, lines, columns, rowOffset, c);
        return Err(column.error);
      }
      batch := batch + [column.value];
    }
    if columns == [] {
      NothingIsReadable(lines);
      return Err(NoColumns);
    }
    ColumnsMakeRows(batch, lines, columns);
    return Ok(batch);
  }

  lemma ColumnsMakeRows(batch: Batch, lines: seq<Line>, columns: seq<Field>)
    requires columns != [] && |batch| == |columns| && AreColumns(batch, lines, columns)
    ensures AllReadable(lines, columns) && WellFormed(batch) && Rows(batch) == RowsOf(lines, columns)
  {
    forall i | 0 <= i < |lines| ensures Parses(lines[i], columns) {
      forall c | 0 <= c < |columns| ensures CellOf(lines[i], columns[c]).Ok? {
        assert ColumnOf(batch[c], lines, columns[c]);
      }
    }
    assert ColumnOf(batch[0], lines, columns[0]);
    var rows := Rows(batch);
    forall i | 0 <= i < |lines| ensures rows[i] == RowOf(lines[i], columns) {
      forall c | 0 <= c < |columns| ensures rows[i][c] == RowOf(lines[i], columns)[c] {
        assert ColumnOf(batch[c], lines, columns[c]);
      }
    }
  }

  lemma EarlierColumnsAreFilled(batch: Batch, lines: seq<Line>, columns: seq<Field>)
    requires AreColumns(batch, lines, columns)
    ensures forall d :: 0 <= d < |batch| ==> Filled(lines, columns[d], |lines|)
  {
    forall d | 0 <= d < |batch| ensures Filled(lines, columns[d], |lines|) {
      assert ColumnOf(batch[d], lines, columns[d]);
    }
  }

  lemma NothingIsReadable(lines: seq<Line>)
    requires lines != []
    ensures !AllReadable(lines, [])
  {
    assert !Readable(lines[0], []);
  }

  lemma BlamedLinesDoNotParse(e: ScanError, lines: seq<Line>, columns: seq<Field>, c: nat, offset: nat)
    requires c < |columns| && lines != [] && Blames(e, lines, columns[c], offset)
    ensures !AllReadable(lines, columns)
  {
    var bad := if e.BadRow? then e.row - offset else 0;
    assert CellOf(lines[bad], columns[c]).Err?;
    assert !Parses(lines[bad], columns);
  }

  // ---------- reading ----------

  /** A read of the file: a line with its line break, or a failure. */
  datatype Read = Raw(bytes: Line) | Unreadable

  predicate IsBreak(b: Byte) { b.ch == '\r' || b.ch == '\n' }

  function Strip(b: Line): Line {
    if b != [] && IsBreak(b[|b| - 1]) then Strip(b[..|b| - 1]) else b
  }

  /** What a read adds to the lines of a scan: blank lines are skipped. */
  function LineOf(read: Read): seq<Line> {
    if read.Unreadable? || Strip(read.bytes) == [] then [] else [Strip(read.bytes)]
  }

  /** The non-blank lines from position `from` up to position `to`. */
  function Lines(file: seq<Read>, from: nat, to: nat): seq<Line>
    requires from <= to <= |file|
  {
    if from == to then [] else Lines(file, from, to - 1) + LineOf(file[to - 1])
  }

  datatype Stop = Full | EndOfFile | Failed

  /** How many of `target` non-blank lines there are to read from position `pos` on, where that stops and why. */
  datatype Taken = Taken(count: nat, pos: nat, stop: Stop)

  function Take(file: seq<Read>, pos: nat, target: nat): (t: Taken)
    requires pos <= |file|
    ensures pos + t.count <= t.pos <= |file| && t.count <= target && (t.stop.Full? <==> t.count == target)
    decreases |file| - pos
  {
    if target == 0 then Taken(0, pos, Full)
    else if pos == |file| then Taken(0, pos, EndOfFile)
    else if file[pos].Unreadable? then Taken(0, pos + 1, Failed)
    else if LineOf(file[pos]) == [] then Take(file, pos + 1, target)
    else
      Later(1, Take(file, pos + 1, target - 1))
  }

  function Later(before: nat, t: Taken): Taken { t.(count := before + t.count) }

  /** `lines` are those found from `from` on, with `target` in mind, when the next read is `pos`. */
  ghost predicate Reading(file: seq<Read>, from: nat, target: nat, pos: nat, lines: seq<Line>) {
    && from <= pos <= |file| && |lines| <= target && lines == Lines(file, from, pos)
    && Take(file, from, target) == Later(|lines|, Take(file, pos, target - |lines|))
  }

  lemma ReadingStep(file: seq<Read>, from: nat, target: nat, pos: nat, lines: seq<Line>)
    requires Reading(file, from, target, pos, lines) && pos < |file| && |lines| < target
    ensures match file[pos]
            case Unreadable =>
              lines == Lines(file, from, pos + 1) && Take(file, from, target) == Taken(|lines|, pos + 1, Failed)
            case Raw(bytes) =>
              Reading(file, from, target, pos + 1, if Strip(bytes) == [] then lines else lines + [Strip(bytes)])
  {
    LinesGrow(file, from, pos);
    match file[pos]
    case Unreadable => TakeOne(file, pos, target - |lines|);
    case Raw(bytes) =>
      if Strip(bytes) == [] {
        ReadingPasses(file, from, target, pos, lines);
      } else {
        ReadingKeeps(file, from, target, pos, lines, Strip(bytes));
      }
  }

  lemma ReadingPasses(file: seq<Read>, from: nat, target: nat, pos: nat, lines: seq<Line>)
    requires Reading(file, from, target, pos, lines) && pos < |file| && |lines| < target
    requires file[pos].Raw? && Strip(file[pos].bytes) == [] && Lines(file, from, pos + 1) == lines
    ensures Reading(file, from, target, pos + 1, lines)
  {
    TakeOne(file, pos, target - |lines|);
  }

  lemma ReadingKeeps(file: seq<Read>, from: nat, target: nat, pos: nat, lines: seq<Line>, line: Line)
    requires Reading(file, from, target, pos, lines) && pos < |file| && |lines| < target
    requires file[pos].Raw? && Strip(file[pos].bytes) == line != [] && Lines(file, from, pos + 1) == lines + [line]
    ensures Reading(file, from, target, pos + 1, lines + [line])
  {
    var left := target - |lines| - 1;
    TakeOne(file, pos, target - |lines|);
    LaterTwice(|lines|, 1, Take(file, pos + 1, left));
    assert target - |lines + [line]| == left;
  }

  lemma LaterTwice(a: nat, b: nat, t: Taken)
    ensures Later(a, Later(b, t)) == Later(a + b, t)
  {}

  lemma TakeOne(file: seq<Read>, pos: nat, left: nat)
    requires pos < |file| && 0 < left
    ensures match file[pos]
            case Unreadable => Take(file, pos, left) == Taken(0, pos + 1, Failed)
            case Raw(bytes) =>
              Take(file, pos, left) ==
              if Strip(bytes) == [] then Take(file, pos + 1, left) else Later(1, Take(file, pos + 1, left - 1))
  {}

  lemma LinesGrow(file: seq<Read>, from: nat, pos: nat)
    requires from <= pos < |file|
    ensures Lines(file, from, pos + 1) == Lines(file, from, pos) + LineOf(file[pos])
    ensures LineOf(file[pos]) == [] ==> Lines(file, from, pos + 1) == Lines(file, from, pos)
  {
    assert Lines(file, from, pos) + [] == Lines(file, from, pos);
  }

  /** What a batch of `lines` comes to, after a reading that ended by `stop`. */
  ghost predicate Outcome(
      next: Option<Result<Batch, ScanError>>, lines: seq<Line>, columns: seq<Field>, stop: Stop, rowOffset: nat)
  {
    if stop.Failed? then next == Some(Err(ReadFailed))
    else if lines == [] then next.None?
    else if AllReadable(lines, columns) then
      next.Some? && next.value.Ok? && WellFormed(next.value.value) && Rows(next.value.value) == RowsOf(lines, columns)
    else
      && next.Some? && next.value.Err?
      && if columns == [] then next.value.error == NoColumns
         else exists c :: BlamesFirst(next.value.error, lines, columns, rowOffset, c)
  }

  /** How many rows the limit still allows. */
  function Rest(limit: Option<usize>, emitted: nat): nat {
    match limit case Some(l) => SatSub(l, emitted) case None => USIZE_MAX
  }

  /** The fields a scan updates. */
  datatype Standing = Standing(pos: nat, rowsEmitted: nat, done: bool)

  /** One call for a batch: what it returns and where it leaves a scan that may still emit `remaining` rows. */
  ghost predicate Advanced(
      next: Option<Result<Batch, ScanError>>, before: Standing, after: Standing,
      file: seq<Read>, columns: seq<Field>, remaining: nat)
  {
    before.pos <= |file| &&
    if before.done || remaining == 0 then next.None? && after == before.(done := true)
    else
      var t := Take(file, before.pos, Min(remaining, BATCH_SIZE));
      var lines := Lines(file, before.pos, t.pos);
      var emitted := next.Some? && next.value.Ok?;
      && after == Standing(t.pos, before.rowsEmitted + (if emitted then |lines| else 0), !(t.stop.Full? && emitted))
      && |lines| == t.count
      && Outcome(next, lines, columns, t.stop, before.rowsEmitted)
  }

  class StreamState {
    const file: seq<Read>
    const columns: seq<Field>
    const limit: Option<usize>
    var pos: nat
    var rowsEmitted: nat
    var done: bool

    constructor (file: seq<Read>, fields: seq<Field>, projection: Option<seq<nat>>, limit: Option<usize>)
      requires Selects(projection, fields)
      ensures this.file == file && columns == Selected(fields, projection) && this.limit == limit
      ensures pos == 0 && rowsEmitted == 0 && !done
    {
      this.file, this.columns, this.limit := file, Selected(fields, projection), limit;
      pos, rowsEmitted, done := 0, 0, false;
    }

    predicate Valid()
      reads this
    {
      pos <= |file|
    }

    function Remaining(): nat
      reads this
    {
      Rest(limit, rowsEmitted)
    }

    /** The lines of one batch; the end of the file and a failure end the stream. */
    method ReadLines(target: nat) returns (lines: seq<Line>, failed: bool)
      requires Valid() && !done
      modifies this`pos, this`done
      ensures Valid()
      ensures failed ==> done
      ensures old(pos) <= pos && lines == Lines(file, old(pos), pos)
      ensures Take(file, old(pos), target) ==
              Taken(|lines|, pos, if failed then Failed else if done then EndOfFile else Full)
    {
      lines, failed := [], false;
      while |lines| < target
        invariant !done && Reading(file, old(pos), target, pos, lines)
        decreases |file| - pos
      {
        if pos == |file| {
          done := true;
          return;
        }
        ReadingStep(file, old(pos), target, pos, lines);
        var read := file[pos];
        pos := pos + 1;
        if read.Unreadable? {
          done, failed := true, true;
          return;
        }
        var line := Strip(read.bytes);
        if line == [] {
          continue;
        }
        lines := lines + [line];
      }
    }

    method NextBatch() returns (next: Option<Result<Batch, ScanError>>)
      requires Valid()
      modifies this
      ensures Valid()
      ensures Advanced(next, Standing(old(pos), old(rowsEmitted), old(done)), Standing(pos, rowsEmitted, done),
                       file, columns, old(Remaining()))
    {
      if done {
        return None;
      }
      var remaining := Remaining();
      if remaining == 0 {
        done := true;
        return None;
      }
      var target := Min(remaining, BATCH_SIZE);
      var lines, failed := ReadLines(target);
      if failed {
        return Some(Err(ReadFailed));
      }
      if lines == [] {
        return None;
      }
      var batch := BuildBatch(lines, columns, rowsEmitted);
      if batch.Ok? {
        rowsEmitted := rowsEmitted + |lines|;
      } else {
        done := true;
      }
      return Some(batch);
    }
  }
}
