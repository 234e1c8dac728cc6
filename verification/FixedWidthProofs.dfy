/** Fixed-width layouts and cells: disjoint fields lose nothing, and padded numbers are read back. */
module FixedWidthProofs {
  import opened Common
  import opened Decimals
  import opened Strings
  import opened FixedWidth

  // ---------- layouts ----------

  /** The overlap test is exact for non-empty fields. */
  lemma OverlapMeansSharedByte(a: Field, b: Field)
    requires a.length > 0 && b.length > 0
    ensures SpansOverlap(a, b) <==> exists p :: InSpan(a, p) && InSpan(b, p)
  {
    if SpansOverlap(a, b) {
      var p := Max(a.start, b.start);
      assert InSpan(a, p) && InSpan(b, p);
    }
  }

  predicate InSpan(f: Field, p: nat) { f.start <= p < End(f) }

  lemma {:induction false} WidthCovers(fields: seq<Field>, i: nat)
    requires i < |fields|
    ensures End(fields[i]) <= MinRowWidth(fields)
    decreases fields
  {
    var last := |fields| - 1;
    if i < last {
      WidthCovers(fields[..last], i);
    }
  }

  lemma {:induction false} WidthAttained(fields: seq<Field>) returns (i: nat)
    requires MinRowWidth(fields) > 0
    ensures i < |fields| && End(fields[i]) == MinRowWidth(fields)
    decreases fields
  {
    i := |fields| - 1;
    if End(fields[i]) < MinRowWidth(fields) {
      i := WidthAttained(fields[..i]);
    }
  }

  /** Some field reports a line as too short exactly if the line is below the layout's minimal width. */
  lemma RaggedLines(line: Line, fields: seq<Field>)
    ensures (exists i :: 0 <= i < |fields| && CellOf(line, fields[i]) == Err(ShortRow))
            <==> |line| < MinRowWidth(fields)
  {
    if i :| 0 <= i < |fields| && CellOf(line, fields[i]) == Err(ShortRow) {
      WidthCovers(fields, i);
    }
    if |line| < MinRowWidth(fields) {
      var i := WidthAttained(fields);
      assert CellOf(line, fields[i]) == Err(ShortRow);
    }
  }

  // ---------- writing a row ----------

  function Overwrite(row: Line, start: nat, bytes: Line): (r: Line)
    requires start + |bytes| <= |row|
    ensures |r| == |row|
  {
    row[..start] + bytes + row[start + |bytes|..]
  }

  lemma OverwrittenSpan(row: Line, start: nat, bytes: Line)
    requires start + |bytes| <= |row|
    ensures Overwrite(row, start, bytes)[start..start + |bytes|] == bytes
  {}

  lemma OtherSpan(row: Line, start: nat, bytes: Line, from: nat, to: nat)
    requires start + |bytes| <= |row| && from <= to <= |row|
    requires to <= start || start + |bytes| <= from
    ensures Overwrite(row, start, bytes)[from..to] == row[from..to]
  {}

  /** Values that fill their fields' widths exactly, in a row as wide as the layout asks for. */
  ghost predicate Fills(values: seq<string>, fields: seq<Field>, width: nat) {
    && |values| == |fields|
    && forall i :: 0 <= i < |fields| ==> |Encode(values[i])| == fields[i].length && End(fields[i]) <= width
  }

  /** The row after the first `k` values are written into their fields. */
  function WriteFields(row: Line, fields: seq<Field>, values: seq<string>, k: nat): (r: Line)
    requires Fills(values, fields, |row|) && k <= |fields|
    ensures |r| == |row|
  {
    if k == 0 then row
    else Overwrite(WriteFields(row, fields, values, k - 1), fields[k - 1].start, Encode(values[k - 1]))
  }

  lemma {:induction false} WrittenFieldsStay(row: Line, fields: seq<Field>, values: seq<string>, k: nat, i: nat)
    requires Fills(values, fields, |row|) && i < k <= |fields| && Disjoint(fields)
    ensures WriteFields(row, fields, values, k)[fields[i].start..End(fields[i])] == Encode(values[i])
    decreases k
  {
    var before, f := WriteFields(row, fields, values, k - 1), fields[k - 1];
    if i == k - 1 {
      OverwrittenSpan(before, f.start, Encode(values[i]));
    } else {
      WrittenFieldsStay(row, fields, values, k - 1, i);
      assert !SpansOverlap(fields[i], fields[k - 1]);
      OtherSpan(before, f.start, Encode(values[k - 1]), fields[i].start, End(fields[i]));
    }
  }

  /** A layout without overlaps is lossless: whatever row they are written to, all values are read back. */
  lemma LayoutIsLossless(row: Line, fields: seq<Field>, values: seq<string>, i: nat)
    requires Fills(values, fields, |row|) && Disjoint(fields) && i < |fields|
    ensures Decode(WriteFields(row, fields, values, |fields|)[fields[i].start..End(fields[i])]) == Some(values[i])
  {
    WrittenFieldsStay(row, fields, values, |fields|, i);
    DecodeEncode(values[i]);
  }

  /** Overlapping fields lose values: some contents of the two are in no row at all. */
  lemma OverlapsLoseValues(a: Field, b: Field) returns (va: Line, vb: Line)
    requires SpansOverlap(a, b) && a.length > 0 && b.length > 0
    ensures |va| == a.length && |vb| == b.length
    ensures forall row: Line | End(a) <= |row| && End(b) <= |row| ::
              row[a.start..End(a)] != va || row[b.start..End(b)] != vb
  {
    va, vb := seq(a.length, _ => Byte('a', 0)), seq(b.length, _ => Byte('b', 0));
    var p := Max(a.start, b.start);
    forall row: Line | End(a) <= |row| && End(b) <= |row|
      ensures row[a.start..End(a)] != va || row[b.start..End(b)] != vb
    {
      assert row[p] == row[a.start..End(a)][p - a.start] == row[b.start..End(b)][p - b.start];
      assert va[p - a.start] != vb[p - b.start];
    }
  }

  // ---------- padded numbers ----------

  function Blanks(n: nat): string { if n == 0 then "" else Blanks(n - 1) + " " }

  lemma {:induction false} BlanksAreBlank(n: nat)
    ensures AllBlank(Blanks(n), IsWhitespace)
  {
    if n > 0 {
      BlanksAreBlank(n - 1);
    }
  }

  lemma DecimalIsParsed(n: nat)
    ensures ParseDigits(Decimal(n)) == Some(n)
    ensures IsDigit(Decimal(n)[0]) && IsDigit(Decimal(n)[|Decimal(n)| - 1])
  {
    NumberOfDecimal(n);
  }

  lemma SignedIsParsed(n: int, lo: int, hi: int)
    requires lo <= n <= hi
    ensures ParseInteger(Signed(n), lo, hi) == Some(n)
    ensures Signed(n) != "" && !IsWhitespace(Signed(n)[0]) && !IsWhitespace(Signed(n)[|Signed(n)| - 1])
  {
    var d := Decimal(if n < 0 then -n else n);
    DecimalIsParsed(if n < 0 then -n else n);
    if n < 0 {
      assert Signed(n) == "-" + d;
      assert Signed(n)[1..] == d && Signed(n)[|d|] == d[|d| - 1];
    } else {
      assert Signed(n) == d;
    }
  }

  /** An integer in range, written in decimal with any blanks around it, is read back. */
  lemma PaddedIntegersParseBack(line: Line, f: Field, n: int, left: nat, right: nat)
    requires f.dataType.Some? && f.dataType.value.Integer? && f.dataType.value.lo <= n <= f.dataType.value.hi
    requires End(f) <= |line| && line[f.start..End(f)] == Encode(Blanks(left) + Signed(n) + Blanks(right))
    ensures CellOf(line, f) == Ok(Whole(n))
  {
    DecodeEncode(Blanks(left) + Signed(n) + Blanks(right));
    SignedIsParsed(n, f.dataType.value.lo, f.dataType.value.hi);
    BlanksAreBlank(left);
    BlanksAreBlank(right);
    TrimDrops(Blanks(left), Signed(n), Blanks(right), IsWhitespace);
  }
}
