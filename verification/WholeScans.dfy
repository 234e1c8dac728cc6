/** A scan of a fixed-width file, read to its end in batches, against the one-shot parse of its window. */
module WholeScans {
  import opened Common
  import opened FixedWidth

  // ---------- the one-shot parse ----------

  /** The reads a scan may get to, and the lines in them: the non-blank ones, up to the limit. */
  function Window(file: seq<Read>, limit: Option<usize>): Taken { Take(file, 0, Bound(file, limit)) }

  function WindowLines(file: seq<Read>, limit: Option<usize>): seq<Line> { Lines(file, 0, Window(file, limit).pos) }

  /** The limit, or more than the file has. */
  function Bound(file: seq<Read>, limit: Option<usize>): nat {
    match limit case Some(l) => l case None => |file| + BATCH_SIZE
  }

  /** The first line from `k` on that has no row of its own. */
  ghost function FirstBad(lines: seq<Line>, columns: seq<Field>, k: nat): (bad: nat)
    requires k <= |lines|
    ensures k <= bad <= |lines| && (bad < |lines| ==> !Readable(lines[bad], columns))
    ensures forall i :: k <= i < bad ==> Readable(lines[i], columns)
    decreases |lines| - k
  {
    if k < |lines| && Readable(lines[k], columns) then FirstBad(lines, columns, k + 1) else k
  }

  /** Every line of the window has a row, and no read of it failed. */
  ghost predicate Clean(file: seq<Read>, limit: Option<usize>, columns: seq<Field>) {
    AllReadable(WindowLines(file, limit), columns) && !Window(file, limit).stop.Failed?
  }

  /** How many of `n` lines are in whole batches, the last one cut off. */
  function InWholeBatches(n: nat): (r: nat)
    ensures r <= n
  {
    if n < BATCH_SIZE then 0 else BATCH_SIZE + InWholeBatches(n - BATCH_SIZE)
  }

  /** How many lines come out as rows: all of them, or the whole batches before the first bad line. */
  ghost function Emitted(file: seq<Read>, limit: Option<usize>, columns: seq<Field>): (n: nat)
    ensures n <= |WindowLines(file, limit)| && AllParse(WindowLines(file, limit)[..n], columns)
  {
    var lines := WindowLines(file, limit);
    var bad := FirstBad(lines, columns, 0);
    var n := if Clean(file, limit, columns) then |lines| else InWholeBatches(bad);
    assert forall i :: 0 <= i < n ==> Readable(lines[i], columns);
    n
  }

  function AllRows(batches: seq<Batch>): seq<Row>
    requires AllWellFormed(batches)
  {
    if batches == [] then [] else AllRows(batches[..|batches| - 1]) + Rows(batches[|batches| - 1])
  }

  /** Batches of rows of one width, none above the batch size. */
  predicate AllWellFormed(batches: seq<Batch>) {
    forall b :: 0 <= b < |batches| ==> WellFormed(batches[b]) && |batches[b][0]| <= BATCH_SIZE
  }

  /** Reading `a + b` lines is reading `a` and, if that many were found, `b` more from there. */
  lemma {:induction false} TakeSplit(file: seq<Read>, pos: nat, a: nat, b: nat)
    requires pos <= |file|
    ensures var t, whole := Take(file, pos, a), Take(file, pos, a + b);
            whole == if t.stop.Full? then Later(a, Take(file, t.pos, b)) else t
    decreases |file| - pos
  {
    if a > 0 && pos < |file| && file[pos].Raw? {
      TakeSplit(file, pos + 1, if LineOf(file[pos]) == [] then a else a - 1, b);
    }
  }

  lemma {:induction false} LinesSplit(file: seq<Read>, from: nat, mid: nat, end: nat)
    requires from <= mid <= end <= |file|
    ensures Lines(file, from, end) == Lines(file, from, mid) + Lines(file, mid, end)
    decreases end
  {
    if mid < end {
      LinesSplit(file, from, mid, end - 1);
      Regroup(Lines(file, from, mid), Lines(file, mid, end - 1), LineOf(file[end - 1]));
    }
  }

  lemma {:induction false} TakenLines(file: seq<Read>, pos: nat, target: nat)
    requires pos <= |file|
    ensures |Lines(file, pos, Take(file, pos, target).pos)| == Take(file, pos, target).count
    decreases |file| - pos
  {
    if target > 0 && pos < |file| {
      assert Lines(file, pos, pos) + LineOf(file[pos]) == Lines(file, pos, pos + 1);
      if file[pos].Raw? {
        var left := if LineOf(file[pos]) == [] then target else target - 1;
        TakenLines(file, pos + 1, left);
        LinesSplit(file, pos, pos + 1, Take(file, pos + 1, left).pos);
      }
    }
  }

  /** Where a scan stands after `n` rows: behind the first `n` lines of its window. */
  ghost predicate Stands(file: seq<Read>, limit: Option<usize>, n: nat, pos: nat) {
    Take(file, 0, n) == Taken(n, pos, Full) && n <= Bound(file, limit)
  }

  /** After `k` batches: `k` full ones, or all that the limit allows. */
  ghost predicate AtBoundary(limit: Option<usize>, k: nat, n: nat) {
    n == k * BATCH_SIZE || Target(limit, n) == 0
  }

  ghost function Target(limit: Option<usize>, n: nat): nat { Min(Rest(limit, n), BATCH_SIZE) }

  lemma BoundaryStep(limit: Option<usize>, k: nat, n: nat)
    requires AtBoundary(limit, k, n) && Target(limit, n) > 0
    ensures n == k * BATCH_SIZE && AtBoundary(limit, k + 1, n + Target(limit, n))
  {}

  lemma {:induction false} WholeBatches(bad: nat, k: nat)
    requires k * BATCH_SIZE <= bad < (k + 1) * BATCH_SIZE
    ensures InWholeBatches(bad) == k * BATCH_SIZE
    decreases k
  {
    if k > 0 {
      WholeBatches(bad - BATCH_SIZE, k - 1);
    }
  }

  /** The rest of the window, seen from where a scan stands. */
  lemma RestOfWindow(file: seq<Read>, limit: Option<usize>, n: nat, pos: nat)
    requires Stands(file, limit, n, pos)
    ensures pos <= |file| && n <= pos
    ensures Window(file, limit) == Later(n, Take(file, pos, Bound(file, limit) - n))
    ensures pos <= Window(file, limit).pos && Target(limit, n) <= Bound(file, limit) - n
  {
    TakeSplit(file, 0, n, Bound(file, limit) - n);
  }

  /** The next batch takes the next lines of the window, and stops where the window does. */
  lemma NextLines(file: seq<Read>, limit: Option<usize>, n: nat, pos: nat)
    requires Stands(file, limit, n, pos)
    ensures pos <= |file|
    ensures var t := Take(file, pos, Target(limit, n));
            && t.pos <= Window(file, limit).pos
            && if t.stop.Full? then Stands(file, limit, n + t.count, t.pos) else Window(file, limit) == Later(n, t)
  {
    RestOfWindow(file, limit, n, pos);
    var target := Target(limit, n);
    TakeSplit(file, pos, target, Bound(file, limit) - n - target);
    TakeSplit(file, 0, n, target);
  }

  lemma LimitReached(file: seq<Read>, limit: Option<usize>, n: nat, pos: nat)
    requires Stands(file, limit, n, pos) && Target(limit, n) == 0
    ensures Window(file, limit) == Taken(n, pos, Full)
  {
    RestOfWindow(file, limit, n, pos);
  }

  /** A scan stands behind as many lines as it has emitted rows. */
  lemma LinesBehind(file: seq<Read>, limit: Option<usize>, n: nat, pos: nat)
    requires Stands(file, limit, n, pos)
    ensures pos <= Window(file, limit).pos && |Lines(file, 0, pos)| == n
  {
    RestOfWindow(file, limit, n, pos);
    TakenLines(file, 0, n);
  }

  /** The window's lines: those behind the scan, those of the next batch, and the rest. */
  lemma WindowParts(file: seq<Read>, limit: Option<usize>, n: nat, pos: nat)
    returns (behind: seq<Line>, next: seq<Line>, rest: seq<Line>)
    requires Stands(file, limit, n, pos)
    ensures pos <= |file|
    ensures var t := Take(file, pos, Target(limit, n));
            && behind == Lines(file, 0, pos) && |behind| == n
            && next == Lines(file, pos, t.pos) && |next| == t.count
            && (!t.stop.Full? ==> rest == [])
    ensures WindowLines(file, limit) == behind + next + rest
  {
    LinesBehind(file, limit, n, pos);
    NextLines(file, limit, n, pos);
    TakenLines(file, pos, Target(limit, n));
    var t, w := Take(file, pos, Target(limit, n)), Window(file, limit);
    behind, next, rest := Lines(file, 0, pos), Lines(file, pos, t.pos), Lines(file, t.pos, w.pos);
    LinesSplit(file, 0, pos, t.pos);
    LinesSplit(file, 0, t.pos, w.pos);
  }

  lemma FirstBadWithin(columns: seq<Field>, behind: seq<Line>, next: seq<Line>, rest: seq<Line>)
    requires AllReadable(behind, columns)
    ensures var bad := FirstBad(behind + next + rest, columns, 0);
            && |behind| <= bad
            && (!AllReadable(next, columns) ==> bad < |behind + next|)
  {
    var lines := behind + next + rest;
    forall i | 0 <= i < |behind| ensures Readable(lines[i], columns) {
      assert lines[i] == behind[i];
    }
    if !AllReadable(next, columns) {
      var i :| 0 <= i < |next| && !Readable(next[i], columns);
      assert lines[|behind| + i] == next[i];
    }
  }

  /** A bad line in the next batch, or an early end of it, leaves the `k` batches behind it whole. */
  lemma WholeBatchesBehind(columns: seq<Field>, behind: seq<Line>, next: seq<Line>, rest: seq<Line>, k: nat)
    requires AllReadable(behind, columns) && |behind| == k * BATCH_SIZE
    requires |next| <= BATCH_SIZE && (AllReadable(next, columns) ==> rest == [] && |next| < BATCH_SIZE)
    ensures var bad := FirstBad(behind + next + rest, columns, 0); InWholeBatches(bad) == |behind|
  {
    FirstBadWithin(columns, behind, next, rest);
    WholeBatches(FirstBad(behind + next + rest, columns, 0), k);
  }

  lemma BadLineIsUnclean(columns: seq<Field>, behind: seq<Line>, next: seq<Line>, rest: seq<Line>)
    requires !AllReadable(next, columns)
    ensures !AllReadable(behind + next + rest, columns)
  {
    var i :| 0 <= i < |next| && !Readable(next[i], columns);
    assert (behind + next + rest)[|behind| + i] == next[i];
  }

  lemma FailureIsUnclean(file: seq<Read>, limit: Option<usize>, columns: seq<Field>, n: nat, pos: nat)
    requires Stands(file, limit, n, pos) && pos <= |file|
    requires var t := Take(file, pos, Target(limit, n));
             t.stop.Failed? || !AllReadable(Lines(file, pos, t.pos), columns)
    ensures !Clean(file, limit, columns)
  {
    NextLines(file, limit, n, pos);
    if !Take(file, pos, Target(limit, n)).stop.Failed? {
      var behind, next, rest := WindowParts(file, limit, n, pos);
      BadLineIsUnclean(columns, behind, next, rest);
    }
  }

  /** A batch that fails leaves exactly the whole batches before the first bad line. */
  lemma FailureEndsTheScan(file: seq<Read>, limit: Option<usize>, columns: seq<Field>, k: nat, n: nat, pos: nat)
    requires Stands(file, limit, n, pos) && pos <= |file| && AllReadable(Lines(file, 0, pos), columns)
    requires AtBoundary(limit, k, n) && Target(limit, n) > 0
    requires var t := Take(file, pos, Target(limit, n));
             t.stop.Failed? || !AllReadable(Lines(file, pos, t.pos), columns)
    ensures !Clean(file, limit, columns) && Emitted(file, limit, columns) == n
    ensures WindowLines(file, limit)[..n] == Lines(file, 0, pos)
  {
    FailureIsUnclean(file, limit, columns, n, pos);
    var behind, next, rest := WindowParts(file, limit, n, pos);
    BoundaryStep(limit, k, n);
    WholeBatchesBehind(columns, behind, next, rest, k);
  }

  // ---------- reading a scan to its end ----------

  /** The batches are the rows of the lines before `pos`. */
  ghost predicate Emits(file: seq<Read>, columns: seq<Field>, batches: seq<Batch>, pos: nat) {
    && pos <= |file| && AllReadable(Lines(file, 0, pos), columns)
    && AllWellFormed(batches) && AllRows(batches) == RowsOf(Lines(file, 0, pos), columns)
  }

  /** An active scan has emitted the rows of the lines behind it. */
  ghost predicate Ongoing(
      file: seq<Read>, limit: Option<usize>, columns: seq<Field>, batches: seq<Batch>, n: nat, pos: nat)
  {
    Stands(file, limit, n, pos) && AtBoundary(limit, |batches|, n) && Emits(file, columns, batches, pos)
  }

  /** A finished scan has emitted the rows of its whole window. */
  ghost predicate Finished(file: seq<Read>, limit: Option<usize>, columns: seq<Field>, batches: seq<Batch>) {
    && Clean(file, limit, columns)
    && AllWellFormed(batches) && AllRows(batches) == RowsOf(WindowLines(file, limit), columns)
  }

  /** The window has no lines from `pos` on, and no read of it failed. */
  ghost predicate EndsAt(file: seq<Read>, limit: Option<usize>, pos: nat) {
    pos <= |file| && WindowLines(file, limit) == Lines(file, 0, pos) && !Window(file, limit).stop.Failed?
  }

  lemma EmitsAll(file: seq<Read>, limit: Option<usize>, columns: seq<Field>, batches: seq<Batch>, pos: nat)
    requires Emits(file, columns, batches, pos) && EndsAt(file, limit, pos)
    ensures Finished(file, limit, columns, batches)
  {}

  lemma RowsAppend(behind: seq<Line>, next: seq<Line>, columns: seq<Field>)
    requires AllReadable(behind, columns) && AllReadable(next, columns)
    ensures AllReadable(behind + next, columns)
    ensures RowsOf(behind + next, columns) == RowsOf(behind, columns) + RowsOf(next, columns)
  {}

  lemma BatchesAppend(batches: seq<Batch>, batch: Batch)
    requires AllWellFormed(batches) && WellFormed(batch) && |batch[0]| <= BATCH_SIZE
    ensures AllWellFormed(batches + [batch])
    ensures AllRows(batches + [batch]) == AllRows(batches) + Rows(batch)
  {
    assert (batches + [batch])[..|batches|] == batches;
  }

  /** One more batch holds the rows of the lines up to `to`. */
  lemma RowsGrow(file: seq<Read>, columns: seq<Field>, batches: seq<Batch>, pos: nat, to: nat, batch: Batch)
    requires Emits(file, columns, batches, pos) && pos <= to <= |file| && |Lines(file, pos, to)| <= BATCH_SIZE
    requires AllReadable(Lines(file, pos, to), columns)
    requires WellFormed(batch) && Rows(batch) == RowsOf(Lines(file, pos, to), columns)
    ensures Emits(file, columns, batches + [batch], to)
  {
    assert |batch[0]| == |Rows(batch)| <= BATCH_SIZE;
    LinesSplit(file, 0, pos, to);
    RowsAppend(Lines(file, 0, pos), Lines(file, pos, to), columns);
    BatchesAppend(batches, batch);
  }

  lemma NothingRead(file: seq<Read>, pos: nat, to: nat)
    requires pos <= to <= |file| && Lines(file, pos, to) == []
    ensures Lines(file, 0, to) == Lines(file, 0, pos)
  {
    LinesSplit(file, 0, pos, to);
    assert Lines(file, 0, pos) + [] == Lines(file, 0, pos);
  }

  /** The rows of a clean window, or those of the whole batches before its first bad line. */
  ghost function ExpectedRows(file: seq<Read>, limit: Option<usize>, columns: seq<Field>): seq<Row> {
    RowsOf(WindowLines(file, limit)[..Emitted(file, limit, columns)], columns)
  }

  ghost predicate Scanned(
      done: bool, file: seq<Read>, limit: Option<usize>, columns: seq<Field>, batches: seq<Batch>, n: nat, pos: nat)
  {
    if done then Finished(file, limit, columns, batches) else Ongoing(file, limit, columns, batches, n, pos)
  }

  lemma NothingNext(
      file: seq<Read>, limit: Option<usize>, columns: seq<Field>, batches: seq<Batch>,
      before: Standing, after: Standing, next: Option<Result<Batch, ScanError>>)
    requires !before.done && next.None? && Scanned(false, file, limit, columns, batches, before.rowsEmitted, before.pos)
    requires Advanced(next, before, after, file, columns, Rest(limit, before.rowsEmitted))
    ensures after.done && Finished(file, limit, columns, batches)
  {
    var n, pos := before.rowsEmitted, before.pos;
    TakenLines(file, pos, Target(limit, n));
    if Target(limit, n) == 0 {
      LimitReached(file, limit, n, pos);
    } else {
      NextLines(file, limit, n, pos);
      NothingRead(file, pos, Take(file, pos, Target(limit, n)).pos);
    }
    EmitsAll(file, limit, columns, batches, pos);
  }

  lemma BatchNext(
      file: seq<Read>, limit: Option<usize>, columns: seq<Field>, batches: seq<Batch>,
      before: Standing, after: Standing, batch: Batch)
    requires !before.done && Ongoing(file, limit, columns, batches, before.rowsEmitted, before.pos)
    requires Advanced(Some(Ok(batch)), before, after, file, columns, Rest(limit, before.rowsEmitted))
    ensures Scanned(after.done, file, limit, columns, batches + [batch], after.rowsEmitted, after.pos)
  {
    var n, pos := before.rowsEmitted, before.pos;
    var t := Take(file, pos, Target(limit, n));
    NextLines(file, limit, n, pos);
    TakenLines(file, pos, Target(limit, n));
    RowsGrow(file, columns, batches, pos, t.pos, batch);
    if t.stop.Full? {
      BoundaryStep(limit, |batches|, n);
    } else {
      EmitsAll(file, limit, columns, batches + [batch], t.pos);
    }
  }

  lemma AfterBatch(
      file: seq<Read>, limit: Option<usize>, columns: seq<Field>, batches: seq<Batch>,
      before: Standing, after: Standing, next: Option<Result<Batch, ScanError>>)
    requires Scanned(before.done, file, limit, columns, batches, before.rowsEmitted, before.pos)
    requires Advanced(next, before, after, file, columns, Rest(limit, before.rowsEmitted))
    ensures after.done || (next.Some? && next.value.Ok?)
    ensures next.None? ==> Finished(file, limit, columns, batches)
    ensures next.Some? && next.value.Ok? ==>
              && Scanned(after.done, file, limit, columns, batches + [next.value.value], after.rowsEmitted, after.pos)
              && before.pos <= after.pos <= |file| && !before.done && (before.pos < after.pos || after.done)
    ensures next.Some? && next.value.Err? ==>
              !Clean(file, limit, columns) && AllRows(batches) == ExpectedRows(file, limit, columns)
  {
    var n, pos := before.rowsEmitted, before.pos;
    if !before.done && next.None? {
      NothingNext(file, limit, columns, batches, before, after, next);
    }
    if !before.done && next.Some? && next.value.Ok? {
      BatchNext(file, limit, columns, batches, before, after, next.value.value);
    }
    if !before.done && next.Some? && next.value.Err? {
      FailureEndsTheScan(file, limit, columns, |batches|, n, pos);
    }
  }

  /**
   * Reading a scan to its end gives, in batches of at most the batch size, the rows of the one-shot
   * parse of its window; if some line of the window is bad, one error after the whole batches before it.
   */
  method ReadAll(s: StreamState) returns (batches: seq<Batch>, error: Option<ScanError>)
    requires s.pos == 0 && s.rowsEmitted == 0 && !s.done
    modifies s
    ensures s.done && AllWellFormed(batches)
    ensures error.None? <==> Clean(s.file, s.limit, s.columns)
    ensures AllRows(batches) == ExpectedRows(s.file, s.limit, s.columns)
  {
    batches := [];
    while true
      invariant s.Valid() && Scanned(s.done, s.file, s.limit, s.columns, batches, s.rowsEmitted, s.pos)
      decreases |s.file| - s.pos, !s.done
    {
      ghost var before := Standing(s.pos, s.rowsEmitted, s.done);
      var next := s.NextBatch();
      AfterBatch(s.file, s.limit, s.columns, batches, before, Standing(s.pos, s.rowsEmitted, s.done), next);
      if next.None? {
        CleanScanEmitsAll(s.file, s.limit, s.columns);
        return batches, None;
      }
      if next.value.Err? {
        return batches, Some(next.value.error);
      }
      batches := batches + [next.value.value];
    }
  }

  lemma CleanScanEmitsAll(file: seq<Read>, limit: Option<usize>, columns: seq<Field>)
    requires Clean(file, limit, columns)
    ensures ExpectedRows(file, limit, columns) == RowsOf(WindowLines(file, limit), columns)
  {
    assert WindowLines(file, limit)[..|WindowLines(file, limit)|] == WindowLines(file, limit);
  }

  // ---------- projections ----------

  function Project(row: Row, p: seq<nat>): Row
    requires forall c :: 0 <= c < |p| ==> p[c] < |row|
  {
    seq(|p|, c requires 0 <= c < |p| => row[p[c]])
  }

  lemma ProjectedRow(line: Line, fields: seq<Field>, p: seq<nat>)
    requires Selects(Some(p), fields) && Parses(line, fields)
    ensures Parses(line, Selected(fields, Some(p)))
    ensures RowOf(line, Selected(fields, Some(p))) == Project(RowOf(line, fields), p)
  {}

  /** If all columns can be read, a scan of some of them gives the projections of the full rows. */
  lemma {:induction false} ProjectedScan(file: seq<Read>, limit: Option<usize>, fields: seq<Field>, p: seq<nat>)
    requires Selects(Some(p), fields) && p != [] && Clean(file, limit, fields)
    ensures Clean(file, limit, Selected(fields, Some(p)))
    ensures var full, some := ExpectedRows(file, limit, fields), ExpectedRows(file, limit, Selected(fields, Some(p)));
            |some| == |full| && forall i :: 0 <= i < |full| ==> |full[i]| == |fields| && some[i] == Project(full[i], p)
  {
    var lines, columns := WindowLines(file, limit), Selected(fields, Some(p));
    forall i | 0 <= i < |lines| ensures Readable(lines[i], columns) {
      assert Readable(lines[i], fields);
      ProjectedRow(lines[i], fields, p);
    }
    CleanScanEmitsAll(file, limit, fields);
    CleanScanEmitsAll(file, limit, columns);
    forall i | 0 <= i < |lines| ensures RowOf(lines[i], columns) == Project(RowOf(lines[i], fields), p) {
      ProjectedRow(lines[i], fields, p);
    }
  }

  /** A scan of no columns, such as one that only counts rows, emits none and fails unless it finds no line. */
  lemma EmptySelectionFails(file: seq<Read>, limit: Option<usize>)
    ensures ExpectedRows(file, limit, []) == []
    ensures Clean(file, limit, []) <==> WindowLines(file, limit) == [] && !Window(file, limit).stop.Failed?
  {
    if WindowLines(file, limit) != [] {
      assert !Readable(WindowLines(file, limit)[0], []);
    }
  }
}
