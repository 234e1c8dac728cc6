/** The streaming result pager: a buffered prefix of a batch stream, cut into pages on demand. */
module ResultPager {
  import opened Common

  datatype Row = Row(cells: seq<string>)

  /** What the execution stream yields, before it ends. */
  datatype StreamItem = Batch(rows: seq<Row>, bytes: nat) | StreamFailure

  /** What one wait inside a read ends with. */
  datatype Signal = StreamReady | CancelRequested | DeadlinePassed

  ghost predicate Signalled(signals: nat -> Signal, s: Signal) { exists wait :: signals(wait) == s }

  /** Nobody cancels a read, and no deadline of its own passes. */
  ghost predicate Undisturbed(cancelled: bool, timeout: Option<nat>, signals: nat -> Signal) {
    && !cancelled && timeout != Some(0) && !Signalled(signals, CancelRequested)
    && (timeout.Some? ==> !Signalled(signals, DeadlinePassed))
  }

  /** The wait ends the read; without a deadline of its own none passes. */
  predicate Interrupts(s: Signal, timed: bool) { s.CancelRequested? || (s.DeadlinePassed? && timed) }

  datatype QueryError =
    | InvalidFormat
    | QueryCancelled
    | QueryTimedOut
    | ExecutionFailed
    | ResourceLimit
    | NoSchemaBuffered

  datatype Payload = Json(rows: seq<Row>) | ArrowIpc(slices: seq<seq<Row>>)

  datatype Page = Page(index: nat, size: nat, isLast: bool, payload: Payload)

  function PayloadRows(p: Payload): seq<Row> {
    match p
    case Json(rows) => rows
    case ArrowIpc(slices) => Flatten(slices)
  }

  function PageData(p: Page): seq<Row> { PayloadRows(p.payload) }

  // ---------- the rows of a stream ----------

  predicate IsEmptyBatch(item: StreamItem) { item.Batch? && item.rows == [] }

  function BatchesOf(items: seq<StreamItem>): seq<seq<Row>> {
    if items == [] then []
    else BatchesOf(items[..|items| - 1]) +
         match items[|items| - 1]
         case Batch(rows, _) => if rows == [] then [] else [rows]
         case StreamFailure => []
  }

  function RowsOf(items: seq<StreamItem>): seq<Row> { Flatten(BatchesOf(items)) }

  function BytesOf(items: seq<StreamItem>): nat {
    if items == [] then 0
    else BytesOf(items[..|items| - 1]) +
         match items[|items| - 1]
         case Batch(rows, bytes) => if rows == [] then 0 else bytes
         case StreamFailure => 0
  }

  lemma PullOne(items: seq<StreamItem>, k: nat)
    requires k < |items|
    ensures var before, after := items[..k], items[..k + 1];
            match items[k]
            case Batch(rows, bytes) =>
              && RowsOf(after) == RowsOf(before) + rows
              && BatchesOf(after) == BatchesOf(before) + (if rows == [] then [] else [rows])
              && BytesOf(after) == BytesOf(before) + (if rows == [] then 0 else bytes)
            case StreamFailure =>
              && RowsOf(after) == RowsOf(before) && BatchesOf(after) == BatchesOf(before)
              && BytesOf(after) == BytesOf(before)
  {
    assert items[..k + 1][..k] == items[..k];
    if items[k].Batch? && items[k].rows != [] {
      FlattenLast(BatchesOf(items[..k]), items[k].rows);
    } else {
      assert BatchesOf(items[..k]) + [] == BatchesOf(items[..k]);
    }
  }

  /** The rows of the item are those from `start` to `end`; only those of a batch with rows have a size. */
  ghost predicate LaidOut(item: StreamItem, rows: seq<Row>, start: nat, end: nat, size: nat) {
    match item
    case Batch(own, bytes) =>
      start + |own| == end <= |rows| && rows[start..end] == own && size == (if own == [] then 0 else bytes)
    case StreamFailure => start == end && size == 0
  }

  ghost predicate AllLaidOut(items: seq<StreamItem>, rows: seq<Row>, starts: seq<nat>, sizes: seq<nat>) {
    && |starts| == |sizes| == |items| + 1 && starts[0] == sizes[0] == 0
    && starts[|items|] == |rows|
    && forall k :: 0 <= k < |items| ==>
         sizes[k] <= sizes[k + 1] && LaidOut(items[k], rows, starts[k], starts[k + 1], sizes[k + 1] - sizes[k])
  }

  /** The rows of a stream are those of its batches one after the other, and their bytes are added up. */
  lemma {:induction false} RowsAreLaidOut(items: seq<StreamItem>) returns (starts: seq<nat>, sizes: seq<nat>)
    ensures AllLaidOut(items, RowsOf(items), starts, sizes) && sizes[|items|] == BytesOf(items)
  {
    if items == [] {
      starts, sizes := [0], [0];
    } else {
      var k := |items| - 1;
      starts, sizes := RowsAreLaidOut(items[..k]);
      LastLaidOut(items, k);
      OneMoreLaidOut(items, k, RowsOf(items[..k]), RowsOf(items), starts, sizes, BytesOf(items));
      starts, sizes := starts + [|RowsOf(items)|], sizes + [BytesOf(items)];
    }
  }

  lemma LastLaidOut(items: seq<StreamItem>, k: nat)
    requires |items| == k + 1
    ensures BytesOf(items[..k]) <= BytesOf(items) && RowsOf(items[..k]) <= RowsOf(items)
    ensures LaidOut(items[k], RowsOf(items), |RowsOf(items[..k])|, |RowsOf(items)|,
                    BytesOf(items) - BytesOf(items[..k]))
  {
    PullOne(items, k);
    assert items[..k + 1] == items;
  }

  lemma OneMoreLaidOut(items: seq<StreamItem>, k: nat, before: seq<Row>, rows: seq<Row>, starts: seq<nat>,
                       sizes: seq<nat>, size: nat)
    requires |items| == k + 1 && before <= rows && AllLaidOut(items[..k], before, starts, sizes) && sizes[k] <= size
    requires LaidOut(items[k], rows, |before|, |rows|, size - sizes[k])
    ensures AllLaidOut(items, rows, starts + [|rows|], sizes + [size])
  {
    forall i | 0 <= i < k
      ensures sizes[i] <= sizes[i + 1] && LaidOut(items[i], rows, starts[i], starts[i + 1], sizes[i + 1] - sizes[i])
    {
      assert LaidOut(items[..k][i], before, starts[i], starts[i + 1], sizes[i + 1] - sizes[i]);
    }
  }

  lemma {:induction false} PrefixRows(items: seq<StreamItem>, j: nat, k: nat)
    requires j <= k <= |items|
    ensures RowsOf(items[..j]) <= RowsOf(items[..k])
    ensures BytesOf(items[..j]) <= BytesOf(items[..k])
    decreases k
  {
    if j < k {
      PrefixRows(items, j, k - 1);
      PullOne(items, k - 1);
    }
  }

  // ---------- cutting a window of rows ----------

  /** At most `n` elements from position `a` on. */
  function Slice<T>(s: seq<T>, a: nat, n: nat): seq<T> { s[Min(a, |s|)..Min(a + n, |s|)] }

  lemma SlicePast<T>(f: seq<T>, g: seq<T>, skip: nat, take: nat)
    requires skip >= |f|
    ensures Slice(f + g, skip, take) == Slice(g, skip - |f|, take)
  {}

  lemma SliceAcross<T>(f: seq<T>, g: seq<T>, skip: nat, take: nat)
    requires skip < |f|
    ensures var n := Min(take, |f| - skip); Slice(f + g, skip, take) == f[skip..skip + n] + Slice(g, 0, take - n)
  {}

  /** `rows` and what a walk over the batches from `i` on adds, when it still has rows to skip and to take. */
  function Walk(batches: seq<seq<Row>>, i: nat, skip: nat, take: nat, rows: seq<Row>): seq<Row>
    requires i <= |batches|
    decreases |batches| - i
  {
    if i == |batches| || take == 0 then rows
    else if skip >= |batches[i]| then Walk(batches, i + 1, skip - |batches[i]|, take, rows)
    else
      var n := Min(take, |batches[i]| - skip);
      Walk(batches, i + 1, 0, take - n, rows + batches[i][skip..skip + n])
  }

  lemma WalkSkips(batches: seq<seq<Row>>, i: nat, skip: nat, take: nat, rows: seq<Row>)
    requires i < |batches| && take > 0 && skip >= |batches[i]|
    ensures Walk(batches, i, skip, take, rows) == Walk(batches, i + 1, skip - |batches[i]|, take, rows)
  {}

  lemma WalkTakes(batches: seq<seq<Row>>, i: nat, skip: nat, take: nat, rows: seq<Row>, n: nat)
    requires i < |batches| && take > 0 && skip < |batches[i]| && n == Min(take, |batches[i]| - skip)
    ensures Walk(batches, i, skip, take, rows) == Walk(batches, i + 1, 0, take - n, rows + batches[i][skip..skip + n])
  {}

  /** However the rows are spread over batches, the walk adds the window. */
  lemma {:induction false} WalkAddsSlice(batches: seq<seq<Row>>, i: nat, skip: nat, take: nat, rows: seq<Row>)
    requires i <= |batches|
    ensures Walk(batches, i, skip, take, rows) == rows + Slice(Flatten(batches[i..]), skip, take)
    decreases |batches| - i
  {
    if i < |batches| && take > 0 {
      var batch, rest := batches[i], Flatten(batches[i + 1..]);
      assert batches[i..][1..] == batches[i + 1..];
      if skip >= |batch| {
        WalkAddsSlice(batches, i + 1, skip - |batch|, take, rows);
        SlicePast(batch, rest, skip, take);
      } else {
        var n := Min(take, |batch| - skip);
        WalkAddsSlice(batches, i + 1, 0, take - n, rows + batch[skip..skip + n]);
        SliceAcross(batch, rest, skip, take);
        Regroup(rows, batch[skip..skip + n], Slice(rest, 0, take - n));
      }
    }
  }

  lemma WalkIsSlice(batches: seq<seq<Row>>, start: nat, len: nat)
    ensures Walk(batches, 0, start, len, []) == Slice(Flatten(batches), start, len)
  {
    WalkAddsSlice(batches, 0, start, len, []);
    assert batches[0..] == batches;
  }

  /** The skip/take walk of the JSON encoder. */
  method RecordBatchesToJsonRows(batches: seq<seq<Row>>, startRow: nat, rowCount: nat) returns (rows: seq<Row>)
    ensures rows == Slice(Flatten(batches), startRow, rowCount)
  {
    WalkIsSlice(batches, startRow, rowCount);
    if rowCount == 0 {
      return [];
    }
    var remainingSkip: nat, remainingTake: nat := startRow, rowCount;
    rows := [];
    var i := 0;
    while i < |batches|
      invariant i <= |batches|
      invariant Walk(batches, i, remainingSkip, remainingTake, rows) == Walk(batches, 0, startRow, rowCount, [])
    {
      if remainingTake == 0 {
        break;
      }
      var batch := batches[i];
      if remainingSkip >= |batch| {
        remainingSkip := remainingSkip - |batch|;
      } else {
        var length := Min(remainingTake, |batch| - remainingSkip);
        rows := rows + batch[remainingSkip..remainingSkip + length];
        remainingSkip := 0;
        remainingTake := remainingTake - length;
      }
      i := i + 1;
    }
  }

  ghost predicate NoneEmpty(slices: seq<seq<Row>>) { forall k :: 0 <= k < |slices| ==> slices[k] != [] }

  /** The slices hold these rows, and none is empty. */
  ghost predicate Written(slices: seq<seq<Row>>, rows: seq<Row>) { NoneEmpty(slices) && Flatten(slices) == rows }

  lemma AppendSlice(slices: seq<seq<Row>>, rows: seq<Row>, slice: seq<Row>)
    requires Written(slices, rows) && slice != []
    ensures Written(slices + [slice], rows + slice)
  {
    FlattenLast(slices, slice);
  }

  /** The cursor walk of the Arrow IPC encoder; it writes only non-empty slices. */
  method SerializeBatches(batches: seq<seq<Row>>, start: nat, len: nat) returns (slices: seq<seq<Row>>)
    ensures Flatten(slices) == Slice(Flatten(batches), start, len)
    ensures NoneEmpty(slices)
  {
    slices := [];
    WalkIsSlice(batches, start, len);
    if len > 0 {
      var rowCursor: nat, remaining: nat := 0, len;
      var i := 0;
      ghost var written: seq<Row>, skip: nat, whole := [], start, Walk(batches, 0, start, len, []);
      while i < |batches|
        invariant i <= |batches| && Written(slices, written)
        invariant skip == SatSub(start, rowCursor) && Walk(batches, i, skip, remaining, written) == whole
      {
        if remaining == 0 {
          break;
        }
        var batch := batches[i];
        var batchEnd := rowCursor + |batch|;
        if batchEnd > start {
          var sliceOffset := SatSub(start, rowCursor);
          var sliceMax := SatSub(|batch|, sliceOffset);
          var sliceLen := Min(remaining, sliceMax);
          if sliceLen > 0 {
            var sliced := batch[sliceOffset..sliceOffset + sliceLen];
            AppendSlice(slices, written, sliced);
            WalkTakes(batches, i, skip, remaining, written, sliceLen);
            slices, written := slices + [sliced], written + sliced;
            remaining := remaining - sliceLen;
          } else {
            WalkSkips(batches, i, skip, remaining, written);
          }
          skip := 0;
        } else {
          WalkSkips(batches, i, skip, remaining, written);
          skip := skip - |batch|;
        }
        rowCursor := batchEnd;
        i := i + 1;
      }
    }
  }

  // ---------- pages ----------

  /** Rows `[index * size, (index + 1) * size)` of the result, cut at its end. */
  function PageRows(rows: seq<Row>, index: nat, size: nat): seq<Row> { Slice(rows, index * size, size) }

  /** Row `k` of a page is row `index * size + k` of the result, as far as the page and the result go. */
  lemma PageRowsByIndex(rows: seq<Row>, index: nat, size: nat)
    ensures |PageRows(rows, index, size)| == Max(0, Min(size, |rows| - index * size))
    ensures forall k :: 0 <= k < |PageRows(rows, index, size)| ==>
              PageRows(rows, index, size)[k] == rows[index * size + k]
  {}

  predicate IsLastPage(rows: seq<Row>, index: nat, size: nat) { (index + 1) * size >= |rows| }

  function SaturatedEnd(index: usize, size: usize): nat { SatMul(SatAdd(index, 1), size) }

  /** Below the word size, saturated page bounds compare like the exact ones. */
  lemma SaturatedBounds(index: usize, size: usize, total: nat)
    requires total < USIZE_MAX
    ensures Min(SaturatedEnd(index, size), total) == Min((index + 1) * size, total)
    ensures Min(SatMul(index, size), total) == Min(index * size, total)
    ensures SaturatedEnd(index, size) < USIZE_MAX ==> SaturatedEnd(index, size) == (index + 1) * size
  {
    if index == USIZE_MAX && size > 0 {
      assert SatMul(USIZE_MAX, size) == USIZE_MAX by { assert USIZE_MAX * size >= USIZE_MAX; }
      assert (index + 1) * size >= USIZE_MAX;
    }
  }

  /** The in-memory page builder. */
  function BuildQueryPage(rows: seq<Row>, index: usize, size: usize): Page {
    var start := SatMul(index, size);
    var end := Min(SatAdd(start, size), |rows|);
    Page(index, size, end >= |rows|, Json(if start >= |rows| then [] else rows[start..Max(start, end)]))
  }

  lemma BuildQueryPageIsExact(rows: seq<Row>, index: usize, size: usize)
    requires |rows| < USIZE_MAX
    ensures BuildQueryPage(rows, index, size) ==
            Page(index, size, IsLastPage(rows, index, size), Json(PageRows(rows, index, size)))
  {
    assert (index + 1) * size == index * size + size;
    SaturatedBounds(index, size, |rows|);
    var start := SatMul(index, size);
    assert Min(SatAdd(start, size), |rows|) == Min((index + 1) * size, |rows|);
    if start < |rows| {
      assert start == index * size;
      assert PageRows(rows, index, size) == rows[start..Min(start + size, |rows|)];
    } else {
      assert PageRows(rows, index, size) == [];
    }
  }

  /** The single correctness statement about a served page. */
  ghost predicate PageCorrect(source: seq<StreamItem>, index: nat, size: nat, p: Page) {
    && p.index == index && p.size == size
    && PageData(p) == PageRows(RowsOf(source), index, size)
    && p.isLast == IsLastPage(RowsOf(source), index, size)
  }

  function CanonicaliseResultFormat(raw: Option<string>): Result<string, QueryError> {
    match raw
    case None => Ok("json")
    case Some(f) => if f == "json" || f == "arrow_ipc" then Ok(f) else Err(InvalidFormat)
  }

  /** A buffer that misses rows shows a page rightly exactly if it covers it, or the page is past the end. */
  lemma ShortBuffer(flat: seq<Row>, rows: seq<Row>, first: nat, size: nat)
    requires flat <= rows && |flat| < |rows| && (size == 0 ==> first == 0)
    ensures Slice(flat, first, size) == Slice(rows, first, size) <==> first + size <= |flat| || first >= |rows|
  {
    if first + size > |flat| && first < |rows| {
      assert |Slice(rows, first, size)| > |Slice(flat, first, size)|;
    }
  }

  function Failure<T>(r: Result<T, QueryError>): Option<QueryError> { if r.Ok? then None else Some(r.error) }

  class QueryResultHandle {
    /** Everything the stream yields over its life; `pulled` of it has been taken. */
    const source: seq<StreamItem>
    const maxRows: nat
    const maxBytes: nat
    var pulled: nat
    var batches: seq<seq<Row>>
    var bufferedRows: nat
    var bufferedBytes: nat
    var terminal: bool
    /** How many stream items the buffer accounts for: all that were pulled, until a push is refused. */
    ghost var kept: nat

    /** No push has been refused: the counters only pass a limit when one is. */
    predicate WithinLimits()
      reads this
    {
      bufferedRows <= maxRows && bufferedBytes <= maxBytes
    }

    ghost predicate Valid()
      reads this
    {
      && maxRows < USIZE_MAX && maxBytes < USIZE_MAX
      && pulled <= |source|
      && (terminal ==> pulled == |source|)
      && kept <= pulled
      && batches == BatchesOf(source[..kept])
      && |RowsOf(source[..kept])| <= maxRows && BytesOf(source[..kept]) <= maxBytes
      && (WithinLimits() ==>
            kept == pulled && bufferedBytes == BytesOf(source[..kept]))
      && (!WithinLimits() ==> |RowsOf(source[..kept])| < |RowsOf(source[..pulled])|)
      && |RowsOf(source[..kept])| <= bufferedRows == Min(|RowsOf(source[..pulled])|, USIZE_MAX)
    }

    constructor (source: seq<StreamItem>, maxRows: nat, maxBytes: nat)
      requires maxRows < USIZE_MAX && maxBytes < USIZE_MAX
      ensures Valid() && WithinLimits() && pulled == 0 && !terminal
      ensures this.source == source && this.maxRows == maxRows && this.maxBytes == maxBytes
    {
      this.source, this.maxRows, this.maxBytes := source, maxRows, maxBytes;
      pulled, batches, bufferedRows, bufferedBytes, terminal := 0, [], 0, 0, false;
      kept := 0;
    }

    /** What the stream still yields does not fail, and all of it is within the limits. */
    ghost predicate Wholesome()
      reads this`pulled
    {
      && (forall k :: pulled <= k < |source| ==> source[k].Batch?)
      && |RowsOf(source)| <= maxRows && BytesOf(source) <= maxBytes
    }

    ghost predicate PulledTooMuch()
      reads this`pulled
    {
      pulled <= |source| && (|RowsOf(source[..pulled])| > maxRows || BytesOf(source[..pulled]) > maxBytes)
    }

    /** From `k` on the stream has nothing but batches without rows. */
    ghost predicate NothingMore(k: nat) {
      forall i :: k <= i < |source| ==> IsEmptyBatch(source[i])
    }

    /** Each way to fail has its cause: the caller, the clock, the stream, or the limits. */
    ghost predicate HasCause(e: QueryError, before: nat, cancelled: bool, timeout: Option<nat>, signals: nat -> Signal)
      reads this`pulled
    {
      match e
      case QueryCancelled => cancelled || Signalled(signals, CancelRequested)
      case QueryTimedOut => timeout.Some? && (timeout == Some(0) || Signalled(signals, DeadlinePassed))
      case ExecutionFailed => before < pulled <= |source| && source[pulled - 1].StreamFailure?
      case ResourceLimit => PulledTooMuch()
      case _ => false
    }

    /** Buffers the batch just pulled, unless that passes a limit. */
    method PushBatch(batch: StreamItem) returns (r: Result<(), QueryError>)
      requires batch.Batch?
      requires maxRows < USIZE_MAX && maxBytes < USIZE_MAX
      modifies this`batches, this`bufferedRows, this`bufferedBytes
      ensures batch.rows == [] ==> r == Ok(()) && batches == old(batches)
                                   && bufferedRows == old(bufferedRows) && bufferedBytes == old(bufferedBytes)
      ensures batch.rows != [] ==> bufferedRows == SatAdd(old(bufferedRows), |batch.rows|)
                                   && bufferedBytes == SatAdd(old(bufferedBytes), batch.bytes)
      ensures batch.rows != [] ==> r == (if WithinLimits() then Ok(()) else Err(ResourceLimit))
      ensures batch.rows != [] ==> batches == old(batches) + (if WithinLimits() then [batch.rows] else [])
    {
      if batch.rows == [] {
        return Ok(());
      }
      bufferedRows := SatAdd(bufferedRows, |batch.rows|);
      bufferedBytes := SatAdd(bufferedBytes, batch.bytes);
      if bufferedRows > maxRows {
        return Err(ResourceLimit);
      }
      if bufferedBytes > maxBytes {
        return Err(ResourceLimit);
      }
      batches := batches + [batch.rows];
      r := Ok(());
    }

    /** After a limit error, a pull passes on batches without rows and the end, and fails otherwise. */
    ghost predicate OnlyEmptyPass(before: nat, rowsBefore: nat, r: Result<(), QueryError>)
      reads this
    {
      && (r.Ok? ==> bufferedRows == rowsBefore && (before < pulled <= |source| ==> IsEmptyBatch(source[before])))
      && (r.Err? ==> before < |source| && !IsEmptyBatch(source[before]))
    }

    /** One `stream.next()`, handled. */
    method Pull() returns (r: Result<(), QueryError>)
      requires Valid() && !terminal
      modifies this
      ensures Valid()
      ensures pulled == Min(old(pulled) + 1, |source|) && terminal == (old(pulled) == |source|)
      ensures !old(WithinLimits()) ==> !WithinLimits() && batches == old(batches)
      ensures r.Err? ==> r.error.ExecutionFailed? || r.error.ResourceLimit?
      ensures old(WithinLimits()) ==> WithinLimits() == (r != Err(ResourceLimit)) == !PulledTooMuch()
      ensures r == Err(ExecutionFailed) <==> old(pulled) < |source| && source[old(pulled)].StreamFailure?
      ensures r == Err(ResourceLimit) ==> pulled == old(pulled) + 1
      ensures !old(WithinLimits()) ==> OnlyEmptyPass(old(pulled), old(bufferedRows), r)
    {
      if pulled == |source| {
        terminal := true;
        return Ok(());
      }
      PullOne(source, pulled);
      var item := source[pulled];
      ghost var healthy := WithinLimits();
      pulled := pulled + 1;
      if item.StreamFailure? {
        if healthy {
          kept := pulled;
        }
        return Err(ExecutionFailed);
      }
      r := PushBatch(item);
      if healthy && WithinLimits() {
        kept := pulled;
      }
    }

    /**
     * Reads until `target` rows are buffered or the stream ends; `signals` says how each wait ends.
     * However the read ends, the buffer stays a prefix of the stream, and nothing read is lost.
     */
    method ReadUntil(target: nat, cancelled: bool, timeout: Option<nat>, signals: nat -> Signal)
      returns (r: Result<(), QueryError>)
      requires Valid()
      modifies this
      ensures Valid() && pulled >= old(pulled)
      ensures cancelled ==> r == Err(QueryCancelled)
      ensures !cancelled && timeout == Some(0) ==> r == Err(QueryTimedOut)
      ensures cancelled || timeout == Some(0) ==> unchanged(this)
      ensures r.Ok? ==> terminal || bufferedRows >= target
      ensures r.Err? ==> !r.error.InvalidFormat? && !r.error.NoSchemaBuffered?
      ensures old(WithinLimits()) ==> WithinLimits() == (r != Err(ResourceLimit))
      ensures !old(WithinLimits()) ==> !WithinLimits() && batches == old(batches)
      ensures r.Err? && old(WithinLimits()) ==> HasCause(r.error, old(pulled), cancelled, timeout, signals)
      ensures !cancelled && timeout != Some(0) ==>
                Ended(Failure(r), old(pulled), old(terminal), timeout.Some?, signals)
      // the shortest prefix that reaches the target
      ensures old(WithinLimits()) ==> OnlyNeeded(old(pulled), target)
      ensures !cancelled && timeout != Some(0) && old(terminal || bufferedRows >= target) ==> r.Ok? && unchanged(this)
      // after a limit error the end is still reached over batches without rows, and nothing else
      ensures !old(WithinLimits()) && Undisturbed(cancelled, timeout, signals) ==>
                (r.Ok? <==> old(terminal || bufferedRows >= target) || NothingMore(old(pulled)))
    {
      if cancelled {
        return Err(QueryCancelled);
      }
      if timeout == Some(0) {
        return Err(QueryTimedOut);
      }
      r := PullUntil(target, timeout, signals);
      if r.Err? && old(WithinLimits()) {
        EndedHasCause(r.error, old(pulled), old(terminal), timeout, signals);
      }
    }

    lemma EndedHasCause(e: QueryError, before: nat, ended: bool, timeout: Option<nat>, signals: nat -> Signal)
      requires Ended(Some(e), before, ended, timeout.Some?, signals) && (e.ResourceLimit? ==> PulledTooMuch())
      ensures HasCause(e, before, false, timeout, signals)
    {}

    /** Nothing was pulled beyond what first reaches the target. */
    ghost predicate OnlyNeeded(before: nat, target: nat)
      reads this`pulled
    {
      before < pulled <= |source| ==> |RowsOf(source[..pulled - 1])| < target
    }

    lemma MoreIsNeeded(target: nat)
      requires Valid() && WithinLimits() && bufferedRows < target
      ensures |RowsOf(source[..pulled])| < target
    {}

    ghost predicate OnlyBatches(from: nat, to: nat) {
      to <= |source| && forall k :: from <= k < to ==> source[k].Batch?
    }

    /** How often a read has waited that began when `before` items were pulled: once for each, and for the end. */
    ghost function Waits(before: nat, ended: bool): nat
      reads this
    {
      SatSub(pulled, before) + if terminal && !ended then 1 else 0
    }

    /** No wait of the read but the last was interrupted, and what it pulled last explains how it ended. */
    ghost predicate Ended(e: Option<QueryError>, before: nat, ended: bool, timed: bool, signals: nat -> Signal)
      reads this
    {
      var waits := Waits(before, ended);
      && before <= pulled && (forall w :: 0 <= w < waits ==> !Interrupts(signals(w), timed))
      && match e
         case None => OnlyBatches(before, pulled)
         case Some(QueryCancelled) => OnlyBatches(before, pulled) && signals(waits) == CancelRequested
         case Some(QueryTimedOut) => OnlyBatches(before, pulled) && timed && signals(waits) == DeadlinePassed
         case Some(ResourceLimit) => before < pulled && OnlyBatches(before, pulled)
         case Some(ExecutionFailed) =>
           before < pulled <= |source| && OnlyBatches(before, pulled - 1) && source[pulled - 1].StreamFailure?
         case Some(_) => false
    }

    ghost predicate OnlyEmptyPulled(before: nat, rowsBefore: nat)
      reads this
    {
      bufferedRows == rowsBefore && pulled <= |source| && forall i :: before <= i < pulled ==> IsEmptyBatch(source[i])
    }

    /** After a limit error a read goes on over batches without rows, and fails on anything else. */
    ghost predicate Passed(r: Result<(), QueryError>, before: nat, rowsBefore: nat)
      reads this
    {
      && (r.Ok? ==> OnlyEmptyPulled(before, rowsBefore))
      && (r.Err? && NothingMore(before) ==> r == Err(QueryCancelled) || r == Err(QueryTimedOut))
    }

    /** One wait: for the caller, for the clock or for the stream, whichever comes first. */
    method Await(wait: nat, timed: bool, signals: nat -> Signal, ghost before: nat, ghost ended: bool,
                 ghost rowsBefore: nat, ghost target: nat)
      returns (r: Result<(), QueryError>)
      requires Valid() && !terminal
      requires !ended && Ended(None, before, ended, timed, signals) && wait == Waits(before, ended)
      requires !WithinLimits() ==> OnlyEmptyPulled(before, rowsBefore)
      requires bufferedRows < target
      modifies this
      ensures Valid() && old(pulled) <= pulled <= old(pulled) + 1
      ensures r.Ok? ==> pulled == Min(old(pulled) + 1, |source|) && terminal == (old(pulled) == |source|)
      ensures !old(WithinLimits()) ==> !WithinLimits() && batches == old(batches)
      ensures old(WithinLimits()) ==> WithinLimits() == (r != Err(ResourceLimit)) == !PulledTooMuch()
      ensures Ended(Failure(r), before, ended, timed, signals) && (r.Ok? ==> Waits(before, ended) == wait + 1)
      ensures !old(WithinLimits()) ==> Passed(r, before, rowsBefore)
      ensures old(WithinLimits()) && old(OnlyNeeded(before, target)) ==> OnlyNeeded(before, target)
    {
      if WithinLimits() {
        MoreIsNeeded(target);
      }
      if signals(wait).CancelRequested? {
        return Err(QueryCancelled);
      }
      if signals(wait).DeadlinePassed? && timed {
        return Err(QueryTimedOut);
      }
      r := Pull();
    }

    /** The loop of a read. */
    method PullUntil(target: nat, timeout: Option<nat>, signals: nat -> Signal) returns (r: Result<(), QueryError>)
      requires Valid()
      modifies this
      ensures Valid() && pulled >= old(pulled)
      ensures r.Ok? ==> terminal || bufferedRows >= target
      ensures r.Err? ==> !r.error.InvalidFormat? && !r.error.NoSchemaBuffered?
      ensures old(WithinLimits()) ==> WithinLimits() == (r != Err(ResourceLimit))
      ensures !old(WithinLimits()) ==> !WithinLimits() && batches == old(batches)
      ensures r == Err(ResourceLimit) && old(WithinLimits()) ==> PulledTooMuch()
      ensures old(WithinLimits()) ==> OnlyNeeded(old(pulled), target)
      ensures Ended(Failure(r), old(pulled), old(terminal), timeout.Some?, signals)
      ensures old(terminal || bufferedRows >= target) ==> r.Ok? && unchanged(this)
      ensures !old(WithinLimits()) ==> Passed(r, old(pulled), old(bufferedRows))
    {
      var wait := 0;
      ghost var within, before, rowsBefore := WithinLimits(), pulled, bufferedRows;
      while !terminal && bufferedRows < target
        invariant Valid() && pulled >= before && WithinLimits() == within
        invariant within ==> OnlyNeeded(before, target)
        invariant Ended(None, before, old(terminal), timeout.Some?, signals) && wait == Waits(before, old(terminal))
        invariant old(terminal || bufferedRows >= target) ==> unchanged(this)
        invariant !within ==> batches == old(batches)
        invariant !within ==> OnlyEmptyPulled(before, rowsBefore)
        decreases |source| - pulled, !terminal
      {
        r := Await(wait, timeout.Some?, signals, before, old(terminal), rowsBefore, target);
        if r.Err? {
          return;
        }
        wait := wait + 1;
      }
      r := Ok(());
    }

    /** The window over the buffer in the asked format; an Arrow payload takes its schema from a buffered batch. */
    method EncodePayload(format: string, start: nat, len: nat) returns (r: Result<Payload, QueryError>)
      ensures r.Err? ==> r.error == NoSchemaBuffered && format == "arrow_ipc" && batches == []
      ensures r.Ok? ==>
                && r.value.ArrowIpc? == (format == "arrow_ipc") && (r.value.ArrowIpc? ==> batches != [])
                && PayloadRows(r.value) ==
                   if r.value.Json? && start >= bufferedRows then [] else Slice(Flatten(batches), start, len)
    {
      if format == "arrow_ipc" {
        if batches == [] {
          return Err(NoSchemaBuffered);
        }
        var slices := SerializeBatches(batches, start, len);
        return Ok(ArrowIpc(slices));
      }
      var rows: seq<Row> := [];
      if start < bufferedRows {
        rows := RecordBatchesToJsonRows(batches, start, len);
      }
      r := Ok(Json(rows));
    }

    /** Enough has been read for the page: the stream has ended, or a row beyond the page is buffered. */
    predicate Reaches(index: usize, size: usize)
      reads this
    {
      terminal || bufferedRows >= SatAdd(SaturatedEnd(index, size), 1)
    }

    /** The page of what is buffered, once enough has been read. */
    method CutPage(index: usize, size: usize, format: string) returns (r: Result<Page, QueryError>)
      requires Valid() && Reaches(index, size)
      ensures r == Err(NoSchemaBuffered) || r.Ok?
      ensures r.Ok? <==> format != "arrow_ipc" || batches != []
      ensures r.Ok? ==> r.value.payload.ArrowIpc? == (format == "arrow_ipc")
      ensures r.Ok? ==> PageData(r.value) == PageRows(Flatten(batches), index, size)
      ensures r.Ok? && WithinLimits() ==> PageCorrect(source, index, size, r.value)
      ensures r.Ok? && |RowsOf(source)| < USIZE_MAX ==> r.value.isLast == IsLastPage(RowsOf(source), index, size)
    {
      var end := SaturatedEnd(index, size);
      var start := SatMul(index, size);
      var cut := Min(end, bufferedRows);
      var payload := EncodePayload(format, start, SatSub(cut, start));
      if payload.Err? {
        return Err(payload.error);
      }
      BufferPage(index, size);
      if |RowsOf(source)| < USIZE_MAX {
        LastMark(index, size);
      }
      if WithinLimits() {
        BufferedWindow(index, size);
      }
      r := Ok(Page(index, size, terminal && cut >= bufferedRows, payload.value));
    }

    /** Serves one page; in every run without a limit error it depends on the stream alone. */
    method PageWithFormat(index: usize, size: usize, cancelled: bool, timeout: Option<nat>,
                          format: Option<string>, signals: nat -> Signal)
      returns (r: Result<Page, QueryError>)
      requires Valid()
      modifies this
      ensures Valid() && pulled >= old(pulled)
      ensures !old(WithinLimits()) ==> !WithinLimits() && batches == old(batches)
      ensures old(WithinLimits()) ==> WithinLimits() == (r != Err(ResourceLimit))
      ensures r == Err(InvalidFormat) <==> format.Some? && format.value !in {"json", "arrow_ipc"}
      ensures r == Err(InvalidFormat) ==> unchanged(this)
      ensures r != Err(InvalidFormat) && cancelled ==> r == Err(QueryCancelled)
      ensures r != Err(InvalidFormat) && !cancelled && timeout == Some(0) ==> r == Err(QueryTimedOut)
      ensures r.Ok? && WithinLimits() ==> PageCorrect(source, index, size, r.value)
      ensures r.Ok? ==> r.value.payload.ArrowIpc? == (format == Some("arrow_ipc"))
      // an Arrow page needs a buffered batch, so a result without rows has none
      ensures r == Err(NoSchemaBuffered) && WithinLimits() ==>
                format == Some("arrow_ipc") && RowsOf(source) == []
      ensures r.Ok? && format == Some("arrow_ipc") && WithinLimits() ==> RowsOf(source) != []
      ensures r.Err? && !r.error.InvalidFormat? && !r.error.NoSchemaBuffered? && old(WithinLimits()) ==>
                HasCause(r.error, old(pulled), cancelled, timeout, signals)
      // no wait but the last was interrupted, and what was read last explains how the read ended
      ensures r != Err(InvalidFormat) && !cancelled && timeout != Some(0) ==>
                Ended(if r == Err(NoSchemaBuffered) then None else Failure(r), old(pulled), old(terminal),
                      timeout.Some?, signals)
      // an undisturbed call answers, unless it is for an Arrow page of no rows
      ensures old(WithinLimits()) && old(Wholesome()) && Undisturbed(cancelled, timeout, signals)
              && format in {None, Some("json"), Some("arrow_ipc")} ==>
                r == Err(NoSchemaBuffered) || r.Ok?
      ensures old(WithinLimits()) && old(Wholesome()) && Undisturbed(cancelled, timeout, signals)
              && format in {None, Some("json"), Some("arrow_ipc")} ==>
                (r.Ok? <==> format != Some("arrow_ipc") || RowsOf(source) != [])
      // what is counted already is answered without reading on
      ensures !cancelled && timeout != Some(0) && format in {None, Some("json"), Some("arrow_ipc")}
              && old(Reaches(index, size)) ==>
                unchanged(this) && (r.Ok? <==> format != Some("arrow_ipc") || batches != [])
      // after a limit error that is all that is answered, but for batches without rows and the end behind them
      ensures !old(WithinLimits()) && Undisturbed(cancelled, timeout, signals)
              && format in {None, Some("json"), Some("arrow_ipc")} ==>
                (r.Ok? <==> (old(Reaches(index, size)) || NothingMore(old(pulled)))
                            && (format != Some("arrow_ipc") || batches != []))
      // a page has the rows of what is buffered, which after a limit error are right exactly if the buffer covers it
      ensures r.Ok? ==> Reaches(index, size) && PageData(r.value) == PageRows(Flatten(batches), index, size)
      ensures r.Ok? && !WithinLimits() ==>
                (PageData(r.value) == PageRows(RowsOf(source), index, size)
                 <==> (index + 1) * size <= |Flatten(batches)| || index * size >= |RowsOf(source)|)
      // the counters go on counting, and so the last page is marked also where rows are missing
      ensures r.Ok? && |RowsOf(source)| < USIZE_MAX ==> r.value.isLast == IsLastPage(RowsOf(source), index, size)
    {
      var canonical := CanonicaliseResultFormat(format);
      if canonical.Err? {
        return Err(canonical.error);
      }
      var readTarget := SatAdd(SaturatedEnd(index, size), 1);
      var read := ReadUntil(readTarget, cancelled, timeout, signals);
      if read.Err? {
        if old(Wholesome()) && Undisturbed(cancelled, timeout, signals) {
          WholesomeHasNoCause(old(pulled), read.error, cancelled, timeout, signals);
        }
        return Err(read.error);
      }
      r := CutPage(index, size, canonical.value);
      if WithinLimits() {
        SomethingBuffered(index, size);
      } else {
        TruncatedWindow(index, size);
      }
    }

    /** A read that is not disturbed does not fail on a wholesome stream. */
    lemma WholesomeHasNoCause(before: nat, e: QueryError, cancelled: bool, timeout: Option<nat>, signals: nat -> Signal)
      requires pulled <= |source| && Undisturbed(cancelled, timeout, signals)
      requires forall k :: before <= k < |source| ==> source[k].Batch?
      requires |RowsOf(source)| <= maxRows && BytesOf(source) <= maxBytes
      ensures !HasCause(e, before, cancelled, timeout, signals)
    {
      WholesomeIsWithin();
    }

    lemma WholesomeIsWithin()
      requires pulled <= |source| && |RowsOf(source)| <= maxRows && BytesOf(source) <= maxBytes
      ensures !PulledTooMuch()
    {
      PrefixRows(source, pulled, |source|);
      assert source[..|source|] == source;
    }

    /** The window that is cut is the page of what is buffered. */
    lemma BufferPage(index: usize, size: usize)
      requires Valid()
      ensures var start, cut := SatMul(index, size), Min(SaturatedEnd(index, size), bufferedRows);
              && Slice(Flatten(batches), start, SatSub(cut, start)) == PageRows(Flatten(batches), index, size)
              && (start >= bufferedRows ==> PageRows(Flatten(batches), index, size) == [])
    {
      SaturatedBounds(index, size, |Flatten(batches)|);
      assert (index + 1) * size == index * size + size;
    }

    /** The counters count every row that was pulled, and so the mark is right also after a limit error. */
    lemma LastMark(index: usize, size: usize)
      requires Valid() && Reaches(index, size) && |RowsOf(source)| < USIZE_MAX
      ensures (terminal && Min(SaturatedEnd(index, size), bufferedRows) >= bufferedRows)
              == IsLastPage(RowsOf(source), index, size)
    {
      PrefixRows(source, pulled, |source|);
      assert source[..|source|] == source;
      SaturatedBounds(index, size, bufferedRows);
    }

    /** Enough has been read: the window over the buffer is the window over the whole result. */
    lemma BufferedWindow(index: usize, size: usize)
      requires Valid() && WithinLimits() && Reaches(index, size)
      ensures var start, cut := SatMul(index, size), Min(SaturatedEnd(index, size), bufferedRows);
              && Slice(Flatten(batches), start, SatSub(cut, start)) == PageRows(RowsOf(source), index, size)
              && (start >= bufferedRows ==> PageRows(RowsOf(source), index, size) == [])
              && (terminal && cut >= bufferedRows) == IsLastPage(RowsOf(source), index, size)
    {
      PrefixRows(source, pulled, |source|);
      assert source[..|source|] == source;
      SaturatedBounds(index, size, bufferedRows);
      assert (index + 1) * size == index * size + size;
    }

    /** The buffer has a batch exactly if the result has rows. */
    lemma SomethingBuffered(index: usize, size: usize)
      requires Valid() && WithinLimits() && Reaches(index, size)
      ensures batches == [] <==> RowsOf(source) == []
    {
      PrefixRows(source, pulled, |source|);
      assert source[..|source|] == source;
      BatchesHaveRows(source[..pulled]);
    }

    lemma BufferIsPrefix()
      requires Valid()
      ensures Flatten(batches) <= RowsOf(source) && |Flatten(batches)| <= bufferedRows
      ensures WithinLimits() && (terminal || bufferedRows >= USIZE_MAX) ==> Flatten(batches) == RowsOf(source)
      ensures !WithinLimits() ==> |Flatten(batches)| < |RowsOf(source)|
    {
      PrefixRows(source, kept, pulled);
      PrefixRows(source, pulled, |source|);
      assert source[..|source|] == source;
    }

    /** A first page of one row needs a second row, of which a limit of one row makes an error. */
    lemma TwoRowsAreTooMany(a: Row, b: Row)
      requires Valid() && source == OneBatch([a, b]) && maxRows == 1
      ensures WithinLimits() ==> !Reaches(0, 1)
      ensures !WithinLimits() ==> batches == [] && bufferedRows == 2
    {
      TwoRowsInOneBatch(a, b);
      assert pulled <= 1 && kept <= 1;
    }

    /** A refused batch leaves rows out of the buffer for good: a page misses some, or lies past the end. */
    lemma TruncatedWindow(index: usize, size: usize)
      requires Valid() && !WithinLimits()
      ensures PageRows(Flatten(batches), index, size) == PageRows(RowsOf(source), index, size)
              <==> (index + 1) * size <= |Flatten(batches)| || index * size >= |RowsOf(source)|
    {
      PrefixRows(source, kept, pulled);
      PrefixRows(source, pulled, |source|);
      assert source[..|source|] == source;
      assert (index + 1) * size == index * size + size;
      ShortBuffer(Flatten(batches), RowsOf(source), index * size, size);
    }
  }

  lemma {:induction false} BatchesHaveRows(items: seq<StreamItem>)
    ensures BatchesOf(items) != [] ==> RowsOf(items) != []
  {
    if items != [] {
      BatchesHaveRows(items[..|items| - 1]);
      PullOne(items, |items| - 1);
      assert items[..|items|] == items;
    }
  }

  lemma TwoRowsInOneBatch(a: Row, b: Row)
    ensures var source := OneBatch([a, b]);
            RowsOf(source) == [a, b] && RowsOf(source[..0]) == [] && source[..1] == source
  {
    var source := OneBatch([a, b]);
    PullOne(source, 0);
    assert source[..0] == [] && source[..1] == source;
    assert BatchesOf([]) == [] && RowsOf([]) == [] && [] + [a, b] == [a, b];
  }

  // ---------- runs of page calls ----------

  datatype Call = Call(index: usize, size: usize, cancelled: bool, timeout: Option<nat>,
                       format: Option<string>, signals: nat -> Signal)

  ghost predicate Answerable(c: Call) {
    Undisturbed(c.cancelled, c.timeout, c.signals) && c.format in {None, Some("json"), Some("arrow_ipc")}
  }

  lemma EarlierReplies<T>(replies: seq<T>, reply: T)
    ensures (replies + [reply])[..|replies|] == replies
    ensures forall k :: 0 <= k < |replies| ==>
              (replies + [reply])[k] == replies[k] && (replies + [reply])[..k] == replies[..k]
  {}

  method ServeCall(handle: QueryResultHandle, c: Call) returns (reply: Result<Page, QueryError>)
    requires handle.Valid()
    modifies handle
    ensures handle.Valid()
    ensures old(handle.WithinLimits()) ==> handle.WithinLimits() == (reply != Err(ResourceLimit))
    ensures reply.Ok? && handle.WithinLimits() ==> PageCorrect(handle.source, c.index, c.size, reply.value)
    ensures old(handle.Wholesome() && handle.WithinLimits()) ==> handle.Wholesome() && handle.WithinLimits()
    ensures old(handle.Wholesome() && handle.WithinLimits()) && Answerable(c) ==>
              (reply.Ok? <==> c.format != Some("arrow_ipc") || RowsOf(handle.source) != [])
  {
    reply := handle.PageWithFormat(c.index, c.size, c.cancelled, c.timeout, c.format, c.signals);
    if handle.Wholesome() {
      handle.WholesomeIsWithin();
    }
  }

  /**
   * History independence: whatever calls were served before, in any order, size and format, and
   * however they ended, an answered call holds exactly its rows, until a limit error is reported. On a
   * wholesome stream every undisturbed call is answered, unless it is for an Arrow page of no rows.
   */
  method ServePages(handle: QueryResultHandle, calls: seq<Call>) returns (replies: seq<Result<Page, QueryError>>)
    requires handle.Valid() && handle.WithinLimits()
    modifies handle
    ensures handle.Valid() && |replies| == |calls|
    ensures forall k :: 0 <= k < |calls| && replies[k].Ok? && Err(ResourceLimit) !in replies[..k] ==>
              PageCorrect(handle.source, calls[k].index, calls[k].size, replies[k].value)
    ensures old(handle.Wholesome()) ==> forall k :: 0 <= k < |calls| && Answerable(calls[k]) ==>
              (replies[k].Ok? <==> calls[k].format != Some("arrow_ipc") || RowsOf(handle.source) != [])
  {
    replies := [];
    for i := 0 to |calls|
      invariant handle.Valid() && |replies| == i
      invariant Err(ResourceLimit) !in replies ==> handle.WithinLimits()
      invariant old(handle.Wholesome()) ==> handle.Wholesome() && handle.WithinLimits()
      invariant old(handle.Wholesome()) ==> forall k :: 0 <= k < i && Answerable(calls[k]) ==>
                  (replies[k].Ok? <==> calls[k].format != Some("arrow_ipc") || RowsOf(handle.source) != [])
      invariant forall k :: 0 <= k < i && replies[k].Ok? && Err(ResourceLimit) !in replies[..k] ==>
                  PageCorrect(handle.source, calls[k].index, calls[k].size, replies[k].value)
    {
      var reply := ServeCall(handle, calls[i]);
      EarlierReplies(replies, reply);
      replies := replies + [reply];
    }
  }

  /**
   * Reads the whole stream; without a limit error it returns every row. After one it returns what is
   * buffered, which misses rows, if nothing with rows is left to read.
   */
  method CollectAll(handle: QueryResultHandle, cancelled: bool, timeout: Option<nat>, signals: nat -> Signal)
    returns (r: Result<seq<Row>, QueryError>)
    requires handle.Valid()
    modifies handle
    ensures handle.Valid()
    ensures r.Ok? ==> r.value == Flatten(handle.batches) <= RowsOf(handle.source) && |r.value| <= handle.maxRows
    ensures r.Ok? ==> (r.value == RowsOf(handle.source) <==> old(handle.WithinLimits()))
    ensures !cancelled && timeout != Some(0) ==>
              handle.Ended(Failure(r), old(handle.pulled), old(handle.terminal), timeout.Some?, signals)
    ensures r.Err? && old(handle.WithinLimits()) ==>
              handle.HasCause(r.error, old(handle.pulled), cancelled, timeout, signals)
    ensures old(handle.WithinLimits()) && old(handle.Wholesome()) && Undisturbed(cancelled, timeout, signals) ==> r.Ok?
    ensures !old(handle.WithinLimits()) && Undisturbed(cancelled, timeout, signals) ==>
              (r.Ok? <==> old(handle.terminal || handle.bufferedRows >= USIZE_MAX)
                          || handle.NothingMore(old(handle.pulled)))
  {
    var read := handle.ReadUntil(USIZE_MAX, cancelled, timeout, signals);
    if read.Err? {
      if old(handle.Wholesome()) && Undisturbed(cancelled, timeout, signals) {
        handle.WholesomeHasNoCause(old(handle.pulled), read.error, cancelled, timeout, signals);
      }
      return Err(read.error);
    }
    handle.BufferIsPrefix();
    var rows := RecordBatchesToJsonRows(handle.batches, 0, handle.bufferedRows);
    r := Ok(rows);
  }

  function OneBatch(rows: seq<Row>): seq<StreamItem> { [Batch(rows, 0)] }

  /**
   * A result of two rows under a limit of one: the first page is refused, and when it is asked for again it
   * is answered without its row, and not marked as the last one. Collecting then returns nothing.
   */
  method ShortPageIsServed(a: Row, b: Row)
    returns (first: Result<Page, QueryError>, second: Result<Page, QueryError>, all: Result<seq<Row>, QueryError>)
    ensures RowsOf(OneBatch([a, b])) == [a, b] && PageRows([a, b], 0, 1) == [a]
    ensures first == Err(ResourceLimit)
    ensures second.Ok? && PageData(second.value) == [] && !second.value.isLast
    ensures all == Ok([])
  {
    var source := OneBatch([a, b]);
    var handle := new QueryResultHandle(source, 1, 0);
    var calm: nat -> Signal := _ => StreamReady;
    TwoRowsInOneBatch(a, b);
    first := handle.PageWithFormat(0, 1, false, None, None, calm);
    handle.TwoRowsAreTooMany(a, b);
    second := handle.PageWithFormat(0, 1, false, None, None, calm);
    all := CollectAll(handle, false, None, calm);
  }

  /** The streaming pager and the in-memory page builder agree on rows and on the last page. */
  lemma {:induction false} StreamingAgreesWithInMemory(source: seq<StreamItem>, index: usize, size: usize, p: Page)
    requires PageCorrect(source, index, size, p) && |RowsOf(source)| < USIZE_MAX
    ensures var q := BuildQueryPage(RowsOf(source), index, size);
            PageData(p) == PageData(q) && p.isLast == q.isLast
  {
    BuildQueryPageIsExact(RowsOf(source), index, size);
  }

  function FirstPages(rows: seq<Row>, size: nat, n: nat): seq<Row> {
    if n == 0 then [] else FirstPages(rows, size, n - 1) + PageRows(rows, n - 1, size)
  }

  lemma SliceNext<T>(s: seq<T>, a: nat, n: nat)
    ensures s[..Min(a, |s|)] + Slice(s, a, n) == s[..Min(a + n, |s|)]
  {}

  /** Fetching pages 0, 1, 2, ... up to the one marked last yields every row once, in order. */
  lemma {:induction false} PagesPartitionTheResult(rows: seq<Row>, size: nat, n: nat)
    ensures FirstPages(rows, size, n) == rows[..Min(n * size, |rows|)]
    ensures n > 0 && IsLastPage(rows, n - 1, size) ==> FirstPages(rows, size, n) == rows
  {
    if n > 0 {
      PagesPartitionTheResult(rows, size, n - 1);
      PageGoesOn(rows, size, n - 1);
      assert rows[..|rows|] == rows;
    }
  }

  lemma PageGoesOn(rows: seq<Row>, size: nat, k: nat)
    ensures rows[..Min(k * size, |rows|)] + PageRows(rows, k, size) == rows[..Min((k + 1) * size, |rows|)]
  {
    assert (k + 1) * size == k * size + size;
    SliceNext(rows, k * size, size);
  }
}
