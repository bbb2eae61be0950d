/**
 * The chunked map of taskScheduler.ts. `processInChunks` and `processBatch`
 * apply a function to every item, a fixed number of items per scheduled
 * callback; the callbacks that the browser runs one after another
 * (`setTimeout`, `requestIdleCallback`) become the iterations of an outer
 * loop, and the progress callback's arguments are collected in a sequence.
 */
module TaskScheduler {
  import opened Common

  /** `Math.min(startIndex + chunkSize, total)`: where the chunk starting at `start` stops. */
  function ChunkEnd(start: int, chunkSize: int, total: int): (e: int)
    ensures e <= total
    ensures start < total && chunkSize >= 1 ==> start < e
  {
    if start + chunkSize < total then start + chunkSize else total
  }

  /**
   * The values of `processed` after each chunk, from the chunk starting at
   * `start` on: chunks follow each other while items are left.
   */
  function ChunkEnds(start: nat, chunkSize: nat, total: nat): (r: seq<nat>)
    requires chunkSize >= 1 && start <= total
    decreases total - start
  {
    var e := ChunkEnd(start, chunkSize, total);
    if e < total then [e] + ChunkEnds(e, chunkSize, total) else [e]
  }

  /**
   * Each chunk ends `chunkSize` items after the previous one or at `total`,
   * whichever comes first, so the reported counts strictly increase, never
   * exceed `total`, and the last one is `total`.
   */
  lemma {:induction false} ChunkEndsShape(start: nat, chunkSize: nat, total: nat)
    requires chunkSize >= 1 && start <= total
    ensures var r := ChunkEnds(start, chunkSize, total);
      && r != [] && r[0] == ChunkEnd(start, chunkSize, total) && r[|r| - 1] == total
      && (forall i :: 0 <= i < |r| - 1 ==> r[i + 1] == ChunkEnd(r[i], chunkSize, total) && r[i] < r[i + 1])
      && (forall i :: 0 <= i < |r| ==> start <= r[i] <= total)
      && (start < total ==> start < r[0])
    decreases total - start
  {
    var e := ChunkEnd(start, chunkSize, total);
    if e < total {
      ChunkEndsShape(e, chunkSize, total);
      var t := ChunkEnds(e, chunkSize, total);
      var r := [e] + t;
      assert r == ChunkEnds(start, chunkSize, total);
      assert r[|r| - 1] == t[|t| - 1];
      forall i | 0 <= i < |r| - 1
        ensures r[i + 1] == ChunkEnd(r[i], chunkSize, total) && r[i] < r[i + 1]
      {
        if i > 0 {
          assert r[i] == t[i - 1] && r[i + 1] == t[i];
        }
      }
      forall i | 0 <= i < |r|
        ensures start <= r[i] <= total
      {
        if i > 0 {
          assert r[i] == t[i - 1];
        }
      }
    }
  }

  /** An empty list is done after the first call, which reports 0 of 0. */
  lemma EmptyInputOneReport(chunkSize: nat)
    requires chunkSize >= 1
    ensures ChunkEnds(0, chunkSize, 0) == [0]
  {
  }

  /**
   * The body of one scheduled callback: the items from `start` up to `end`
   * are processed in index order, each result stored at its item's index.
   */
  method ProcessChunk<T, R>(items: seq<T>, f: T -> R, results: seq<R>, start: nat, end: nat)
    returns (next: seq<R>)
    requires start <= end <= |items|
    requires results == MapSeq(f, items[..start])
    ensures next == MapSeq(f, items[..end])
  {
    next := results;
    for i := start to end
      invariant next == MapSeq(f, items[..i])
    {
      next := next + [f(items[i])];
    }
  }

  /**
   * `processInChunks(items, processItem, chunkSize)`: `results` is what
   * `onComplete` receives and `progress` the successive `processed` values
   * passed to `onProgress`. It stops only for `chunkSize >= 1`; see
   * `ZeroChunkStalls` for the other case.
   */
  method ProcessInChunks<T, R>(items: seq<T>, processItem: T -> R, chunkSize: int := 3)
    returns (results: seq<R>, progress: seq<nat>)
    requires chunkSize >= 1
    ensures |results| == |items| && forall i :: 0 <= i < |items| ==> results[i] == processItem(items[i])
    ensures progress == ChunkEnds(0, chunkSize, |items|)
  {
    var total := |items|;
    results := [];
    progress := [];
    var processed := 0;
    var start := 0;
    var more := true;
    while more
      invariant 0 <= start <= total && processed == start
      invariant results == MapSeq(processItem, items[..start])
      invariant more ==> start < total || start == 0
      invariant more ==> progress + ChunkEnds(start, chunkSize, total) == ChunkEnds(0, chunkSize, total)
      invariant !more ==> start == total && progress == ChunkEnds(0, chunkSize, total)
      decreases total - start + (if more then 1 else 0)
    {
      var end := ChunkEnd(start, chunkSize, total);
      results := ProcessChunk(items, processItem, results, start, end);
      processed := processed + (end - start);
      ghost var rest := ChunkEnds(start, chunkSize, total);
      progress := progress + [processed];
      if processed < total {
        assert rest == [end] + ChunkEnds(end, chunkSize, total);
        assert progress + ChunkEnds(end, chunkSize, total) == (progress[..|progress| - 1] + [end]) + ChunkEnds(end, chunkSize, total);
        start := end;
      } else {
        start := end;
        more := false;
      }
    }
    assert items[..total] == items;
  }

  /**
   * `processBatch(items, operation, batchSize)`: the same chunked loop
   * without progress reports; the value it resolves with.
   */
  method ProcessBatch<T, R>(items: seq<T>, operation: T -> R, batchSize: int := 5)
    returns (result: seq<R>)
    requires batchSize >= 1
    ensures result == MapSeq(operation, items)
  {
    var totalItems := |items|;
    result := [];
    var processedCount := 0;
    var start := 0;
    var more := true;
    while more
      invariant 0 <= start <= totalItems && processedCount == start
      invariant result == MapSeq(operation, items[..start])
      invariant more ==> start < totalItems || start == 0
      invariant !more ==> start == totalItems
      decreases totalItems - start + (if more then 1 else 0)
    {
      var end := ChunkEnd(start, batchSize, totalItems);
      result := ProcessChunk(items, operation, result, start, end);
      processedCount := processedCount + (end - start);
      start := end;
      if processedCount >= totalItems {
        more := false;
      }
    }
    assert items[..totalItems] == items;
  }

  // ------------------------------------------------------------- chunk size 0

  /** Where the next callback starts and how many items have been processed. */
  datatype Chunking = Chunking(start: int, processed: int)

  /** One callback with any `chunkSize`: it processes the items between `start` and the chunk end, if any. */
  function ChunkStep(c: Chunking, chunkSize: int, total: int): (d: Chunking)
    ensures d.start == ChunkEnd(c.start, chunkSize, total)
    ensures d.processed == c.processed + (if d.start > c.start then d.start - c.start else 0)
  {
    var e := ChunkEnd(c.start, chunkSize, total);
    Chunking(e, c.processed + (if e > c.start then e - c.start else 0))
  }

  /** The state after `n` callbacks. */
  function ChunkSteps(c: Chunking, chunkSize: int, total: int, n: nat): Chunking
  {
    if n == 0 then c else ChunkStep(ChunkSteps(c, chunkSize, total, n - 1), chunkSize, total)
  }

  /**
   * With `chunkSize <= 0` no callback processes anything, so from a start
   * with items left, `processed < total` holds after every callback and the
   * next one is rescheduled forever; `onComplete` is never called.
   */
  lemma {:induction false} ZeroChunkStalls(c: Chunking, chunkSize: int, total: int, n: nat)
    requires chunkSize <= 0
    ensures ChunkSteps(c, chunkSize, total, n).processed == c.processed
    ensures ChunkSteps(c, chunkSize, total, n).start <= c.start
  {
    if n > 0 {
      ZeroChunkStalls(c, chunkSize, total, n - 1);
    }
  }
}
