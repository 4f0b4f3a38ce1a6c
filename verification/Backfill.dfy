/** Backfilling a time range: the range is cut into windows, each window is split over parallel
    workers, and what they fetch goes to the pipeline. A window any of whose fetches fails is
    skipped as a whole. */
module Backfill {
  import opened Numbers
  import opened Options
  import Pipeline

  const MAX_TIMESTAMP_RANGE: nat := 1_800_000

  /** Milliseconds; the node returns the blocks of the closed interval. */
  datatype Range = Range(fromTs: nat, toTs: nat)

  datatype Block = Block(hash: string, timestamp: nat)

  datatype Batch = Batch(blocks: seq<Block>, range: Range)

  /** What the node answers for a range; None is a failed request. */
  type Client = Range -> Option<seq<Block>>

  predicate Proper(r: Range) {
    r.fromTs <= r.toTs
  }

  ghost predicate AllProper(ranges: seq<Range>) {
    forall i :: 0 <= i < |ranges| ==> Proper(ranges[i])
  }

  predicate Within(t: nat, r: Range) {
    r.fromTs <= t <= r.toTs
  }

  /** Non-empty, each range starting where the one before ends, from lo to hi. */
  ghost predicate Chained(ranges: seq<Range>, lo: nat, hi: nat) {
    && ranges != [] && ranges[0].fromTs == lo && ranges[|ranges| - 1].toTs == hi
    && AllProper(ranges)
    && (forall i :: 0 <= i < |ranges| - 1 ==> ranges[i].toTs == ranges[i + 1].fromTs)
  }

  // ----- one window over parallel workers

  function Offset(i: nat, chunk: nat): nat {
    i * chunk
  }

  /** The range of one worker; the last one takes the remainder. */
  function WorkerRange(r: Range, workers: nat, i: nat): Range
    requires i < workers && Proper(r)
  {
    var chunk := (r.toTs - r.fromTs) / workers;
    var from := r.fromTs + Offset(i, chunk);
    Range(from, if i == workers - 1 then r.toTs else from + chunk)
  }

  ghost function WorkerRanges(r: Range, workers: nat): (s: seq<Range>)
    requires workers > 0 && Proper(r)
    ensures |s| == workers
  {
    seq(workers, i requires 0 <= i < workers => WorkerRange(r, workers, i))
  }

  lemma OffsetStep(i: nat, chunk: nat)
    ensures Offset(0, chunk) == 0
    ensures Offset(i + 1, chunk) == Offset(i, chunk) + chunk
  {
    DistributeNat(i, 1, chunk);
  }

  lemma DivisionLaw(total: nat, workers: nat)
    requires workers > 0
    ensures total == Offset(workers, total / workers) + total % workers
  {
  }

  lemma OffsetMono(i: nat, j: nat, chunk: nat)
    requires i <= j
    ensures Offset(i, chunk) <= Offset(j, chunk)
  {
    DistributeNat(i, j - i, chunk);
  }

  lemma ChunksFit(total: nat, workers: nat, i: nat)
    requires i < workers
    ensures var chunk := total / workers;
            && Offset(i, chunk) + chunk <= total
            && (i == workers - 1 ==> total == Offset(i, chunk) + (chunk + total % workers))
  {
    hide Offset;
    DivisionLaw(total, workers);
    OffsetStep(i, total / workers);
    OffsetMono(i + 1, workers, total / workers);
  }

  /** The workers' ranges are the window, cut at chunk boundaries; only the last is longer, by
      the remainder. */
  lemma WorkersChained(r: Range, workers: nat)
    requires workers > 0 && Proper(r)
    ensures Chained(WorkerRanges(r, workers), r.fromTs, r.toTs)
    ensures var total := r.toTs - r.fromTs;
            forall i :: 0 <= i < workers ==>
              var w := WorkerRanges(r, workers)[i];
              w.toTs - w.fromTs == total / workers + if i == workers - 1 then total % workers else 0
  {
    hide Offset;
    var total := r.toTs - r.fromTs;
    var chunk := total / workers;
    var s := WorkerRanges(r, workers);
    OffsetStep(0, chunk);
    forall i | 0 <= i < workers
      ensures s[i].fromTs <= s[i].toTs
      ensures s[i].toTs - s[i].fromTs == chunk + if i == workers - 1 then total % workers else 0
    {
      ChunksFit(total, workers, i);
    }
    forall i | 0 <= i < workers - 1 ensures s[i].toTs == s[i + 1].fromTs {
      OffsetStep(i, chunk);
    }
  }

  /** A time in a chained range lies in one of the links. */
  lemma {:induction false} ChainedCovers(ranges: seq<Range>, lo: nat, hi: nat, t: nat) returns (i: nat)
    requires Chained(ranges, lo, hi) && lo <= t <= hi
    ensures i < |ranges| && Within(t, ranges[i])
  {
    if t <= ranges[0].toTs {
      i := 0;
    } else {
      var j := ChainedCovers(ranges[1..], ranges[1].fromTs, hi, t);
      i := j + 1;
    }
  }

  /** `fetch_chunk`. */
  function FetchChunk(client: Client, r: Range): Option<Batch>
    requires Proper(r)
  {
    if r.toTs - r.fromTs > MAX_TIMESTAMP_RANGE then None
    else match client(r)
      case None => None
      case Some(blocks) => Some(Batch(blocks, r))
  }

  /** Every worker's fetch of the window succeeds. */
  ghost predicate WindowFetched(client: Client, r: Range, workers: nat)
    requires workers > 0 && Proper(r)
  {
    WorkersChained(r, workers);
    forall i :: 0 <= i < workers ==> FetchChunk(client, WorkerRanges(r, workers)[i]).Some?
  }

  ghost function WindowBatches(client: Client, r: Range, workers: nat): (s: seq<Batch>)
    requires workers > 0 && Proper(r) && WindowFetched(client, r, workers)
    ensures |s| == workers
  {
    WorkersChained(r, workers);
    seq(workers, i requires 0 <= i < workers => FetchChunk(client, WorkerRanges(r, workers)[i]).value)
  }

  /** The size limit alone: a window passes exactly if the last worker's share fits. */
  lemma WindowPassesLimit(client: Client, r: Range, workers: nat)
    requires workers > 0 && Proper(r)
    requires forall s: Range :: client(s).Some?
    ensures WindowFetched(client, r, workers)
            <==> (r.toTs - r.fromTs) / workers + (r.toTs - r.fromTs) % workers <= 1_800_000
  {
    WorkersChained(r, workers);
    assert FetchChunk(client, WorkerRanges(r, workers)[workers - 1]).Some?
           <==> (r.toTs - r.fromTs) / workers + (r.toTs - r.fromTs) % workers <= MAX_TIMESTAMP_RANGE;
  }

  lemma FetchedAll(client: Client, r: Range, workers: nat, batches: seq<Batch>)
    requires workers > 0 && Proper(r) && |batches| == workers
    requires AllProper(WorkerRanges(r, workers))
    requires forall j :: 0 <= j < workers ==> FetchChunk(client, WorkerRanges(r, workers)[j]) == Some(batches[j])
    ensures WindowFetched(client, r, workers) && batches == WindowBatches(client, r, workers)
  {
    hide WorkerRange, FetchChunk;
  }

  method FetchParallel(client: Client, r: Range, workers: nat) returns (result: Option<seq<Batch>>)
    requires workers > 0 && Proper(r)
    ensures result.Some? <==> WindowFetched(client, r, workers)
    ensures result.Some? ==> result.value == WindowBatches(client, r, workers)
  {
    hide Offset, FetchChunk, WindowBatches;
    WorkersChained(r, workers);
    var total := r.toTs - r.fromTs;
    var chunk := total / workers;
    var ranges: seq<Range> := [];
    for i := 0 to workers
      invariant ranges == WorkerRanges(r, workers)[..i]
    {
      var from := r.fromTs + Offset(i, chunk);
      var to := if i == workers - 1 then r.toTs else from + chunk;
      ChunksFit(total, workers, i);
      ranges := ranges + [Range(from, to)];
    }
    assert ranges == WorkerRanges(r, workers);
    var batches: seq<Batch> := [];
    for i := 0 to workers
      invariant |batches| == i
      invariant forall j :: 0 <= j < i ==> FetchChunk(client, ranges[j]) == Some(batches[j])
    {
      var fetched := FetchChunk(client, ranges[i]);
      if fetched.None? {
        return None;
      }
      batches := batches + [fetched.value];
    }
    FetchedAll(client, r, workers, batches);
    return Some(batches);
  }

  // ----- the loop over windows

  ghost function Windows(start: nat, stop: nat, step: nat): seq<Range>
    requires step > 0
    decreases stop - start
  {
    if start >= stop then [] else
      var end := Min(start + step, stop);
      [Range(start, end)] + Windows(end, stop, step)
  }

  lemma {:induction false} WindowsChained(start: nat, stop: nat, step: nat)
    requires step > 0
    ensures start < stop ==> Chained(Windows(start, stop, step), start, stop)
    ensures start >= stop ==> Windows(start, stop, step) == []
    ensures forall i :: 0 <= i < |Windows(start, stop, step)| ==>
              var w := Windows(start, stop, step)[i]; w.fromTs < w.toTs <= w.fromTs + step
    decreases stop - start
  {
    if start < stop {
      WindowsChained(Min(start + step, stop), stop, step);
    }
  }

  /** All worker ranges of all windows, in order. */
  ghost function Flattened(windows: seq<Range>, workers: nat): seq<Range>
    requires workers > 0 && AllProper(windows)
  {
    if windows == [] then [] else WorkerRanges(windows[0], workers) + Flattened(windows[1..], workers)
  }

  lemma ChainedConcat(a: seq<Range>, b: seq<Range>, lo: nat, mid: nat, hi: nat)
    requires Chained(a, lo, mid) && Chained(b, mid, hi)
    ensures Chained(a + b, lo, hi)
  {
    var s := a + b;
    forall i | 0 <= i < |s| - 1 ensures s[i].toTs == s[i + 1].fromTs {
      if i < |a| - 1 {
        assert a[i].toTs == a[i + 1].fromTs;
      } else if i >= |a| {
        assert b[i - |a|].toTs == b[i - |a| + 1].fromTs;
      }
    }
  }

  lemma {:induction false} FlattenedChained(windows: seq<Range>, workers: nat, lo: nat, hi: nat)
    requires workers > 0 && Chained(windows, lo, hi)
    ensures Chained(Flattened(windows, workers), lo, hi)
  {
    WorkersChained(windows[0], workers);
    if |windows| > 1 {
      assert Chained(windows[1..], windows[1].fromTs, hi);
      FlattenedChained(windows[1..], workers, windows[1].fromTs, hi);
      ChainedConcat(WorkerRanges(windows[0], workers), Flattened(windows[1..], workers), lo, windows[0].toTs, hi);
    } else {
      assert Flattened(windows[1..], workers) == [];
      assert Flattened(windows, workers) == WorkerRanges(windows[0], workers);
    }
  }

  ghost predicate Covered(t: nat, ranges: seq<Range>) {
    exists i :: 0 <= i < |ranges| && Within(t, ranges[i])
  }

  ghost predicate AllCovered(start: nat, stop: nat, ranges: seq<Range>) {
    forall t: nat :: start <= t <= stop ==> Covered(t, ranges)
  }

  /** The ranges asked for are contiguous from start to stop, so they hold every time of the
      closed interval, exactly if start is before stop: for start == stop nothing is asked for. */
  lemma BackfillCovers(start: nat, stop: nat, step: nat, workers: nat)
    requires step > 0 && workers > 0 && start <= stop
    ensures AllProper(Windows(start, stop, step))
    ensures var asked := Flattened(Windows(start, stop, step), workers);
            && (start < stop ==> Chained(asked, start, stop))
            && (AllCovered(start, stop, asked) <==> start < stop)
  {
    WindowsChained(start, stop, step);
    var asked := Flattened(Windows(start, stop, step), workers);
    if start < stop {
      FlattenedChained(Windows(start, stop, step), workers, start, stop);
      forall t: nat | start <= t <= stop ensures Covered(t, asked) {
        var i := ChainedCovers(asked, start, stop, t);
      }
    } else {
      assert asked == [];
      assert !Covered(start, asked);
    }
  }

  /** How a backfill ends. A window whose fetch fails is skipped; one whose pipeline fails ends the
      loop, and one whose pipeline never returns keeps it for ever. */
  datatype End = Done | Failed(window: Range) | Hung(window: Range)

  /** The verdict of the pipeline on a window's batches, if it comes to one. */
  type Verdict = seq<Batch> -> bool

  /** The pipeline cannot take a window's batches in: see WindowEndsIffFewWorkers. */
  predicate Hangs(workers: nat) {
    workers > Pipeline.CAPACITY
  }

  /** The loop goes on after a window. */
  ghost predicate Passes(client: Client, store: Verdict, w: Range, workers: nat)
    requires workers > 0 && Proper(w)
  {
    WindowFetched(client, w, workers) ==> !Hangs(workers) && store(WindowBatches(client, w, workers))
  }

  ghost function EndOf(client: Client, store: Verdict, windows: seq<Range>, workers: nat): End
    requires workers > 0 && AllProper(windows)
  {
    if windows == [] then Done
    else if Passes(client, store, windows[0], workers) then EndOf(client, store, windows[1..], workers)
    else if Hangs(workers) then Hung(windows[0])
    else Failed(windows[0])
  }

  /** The batches handed to the pipeline: those of the windows fetched completely, up to and
      including the first one that does not pass. */
  ghost function Handed(client: Client, store: Verdict, windows: seq<Range>, workers: nat): seq<Batch>
    requires workers > 0 && AllProper(windows)
  {
    if windows == [] then []
    else if !WindowFetched(client, windows[0], workers) then Handed(client, store, windows[1..], workers)
    else WindowBatches(client, windows[0], workers)
         + if Passes(client, store, windows[0], workers) then Handed(client, store, windows[1..], workers) else []
  }

  /** The node returns exactly the chain's blocks of the interval it is asked for. */
  ghost predicate Honest(client: Client, chain: set<Block>) {
    forall r: Range, b: Block :: client(r).Some? ==> (b in client(r).value <==> b in chain && Within(b.timestamp, r))
  }

  ghost predicate InBatches(b: Block, batches: seq<Batch>) {
    exists i :: 0 <= i < |batches| && b in batches[i].blocks
  }

  lemma WindowHandsOver(client: Client, chain: set<Block>, r: Range, workers: nat, b: Block)
    requires workers > 0 && Proper(r) && Honest(client, chain) && WindowFetched(client, r, workers)
    ensures InBatches(b, WindowBatches(client, r, workers)) <==> b in chain && Within(b.timestamp, r)
  {
    WorkersChained(r, workers);
    var ranges, batches := WorkerRanges(r, workers), WindowBatches(client, r, workers);
    forall i | 0 <= i < workers ensures b in batches[i].blocks <==> b in chain && Within(b.timestamp, ranges[i]) {
      assert FetchChunk(client, ranges[i]) == Some(batches[i]);
    }
    if b in chain && Within(b.timestamp, r) {
      var i := ChainedCovers(ranges, r.fromTs, r.toTs, b.timestamp);
      assert b in batches[i].blocks;
    }
    if InBatches(b, batches) {
      var i :| 0 <= i < |batches| && b in batches[i].blocks;
      LinkInside(ranges, r.fromTs, r.toTs, i);
    }
  }

  lemma {:induction false} LinkInside(ranges: seq<Range>, lo: nat, hi: nat, i: nat)
    requires Chained(ranges, lo, hi) && i < |ranges|
    ensures lo <= ranges[i].fromTs && ranges[i].toTs <= hi
  {
    if |ranges| > 1 {
      if i > 0 {
        LinkInside(ranges[1..], ranges[1].fromTs, hi, i - 1);
      } else {
        LinkInside(ranges[1..], ranges[1].fromTs, hi, |ranges| - 2);
      }
    }
  }

  lemma InBatchesConcat(b: Block, x: seq<Batch>, y: seq<Batch>)
    ensures InBatches(b, x + y) <==> InBatches(b, x) || InBatches(b, y)
  {
    var s := x + y;
    if i :| 0 <= i < |x| && b in x[i].blocks {
      assert b in s[i].blocks;
    }
    if i :| 0 <= i < |y| && b in y[i].blocks {
      assert b in s[|x| + i].blocks;
    }
    if i :| 0 <= i < |s| && b in s[i].blocks {
      if i < |x| {
        assert b in x[i].blocks;
      } else {
        assert b in y[i - |x|].blocks;
      }
    }
  }

  /** The window at i is fetched, and the loop gets to it. */
  ghost predicate Reached(client: Client, store: Verdict, windows: seq<Range>, workers: nat, i: nat)
    requires workers > 0 && AllProper(windows) && i < |windows|
  {
    WindowFetched(client, windows[i], workers) && forall j :: 0 <= j < i ==> Passes(client, store, windows[j], workers)
  }

  lemma ReachedInRest(client: Client, store: Verdict, windows: seq<Range>, workers: nat, i: nat)
    requires workers > 0 && AllProper(windows) && 0 < i < |windows|
    ensures Reached(client, store, windows, workers, i)
            <==> Passes(client, store, windows[0], workers) && Reached(client, store, windows[1..], workers, i - 1)
  {
    hide Passes, WindowFetched;
    var rest := windows[1..];
    if Passes(client, store, windows[0], workers) && Reached(client, store, rest, workers, i - 1) {
      forall j | 0 <= j < i ensures Passes(client, store, windows[j], workers) {
        assert j > 0 ==> rest[j - 1] == windows[j];
      }
    }
    if Reached(client, store, windows, workers, i) {
      forall j | 0 <= j < i - 1 ensures Passes(client, store, rest[j], workers) {
        assert rest[j] == windows[j + 1];
      }
    }
  }

  /** A block of the chain reaches the pipeline exactly if its time lies in a window all of whose
      fetches succeed and before which the loop neither failed nor hung. */
  lemma {:induction false} BlockHandedIff(client: Client, store: Verdict, chain: set<Block>, windows: seq<Range>,
                                          workers: nat, b: Block)
    requires workers > 0 && Honest(client, chain)
    requires AllProper(windows)
    ensures InBatches(b, Handed(client, store, windows, workers)) <==>
            b in chain && exists i :: 0 <= i < |windows| && Within(b.timestamp, windows[i])
                                      && Reached(client, store, windows, workers, i)
  {
    hide WindowFetched, WindowBatches, Honest, InBatches, Reached, Passes;
    if windows == [] {
      NoBatches(b);
    } else {
      var w, rest := windows[0], windows[1..];
      BlockHandedIff(client, store, chain, rest, workers, b);
      ReachedFirst(client, store, windows, workers);
      forall i | 0 < i < |windows| ensures rest[i - 1] == windows[i]
        ensures Reached(client, store, windows, workers, i)
                <==> Passes(client, store, w, workers) && Reached(client, store, rest, workers, i - 1)
      {
        ReachedInRest(client, store, windows, workers, i);
      }
      FirstOrRest(client, store, chain, windows, workers, b);
      if i :| 0 <= i < |rest| && Within(b.timestamp, rest[i]) && Reached(client, store, rest, workers, i) {
        assert rest[i] == windows[i + 1] && rest[(i + 1) - 1] == windows[i + 1];
      }
    }
  }

  lemma NoBatches(b: Block)
    ensures !InBatches(b, [])
  {
  }

  lemma ReachedFirst(client: Client, store: Verdict, windows: seq<Range>, workers: nat)
    requires workers > 0 && AllProper(windows) && windows != []
    ensures Reached(client, store, windows, workers, 0) <==> WindowFetched(client, windows[0], workers)
    ensures !WindowFetched(client, windows[0], workers) ==> Passes(client, store, windows[0], workers)
  {
    hide WindowFetched;
  }

  lemma FirstOrRest(client: Client, store: Verdict, chain: set<Block>, windows: seq<Range>, workers: nat, b: Block)
    requires workers > 0 && Honest(client, chain) && AllProper(windows) && windows != []
    ensures InBatches(b, Handed(client, store, windows, workers)) <==>
            (WindowFetched(client, windows[0], workers) && b in chain && Within(b.timestamp, windows[0]))
            || (Passes(client, store, windows[0], workers) &&
                InBatches(b, Handed(client, store, windows[1..], workers)))
  {
    hide WindowFetched, WindowBatches, Honest, InBatches, Passes;
    var w := windows[0];
    ReachedFirst(client, store, windows, workers);
    if WindowFetched(client, w, workers) {
      var rest := if Passes(client, store, w, workers) then Handed(client, store, windows[1..], workers) else [];
      InBatchesConcat(b, WindowBatches(client, w, workers), rest);
      WindowHandsOver(client, chain, w, workers, b);
      NoBatches(b);
    }
  }

  lemma DivisionMonotone(m: nat, n: nat, workers: nat)
    requires m <= n && workers > 0
    ensures m / workers <= n / workers
  {
    DivisionLaw(m, workers);
    DivisionLaw(n, workers);
    if n / workers + 1 <= m / workers {
      OffsetMono(n / workers + 1, m / workers, workers);
      Commute(n / workers + 1, workers);
      Commute(m / workers, workers);
      Commute(n / workers, workers);
      OffsetStep(n / workers, workers);
      assert false;
    }
  }

  lemma Commute(a: nat, b: nat)
    ensures Offset(a, b) == Offset(b, a)
  {
  }

  /** The run is done exactly if every window passes. */
  lemma {:induction false} DoneIff(client: Client, store: Verdict, windows: seq<Range>, workers: nat)
    requires workers > 0 && AllProper(windows)
    ensures EndOf(client, store, windows, workers).Done?
            <==> forall i :: 0 <= i < |windows| ==> Passes(client, store, windows[i], workers)
  {
    hide Passes;
    if windows != [] {
      DoneIff(client, store, windows[1..], workers);
      assert forall i :: 0 <= i < |windows[1..]| ==> windows[1..][i] == windows[i + 1];
      if EndOf(client, store, windows, workers).Done? {
        forall i | 0 <= i < |windows| ensures Passes(client, store, windows[i], workers) {
          assert i > 0 ==> windows[1..][i - 1] == windows[i];
        }
      }
    }
  }

  /** A run that is done has handed over every block of an interval exactly if every window that holds
      one was fetched, or another window that holds it. */
  lemma DoneHandsOverIff(client: Client, store: Verdict, chain: set<Block>, windows: seq<Range>, workers: nat)
    requires workers > 0 && Honest(client, chain) && AllProper(windows)
    requires EndOf(client, store, windows, workers).Done?
    ensures forall b :: InBatches(b, Handed(client, store, windows, workers))
                        <==> b in chain && HeldByFetched(client, windows, workers, b.timestamp)
    ensures (forall b :: b in chain && HeldBy(windows, b.timestamp) ==>
                InBatches(b, Handed(client, store, windows, workers)))
            <==> forall b :: b in chain && HeldBy(windows, b.timestamp) ==>
                 HeldByFetched(client, windows, workers, b.timestamp)
  {
    hide WindowFetched, Handed, InBatches, Passes, Honest, HeldBy;
    DoneIff(client, store, windows, workers);
    forall b ensures InBatches(b, Handed(client, store, windows, workers))
                     <==> b in chain && HeldByFetched(client, windows, workers, b.timestamp)
    {
      BlockHandedIff(client, store, chain, windows, workers, b);
      if i :| 0 <= i < |windows| && Within(b.timestamp, windows[i]) && WindowFetched(client, windows[i], workers) {
        assert Reached(client, store, windows, workers, i);
      }
    }
  }

  ghost predicate HeldBy(windows: seq<Range>, t: nat) {
    exists i :: 0 <= i < |windows| && Within(t, windows[i])
  }

  ghost predicate HeldByFetched(client: Client, windows: seq<Range>, workers: nat, t: nat)
    requires workers > 0 && AllProper(windows)
  {
    exists i :: 0 <= i < |windows| && Within(t, windows[i]) && WindowFetched(client, windows[i], workers)
  }

  /** A run that fails does so at a fetched window whose pipeline fails, and a run that hangs at a fetched window
      with more than 100 workers, all windows before having passed. */
  lemma {:induction false} StopsAt(client: Client, store: Verdict, windows: seq<Range>, workers: nat) returns (i: nat)
    requires workers > 0 && AllProper(windows)
    ensures var end := EndOf(client, store, windows, workers);
            !end.Done? ==>
              && i < |windows| && end.window == windows[i] && Reached(client, store, windows, workers, i)
              && (if end.Hung? then workers > 100
                  else workers <= 100 && !store(WindowBatches(client, windows[i], workers)))
  {
    hide WindowFetched, WindowBatches, Passes, Reached;
    i := 0;
    if windows != [] {
      StopsFirst(client, store, windows, workers);
    }
    if windows != [] && Passes(client, store, windows[0], workers) {
      i := StopsAt(client, store, windows[1..], workers);
      if !EndOf(client, store, windows, workers).Done? {
        ReachedInRest(client, store, windows, workers, i + 1);
        i := i + 1;
      }
    }
  }

  lemma StopsFirst(client: Client, store: Verdict, windows: seq<Range>, workers: nat)
    requires workers > 0 && AllProper(windows) && windows != []
    ensures !Passes(client, store, windows[0], workers) ==>
              && Reached(client, store, windows, workers, 0)
              && (workers > 100 || !store(WindowBatches(client, windows[0], workers)))
  {
    hide WindowFetched, WindowBatches;
  }

  /** A run that is done although nothing was fetched and a block was in its interval. */
  lemma SkippedWindowStillDone(client: Client, store: Verdict, b: Block)
    requires forall r: Range :: client(r).None?
    requires b == Block("b", 0)
    ensures Honest(client, {b}) && AllProper(Windows(0, 1, 1)) && HeldBy(Windows(0, 1, 1), b.timestamp)
    ensures EndOf(client, store, Windows(0, 1, 1), 1) == Done && Handed(client, store, Windows(0, 1, 1), 1) == []
  {
    var windows := Windows(0, 1, 1);
    assert windows == [Range(0, 1)] + Windows(1, 1, 1) == [Range(0, 1)];
    assert Within(0, windows[0]);
    WorkersChained(windows[0], 1);
    assert FetchChunk(client, WorkerRanges(windows[0], 1)[0]).None?;
    assert !WindowFetched(client, windows[0], 1);
    hide WindowFetched;
    assert windows[1..] == [];
  }

  lemma EveryWindowFetched(client: Client, start: nat, stop: nat, step: nat, workers: nat)
    requires step > 0 && workers > 0
    requires forall r: Range :: client(r).Some?
    requires step / workers + workers - 1 <= MAX_TIMESTAMP_RANGE
    ensures AllProper(Windows(start, stop, step))
    ensures forall i :: 0 <= i < |Windows(start, stop, step)| ==>
              WindowFetched(client, Windows(start, stop, step)[i], workers)
  {
    hide WindowFetched, Windows;
    WindowsChained(start, stop, step);
    WindowsProper(start, stop, step);
    var windows := Windows(start, stop, step);
    forall i | 0 <= i < |windows| ensures WindowFetched(client, windows[i], workers) {
      var w := windows[i];
      DivisionMonotone(w.toTs - w.fromTs, step, workers);
      WindowPassesLimit(client, w, workers);
    }
  }

  /** If the node answers every request and the workers' shares of a window keep within the limit
      whatever the remainder: a run over a proper interval is done exactly if there are at most 100
      workers and the pipeline succeeds on every window; and then every block of the closed interval
      has reached the pipeline. With more workers the run hangs on its first window. */
  lemma BackfillComplete(client: Client, store: Verdict, chain: set<Block>, start: nat, stop: nat, step: nat,
                         workers: nat)
    requires step > 0 && workers > 0 && start < stop && Honest(client, chain)
    requires forall r: Range :: client(r).Some?
    requires step / workers + workers - 1 <= 1_800_000
    ensures AllProper(Windows(start, stop, step))
    ensures var windows := Windows(start, stop, step);
            && (forall i :: 0 <= i < |windows| ==> WindowFetched(client, windows[i], workers))
            && (EndOf(client, store, windows, workers).Done?
                <==> workers <= 100 && forall i :: 0 <= i < |windows| ==>
                     store(WindowBatches(client, windows[i], workers)))
            && (EndOf(client, store, windows, workers).Done? ==>
                  forall b :: b in chain && start <= b.timestamp <= stop ==>
                    InBatches(b, Handed(client, store, windows, workers)))
            && (workers > 100 ==> EndOf(client, store, windows, workers) == Hung(windows[0]))
  {
    hide WindowFetched, WindowBatches, Handed, Honest, InBatches, Windows;
    WindowsChained(start, stop, step);
    EveryWindowFetched(client, start, stop, step, workers);
    var windows := Windows(start, stop, step);
    DoneIff(client, store, windows, workers);
    assert windows[0] in windows;
    if EndOf(client, store, windows, workers).Done? {
      forall b | b in chain && start <= b.timestamp <= stop
        ensures InBatches(b, Handed(client, store, windows, workers))
      {
        var i := ChainedCovers(windows, start, stop, b.timestamp);
        assert Reached(client, store, windows, workers, i);
        BlockHandedIff(client, store, chain, windows, workers, b);
      }
    }
  }

  /** A window handed over is `workers` batches, so its pipeline run comes to an end exactly if
      there are at most 100 workers. */
  lemma WindowEndsIffFewWorkers<O>(client: Client, r: Range, workers: nat, steps: seq<Pipeline.Step>,
                                   process: Pipeline.Process<Batch, O>)
    requires workers > 0 && Proper(r) && WindowFetched(client, r, workers)
    requires var s: Pipeline.State<Batch, O> := Pipeline.Initial(WindowBatches(client, r, workers));
             Pipeline.Possible(s, steps, process) && Pipeline.Quiet(Pipeline.Exec(s, steps, process))
    ensures var s: Pipeline.State<Batch, O> := Pipeline.Initial(WindowBatches(client, r, workers));
            Pipeline.Exec(s, steps, process).result.Returned? <==> workers <= 100
  {
    Pipeline.ReturnsIffFits(WindowBatches(client, r, workers), steps, process);
  }

  /** `run_backfill`. A window whose pipeline hangs is where the source stays; here the method returns. */
  method RunBackfill(client: Client, store: Verdict, start: nat, stop: nat, step: nat, workers: nat)
    returns (end: End, handed: seq<Batch>)
    requires step > 0 && workers > 0
    ensures AllProper(Windows(start, stop, step))
    ensures end == EndOf(client, store, Windows(start, stop, step), workers)
    ensures handed == Handed(client, store, Windows(start, stop, step), workers)
  {
    hide Handed, EndOf, Passes, Windows, WindowFetched, WindowBatches, AllProper;
    WindowsProper(start, stop, step);
    handed := [];
    var current := start;
    while current < stop
      invariant AllProper(Windows(current, stop, step))
      invariant handed + Handed(client, store, Windows(current, stop, step), workers)
                == Handed(client, store, Windows(start, stop, step), workers)
      invariant EndOf(client, store, Windows(current, stop, step), workers)
                == EndOf(client, store, Windows(start, stop, step), workers)
      decreases stop - current
    {
      var chunkEnd := Min(current + step, stop);
      var window := Range(current, chunkEnd);
      NextWindow(client, store, current, stop, step, workers);
      var fetched := FetchParallel(client, window, workers);
      if fetched.Some? && fetched.value != [] {
        handed := handed + fetched.value;
        if Hangs(workers) {
          return Hung(window), handed;
        }
        if !store(fetched.value) {
          return Failed(window), handed;
        }
      }
      current := chunkEnd;
    }
    NoWindow(client, store, current, stop, step, workers);
    end := Done;
  }

  lemma WindowsProper(start: nat, stop: nat, step: nat)
    requires step > 0
    ensures AllProper(Windows(start, stop, step))
  {
    WindowsChained(start, stop, step);
  }

  lemma NextWindow(client: Client, store: Verdict, current: nat, stop: nat, step: nat, workers: nat)
    requires step > 0 && workers > 0 && current < stop
    ensures var end := Min(current + step, stop); var window := Range(current, end);
            && AllProper(Windows(current, stop, step)) && AllProper(Windows(end, stop, step))
            && var now, later := Windows(current, stop, step), Windows(end, stop, step);
               var fetched := WindowFetched(client, window, workers);
               var ok := fetched ==> !Hangs(workers) && store(WindowBatches(client, window, workers));
            && Handed(client, store, now, workers)
               == (if fetched then WindowBatches(client, window, workers) else [])
                  + (if ok then Handed(client, store, later, workers) else [])
            && EndOf(client, store, now, workers)
               == (if ok then EndOf(client, store, later, workers)
                   else if Hangs(workers) then Hung(window)
                   else Failed(window))
            && (fetched ==> WindowBatches(client, window, workers) != [])
  {
    hide WindowFetched, WindowBatches;
    var end := Min(current + step, stop);
    WindowsProper(current, stop, step);
    WindowsProper(end, stop, step);
    assert Windows(current, stop, step)[1..] == Windows(end, stop, step);
  }

  lemma NoWindow(client: Client, store: Verdict, current: nat, stop: nat, step: nat, workers: nat)
    requires step > 0 && workers > 0 && current >= stop
    ensures AllProper(Windows(current, stop, step))
    ensures Handed(client, store, Windows(current, stop, step), workers) == []
    ensures EndOf(client, store, Windows(current, stop, step), workers) == Done
  {
  }

  // ----- the window of the endless sync loop

  const U64: nat := 0x1_0000_0000_0000_0000

  /** Unsigned 64-bit subtraction, which wraps round. */
  function Minus(a: nat, b: nat): (d: nat)
    ensures a >= b && a < U64 ==> d == a - b
    ensures a < b < U64 ==> d == U64 + a - b
  {
    (a - b) % U64
  }

  /** `run_sync`'s choice of where a window starts; it ends at remote. */
  function SyncStart(remote: nat, local: nat, backstep: nat): nat {
    if Minus(remote, Minus(local, backstep)) > backstep then Minus(remote, backstep) else Minus(local, backstep)
  }

  predicate ValidTimes(remote: nat, local: nat, backstep: nat) {
    backstep <= remote < U64 && backstep <= local < U64
  }

  /** The window reaches back by backstep from the node's latest block, whether the node is ahead or,
      through the wrap-round, far behind; only if the node is behind by at most backstep it starts
      backstep before the local one. */
  lemma SyncWindow(remote: nat, local: nat, backstep: nat)
    requires ValidTimes(remote, local, backstep)
    ensures SyncStart(remote, local, backstep)
         == if remote < local <= remote + backstep then local - backstep else remote - backstep
    ensures SyncStart(remote, local, backstep) <= remote <= SyncStart(remote, local, backstep) + backstep
  {
  }

  /** One turn of the loop: the time of the node's latest block, and whether the window was fetched. */
  datatype Turn = Turn(remote: nat, fetched: bool)

  /** The latest stored time before turn i; a fetched window brings the node's latest block. */
  function LocalBefore(turns: seq<Turn>, local: nat, i: nat): nat
    requires i <= |turns|
  {
    if i == 0 then local else
      var before, t := LocalBefore(turns, local, i - 1), turns[i - 1];
      if t.fetched && t.remote > before then t.remote else before
  }

  /** A node whose latest block does not go back, with times large enough to take backstep off. */
  ghost predicate Forward(turns: seq<Turn>, local: nat, backstep: nat) {
    && backstep <= local < U64
    && (forall i :: 0 <= i < |turns| ==> ValidTimes(turns[i].remote, local, backstep))
    && (forall i, j :: 0 <= i < j < |turns| ==> turns[i].remote <= turns[j].remote)
  }

  lemma {:induction false} LocalBeforeGrows(turns: seq<Turn>, local: nat, backstep: nat, i: nat, j: nat)
    requires Forward(turns, local, backstep) && i <= j <= |turns|
    ensures LocalBefore(turns, local, i) <= LocalBefore(turns, local, j)
    ensures backstep <= LocalBefore(turns, local, j) < U64
    ensures i < j && turns[i].fetched ==> turns[i].remote <= LocalBefore(turns, local, j)
    decreases j
  {
    if i < j {
      LocalBeforeGrows(turns, local, backstep, i, j - 1);
      if i == j - 1 {
        LocalBeforeGrows(turns, local, backstep, i, i);
      }
    } else if j > 0 {
      LocalBeforeGrows(turns, local, backstep, j - 1, j - 1);
    }
  }

  /** Turn i fetches time t. */
  ghost predicate FetchedAt(turns: seq<Turn>, local: nat, backstep: nat, i: nat, t: nat)
    requires i < |turns|
  {
    && turns[i].fetched
    && SyncStart(turns[i].remote, LocalBefore(turns, local, i), backstep) <= t <= turns[i].remote
  }

  ghost predicate Synced(turns: seq<Turn>, local: nat, backstep: nat, t: nat) {
    exists i :: 0 <= i < |turns| && FetchedAt(turns, local, backstep, i, t)
  }

  /** The window of turn i starts no later than right after what is stored. */
  predicate Joins(turns: seq<Turn>, local: nat, backstep: nat, i: nat)
    requires i < |turns|
  {
    turns[i].fetched ==> turns[i].remote <= LocalBefore(turns, local, i) + backstep + 1
  }

  /** A window that does not join leaves a time that no turn fetches, now or later. */
  lemma HoleStays(turns: seq<Turn>, local: nat, backstep: nat, i: nat)
    requires Forward(turns, local, backstep) && i < |turns| && !Joins(turns, local, backstep, i)
    ensures var t := LocalBefore(turns, local, i) + 1;
            local < t <= LocalBefore(turns, local, |turns|) && !Synced(turns, local, backstep, t)
  {
    hide SyncStart;
    var t := LocalBefore(turns, local, i) + 1;
    LocalBeforeGrows(turns, local, backstep, 0, i);
    LocalBeforeGrows(turns, local, backstep, i, |turns|);
    forall j | 0 <= j < |turns| ensures !FetchedAt(turns, local, backstep, j, t) {
      LocalBeforeGrows(turns, local, backstep, 0, j);
      SyncWindow(turns[j].remote, LocalBefore(turns, local, j), backstep);
      if j < i {
        LocalBeforeGrows(turns, local, backstep, j, i);
      } else if i < j {
        LocalBeforeGrows(turns, local, backstep, i, j);
      }
    }
  }

  lemma {:induction false} JoinedCovers(turns: seq<Turn>, local: nat, backstep: nat, n: nat, t: nat)
    requires Forward(turns, local, backstep) && n <= |turns|
    requires forall i :: 0 <= i < n ==> Joins(turns, local, backstep, i)
    requires local < t <= LocalBefore(turns, local, n)
    ensures Synced(turns, local, backstep, t)
  {
    hide SyncStart;
    if n > 0 {
      if t <= LocalBefore(turns, local, n - 1) {
        JoinedCovers(turns, local, backstep, n - 1, t);
      } else {
        LocalBeforeGrows(turns, local, backstep, 0, n - 1);
        SyncWindow(turns[n - 1].remote, LocalBefore(turns, local, n - 1), backstep);
        assert Joins(turns, local, backstep, n - 1);
        assert FetchedAt(turns, local, backstep, n - 1, t);
      }
    }
  }

  /** One turn that leaves a hole: the node is far ahead, and the time right after the latest stored
      one is not fetched. */
  lemma HoleAfterLongPause(turns: seq<Turn>)
    requires turns == [Turn(1000, true)]
    ensures Forward(turns, 100, 10) && !Joins(turns, 100, 10, 0)
    ensures 100 < 101 <= LocalBefore(turns, 100, 1) && !Synced(turns, 100, 10, 101)
  {
    HoleStays(turns, 100, 10, 0);
  }

  /** Over any number of turns, some of which may fail to fetch: every time since the start up to the
      latest stored one is fetched exactly if at every turn that fetches the node is ahead of what is
      stored by no more than backstep (and the next millisecond). */
  lemma SyncCoversIff(turns: seq<Turn>, local: nat, backstep: nat)
    requires Forward(turns, local, backstep)
    ensures (forall t :: local < t <= LocalBefore(turns, local, |turns|) ==> Synced(turns, local, backstep, t))
            <==> forall i :: 0 <= i < |turns| ==> Joins(turns, local, backstep, i)
  {
    hide SyncStart, Joins, Synced, LocalBefore;
    if forall i :: 0 <= i < |turns| ==> Joins(turns, local, backstep, i) {
      forall t | local < t <= LocalBefore(turns, local, |turns|) ensures Synced(turns, local, backstep, t) {
        JoinedCovers(turns, local, backstep, |turns|, t);
      }
    } else {
      var i :| 0 <= i < |turns| && !Joins(turns, local, backstep, i);
      HoleStays(turns, local, backstep, i);
    }
  }
}
