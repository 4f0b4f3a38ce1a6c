/** The swap processor in the pipeline. Every batch is read against the pools table, which only the
    storage task writes, and the processor task runs ahead of it: pools of earlier batches may not be
    in the table yet. */
module DexPipeline {
  import opened Options
  import opened Swaps
  import P = Pipeline

  type Batch = seq<Block>

  /** What is handed on to be stored: the pools a batch creates, and the swaps read in it. */
  datatype Output = Output(newPools: seq<NewPool>, swaps: seq<Indexed>)

  function PoolsWritten(written: seq<Output>): seq<NewPool> {
    if written == [] then [] else PoolsWritten(written[..|written| - 1]) + written[|written| - 1].newPools
  }

  function ReadBatch(stored: Pools, batch: Batch, written: seq<Output>): Output {
    Output(PoolsOf(batch), SwapsOf(Kept(stored, PoolsWritten(written)), batch))
  }

  /** The processor, on a table that held these pools before the run. */
  function Reader(stored: Pools): P.Process<Batch, Output> {
    (batch: Batch, written: seq<Output>) => ReadBatch(stored, batch, written)
  }

  function Flat(batches: seq<Batch>): seq<Block> {
    if batches == [] then [] else Flat(batches[..|batches| - 1]) + batches[|batches| - 1]
  }

  /** The swaps of batch i, read when the pools of the first r batches are in the table. */
  function SwapsSeeing(stored: Pools, batches: seq<Batch>, r: nat, i: nat): seq<Indexed>
    requires r <= i < |batches|
  {
    SwapsOf(Kept(stored, PoolsOf(Flat(batches[..r]))), batches[i])
  }

  /** The outputs are what the batches give, each read with the pools of some of the batches before it. */
  ghost predicate ReadFrom(stored: Pools, batches: seq<Batch>, produced: seq<Output>, seen: seq<nat>) {
    && |seen| == |produced| <= |batches|
    && forall i :: 0 <= i < |produced| ==>
         seen[i] <= i && produced[i] == Output(PoolsOf(batches[i]), SwapsSeeing(stored, batches, seen[i], i))
  }

  lemma {:induction false} PoolsWrittenAre(stored: Pools, batches: seq<Batch>, produced: seq<Output>, r: nat)
    requires r <= |produced| <= |batches|
    requires forall i :: 0 <= i < |produced| ==> produced[i].newPools == PoolsOf(batches[i])
    ensures PoolsWritten(produced[..r]) == PoolsOf(Flat(batches[..r]))
  {
    if r > 0 {
      PoolsWrittenAre(stored, batches, produced, r - 1);
      assert produced[..r][..r - 1] == produced[..r - 1] && batches[..r][..r - 1] == batches[..r - 1];
      BatchesCompose(stored, Flat(batches[..r - 1]), batches[r - 1]);
    }
  }

  lemma MadeIsReadFrom(stored: Pools, batches: seq<Batch>, produced: seq<Output>, seen: seq<nat>)
    requires P.Made(batches, produced, seen, Reader(stored))
    ensures ReadFrom(stored, batches, produced, seen)
  {
    hide PoolsOf, SwapsOf, Kept;
    forall i | 0 <= i < |produced| ensures seen[i] <= i
      && produced[i] == Output(PoolsOf(batches[i]), SwapsSeeing(stored, batches, seen[i], i))
    {
      assert produced[i] == ReadBatch(stored, batches[i], produced[..seen[i]]);
      forall k | 0 <= k < |produced| ensures produced[k].newPools == PoolsOf(batches[k]) {
        assert produced[k] == ReadBatch(stored, batches[k], produced[..seen[k]]);
      }
      PoolsWrittenAre(stored, batches, produced, seen[i]);
    }
  }

  // ----- which swaps are lost

  ghost predicate Creates(blocks: seq<Block>, address: string) {
    Listed(PoolsOf(blocks), address)
  }

  ghost predicate Listed(pools: seq<NewPool>, address: string) {
    exists p :: p in pools && p.address == address
  }

  /** The pools known at block j of batch i, when those of the first r batches are in the table. */
  function KnownAt(stored: Pools, batches: seq<Batch>, r: nat, i: nat, j: nat): Pools
    requires r <= i < |batches| && j < |batches[i]|
  {
    Extended(Kept(stored, PoolsOf(Flat(batches[..r]))), PoolsOf(batches[i][..j + 1]))
  }

  /** The pools known there when all batches are read as one. */
  function KnownInOne(stored: Pools, batches: seq<Batch>, i: nat, j: nat): Pools
    requires i < |batches| && j < |batches[i]|
  {
    Extended(Extended(stored, PoolsOf(Flat(batches[..i]))), PoolsOf(batches[i][..j + 1]))
  }

  /** A swap that reading all batches as one finds and this reading does not. */
  predicate Lost(e: Event, now: Pools, inOne: Pools) {
    ParseSwap(e, inOne).Some? && ParseSwap(e, now).None?
  }

  lemma {:induction false} FlatSplit(batches: seq<Batch>, r: nat, i: nat)
    requires r <= i <= |batches|
    ensures Flat(batches[..i]) == Flat(batches[..r]) + Flat(batches[r..i])
    decreases i
  {
    if r == i {
      assert batches[r..i] == [];
    } else {
      FlatSplit(batches, r, i - 1);
      assert batches[..i][..i - 1] == batches[..i - 1] && batches[r..i][..i - 1 - r] == batches[r..i - 1];
    }
  }

  /** The pools at a point of a batch, cut into those of the table, those not seen, and the batch's own. */
  lemma CreatedBefore(stored: Pools, batches: seq<Batch>, r: nat, i: nat, j: nat)
    requires r <= i < |batches| && j < |batches[i]|
    ensures PoolsOf(Flat(batches[..i])) == PoolsOf(Flat(batches[..r])) + PoolsOf(Flat(batches[r..i]))
    ensures forall p :: p in PoolsOf(batches[i][..j + 1]) || p in PoolsOf(Flat(batches[..i])) ==>
                  p in PoolsOf(Flat(batches))
  {
    hide PoolsOf, Flat;
    FlatSplit(batches, r, i);
    BatchesCompose(stored, Flat(batches[..r]), Flat(batches[r..i]));
    FlatSplit(batches, i + 1, |batches|);
    assert batches[..|batches|] == batches;
    FlatOneMore(batches, i);
    BatchesCompose(stored, Flat(batches[..i + 1]), Flat(batches[i + 1..|batches|]));
    BatchesCompose(stored, Flat(batches[..i]), batches[i]);
    assert batches[i] == batches[i][..j + 1] + batches[i][j + 1..];
    BatchesCompose(stored, batches[i][..j + 1], batches[i][j + 1..]);
  }

  lemma FlatOneMore(batches: seq<Batch>, i: nat)
    requires i < |batches|
    ensures Flat(batches[..i + 1]) == Flat(batches[..i]) + batches[i]
  {
    assert batches[..i + 1][..i] == batches[..i];
  }

  lemma AgreeingPart(stored: Pools, all: seq<NewPool>, part: seq<NewPool>)
    requires Agreeing(stored, all) && forall p :: p in part ==> p in all
    ensures Agreeing(stored, part)
  {
  }

  /** What is known at a point: the stored pools and those created so far, as they are defined. */
  lemma KnownAre(stored: Pools, a: seq<NewPool>, b: seq<NewPool>, x: string)
    requires Agreeing(stored, a + b)
    ensures Extended(Kept(stored, a), b) == Extended(Extended(stored, a), b) == Kept(stored, a + b)
    ensures x in Kept(stored, a + b) <==> x in stored || Listed(a + b, x)
  {
    hide Kept, Extended;
    AgreeingPart(stored, a + b, a);
    AgreeingKept(stored, a);
    AgreeingKept(stored, a + b);
    ExtendedConcat(stored, a, b);
    KeptKeys(stored, a + b);
  }

  /** With every pool defined in one way only, a swap is never misread. It is lost exactly if its pool
      is created in an earlier batch that was not in the table when the batch was read, and nowhere
      that was: not before the run, not in a batch that was, and not in the batch itself so far. */
  lemma SwapLostIff(stored: Pools, batches: seq<Batch>, r: nat, i: nat, j: nat, e: Event)
    requires r <= i < |batches| && j < |batches[i]|
    requires Agreeing(stored, PoolsOf(Flat(batches)))
    ensures var now, inOne := KnownAt(stored, batches, r, i, j), KnownInOne(stored, batches, i, j);
            && (ParseSwap(e, now).Some? ==> ParseSwap(e, now) == ParseSwap(e, inOne))
            && (Lost(e, now, inOne) <==>
                ParseSwap(e, inOne).Some? && Creates(Flat(batches[r..i]), e.contract)
                && e.contract !in stored && !Creates(Flat(batches[..r]), e.contract)
                && !Creates(batches[i][..j + 1], e.contract))
  {
    hide PoolsOf, Kept, Extended, Flat, Agreeing, Listed, ParseSwap;
    var early, late, own := PoolsOf(Flat(batches[..r])), PoolsOf(Flat(batches[r..i])), PoolsOf(batches[i][..j + 1]);
    CreatedBefore(stored, batches, r, i, j);
    AgreeingPart(stored, PoolsOf(Flat(batches)), early + late + own);
    if e.Traded? {
      KnownWithin(stored, early, late, own, e.contract);
      ParseWithin(e, KnownAt(stored, batches, r, i, j), KnownInOne(stored, batches, i, j));
    } else {
      NotParsed(e, KnownAt(stored, batches, r, i, j));
      NotParsed(e, KnownInOne(stored, batches, i, j));
    }
  }

  lemma NotParsed(e: Event, pools: Pools)
    requires !e.Traded?
    ensures ParseSwap(e, pools).None?
  {
  }

  lemma ParseWithin(e: Event, now: Pools, inOne: Pools)
    requires e.Traded? && (e.contract in now ==> e.contract in inOne && now[e.contract] == inOne[e.contract])
    ensures ParseSwap(e, now).Some? ==> ParseSwap(e, now) == ParseSwap(e, inOne)
    ensures Lost(e, now, inOne) <==> ParseSwap(e, inOne).Some? && e.contract !in now && e.contract in inOne
  {
  }

  lemma KnownWithin(stored: Pools, early: seq<NewPool>, late: seq<NewPool>, own: seq<NewPool>, x: string)
    requires Agreeing(stored, early + late + own)
    ensures var now, inOne := Extended(Kept(stored, early), own), Extended(Extended(stored, early + late), own);
            && (x in now ==> x in inOne && now[x] == inOne[x])
            && (x in inOne && x !in now <==>
                x !in stored && Listed(late, x) && !Listed(early, x) && !Listed(own, x))
  {
    hide Kept, Extended, Agreeing, Listed;
    AgreeingPart(stored, early + late + own, early + own);
    KnownAre(stored, early + late, own, x);
    KnownAre(stored, early, own, x);
    SplitCreates(early, late, own, x);
    if x in Kept(stored, early + own) {
      ValuesAgree(stored, early, late, own, x);
    }
  }

  lemma ValuesAgree(stored: Pools, early: seq<NewPool>, late: seq<NewPool>, own: seq<NewPool>, x: string)
    requires Agreeing(stored, early + late + own) && x in Kept(stored, early + own)
    ensures x in Kept(stored, early + late + own)
    ensures Kept(stored, early + own)[x] == Kept(stored, early + late + own)[x]
  {
    hide Kept;
    AgreeingPart(stored, early + late + own, early + own);
    AgreeingKept(stored, early + late + own);
    AgreeingKept(stored, early + own);
    KeptKeys(stored, early + own);
    if x !in stored {
      var p: NewPool :| p in early + own && p.address == x;
      assert p in early + late + own;
    }
  }

  lemma SplitCreates(early: seq<NewPool>, late: seq<NewPool>, own: seq<NewPool>, x: string)
    ensures Listed(early + late + own, x) <==> Listed(early, x) || Listed(late, x) || Listed(own, x)
    ensures Listed(early + own, x) <==> Listed(early, x) || Listed(own, x)
  {
    if p :| p in early && p.address == x {
      assert p in early + late + own && p in early + own;
    }
    if p :| p in late && p.address == x {
      assert p in early + late + own;
    }
    if p :| p in own && p.address == x {
      assert p in early + late + own && p in early + own;
    }
  }

  // ----- a whole run against reading everything as one

  /** One table reads of a block what the other does, or nothing. */
  ghost predicate NeverMisread(block: Block, now: Pools, inOne: Pools) {
    forall k :: 0 <= k < |block| ==>
                ParseSwap(block[k], now).Some? ==> ParseSwap(block[k], now) == ParseSwap(block[k], inOne)
  }

  ghost predicate NoneLost(block: Block, now: Pools, inOne: Pools) {
    forall k :: 0 <= k < |block| ==> !Lost(block[k], now, inOne)
  }

  lemma {:induction false} FewerInBlock(block: Block, now: Pools, inOne: Pools)
    requires NeverMisread(block, now, inOne)
    ensures |ExtractSwaps(block, now)| <= |ExtractSwaps(block, inOne)|
    ensures NoneLost(block, now, inOne) <==> |ExtractSwaps(block, now)| == |ExtractSwaps(block, inOne)|
    ensures NoneLost(block, now, inOne) ==> ExtractSwaps(block, now) == ExtractSwaps(block, inOne)
  {
    hide ParseSwap;
    if block != [] {
      var front, e := block[..|block| - 1], block[|block| - 1];
      assert block == front + [e];
      FewerInBlock(front, now, inOne);
      assert ParseSwap(e, now).Some? ==> ParseSwap(e, now) == ParseSwap(e, inOne);
      assert NoneLost(block, now, inOne) <==> NoneLost(front, now, inOne) && !Lost(e, now, inOne) by {
        if NoneLost(front, now, inOne) && !Lost(e, now, inOne) {
          forall k | 0 <= k < |block| ensures !Lost(block[k], now, inOne) {
            assert k < |front| ==> front[k] == block[k];
          }
        }
      }
    }
  }

  /** Block j of a batch, read on from two tables. */
  function At(pools: Pools, batch: Batch, j: nat): Pools
    requires j < |batch|
  {
    Extended(pools, PoolsOf(batch[..j + 1]))
  }

  ghost predicate BatchNeverMisread(batch: Batch, now: Pools, inOne: Pools) {
    forall j :: 0 <= j < |batch| ==> NeverMisread(batch[j], At(now, batch, j), At(inOne, batch, j))
  }

  ghost predicate BatchNoneLost(batch: Batch, now: Pools, inOne: Pools) {
    forall j :: 0 <= j < |batch| ==> NoneLost(batch[j], At(now, batch, j), At(inOne, batch, j))
  }

  lemma {:induction false} FewerInBatch(batch: Batch, now: Pools, inOne: Pools)
    requires BatchNeverMisread(batch, now, inOne)
    ensures |SwapsOf(now, batch)| <= |SwapsOf(inOne, batch)|
    ensures BatchNoneLost(batch, now, inOne) <==> |SwapsOf(now, batch)| == |SwapsOf(inOne, batch)|
    ensures BatchNoneLost(batch, now, inOne) ==> SwapsOf(now, batch) == SwapsOf(inOne, batch)
  {
    hide NeverMisread, NoneLost, ExtractSwaps, Extended, PoolsOf;
    if batch != [] {
      var n := |batch| - 1;
      var front := batch[..n];
      assert batch[..n + 1] == batch;
      assert forall j :: 0 <= j < n ==> front[j] == batch[j] && front[..j + 1] == batch[..j + 1];
      FewerInBatch(front, now, inOne);
      FewerInBlock(batch[n], At(now, batch, n), At(inOne, batch, n));
    }
  }

  /** The table batch i is read against, and the one it would be read against in memory. */
  function TableSeen(stored: Pools, batches: seq<Batch>, r: nat): Pools
    requires r <= |batches|
  {
    Kept(stored, PoolsOf(Flat(batches[..r])))
  }

  function TableInOne(stored: Pools, batches: seq<Batch>, i: nat): Pools
    requires i <= |batches|
  {
    Extended(stored, PoolsOf(Flat(batches[..i])))
  }

  lemma RunNeverMisreads(stored: Pools, batches: seq<Batch>, r: nat, i: nat)
    requires r <= i < |batches| && Agreeing(stored, PoolsOf(Flat(batches)))
    ensures BatchNeverMisread(batches[i], TableSeen(stored, batches, r), TableInOne(stored, batches, i))
  {
    hide Agreeing, PoolsOf, Kept, Extended, ParseSwap, Flat, Lost;
    forall j, k | 0 <= j < |batches[i]| && 0 <= k < |batches[i][j]|
      ensures var now, inOne := KnownAt(stored, batches, r, i, j), KnownInOne(stored, batches, i, j);
              ParseSwap(batches[i][j][k], now).Some? ==>
                ParseSwap(batches[i][j][k], now) == ParseSwap(batches[i][j][k], inOne)
    {
      SwapLostIff(stored, batches, r, i, j, batches[i][j][k]);
    }
  }

  function AllSwaps(outputs: seq<Output>): seq<Indexed> {
    if outputs == [] then [] else AllSwaps(outputs[..|outputs| - 1]) + outputs[|outputs| - 1].swaps
  }

  /** Of the first n batches no swap is lost. */
  ghost predicate RunNoneLost(stored: Pools, batches: seq<Batch>, seen: seq<nat>, n: nat)
    requires n <= |seen| && n <= |batches| && forall i :: 0 <= i < n ==> seen[i] <= i
  {
    forall i :: 0 <= i < n ==>
      BatchNoneLost(batches[i], TableSeen(stored, batches, seen[i]), TableInOne(stored, batches, i))
  }

  lemma RunNoneLostOneMore(stored: Pools, batches: seq<Batch>, seen: seq<nat>, n: nat)
    requires 0 < n <= |seen| && n <= |batches| && forall i :: 0 <= i < n ==> seen[i] <= i
    ensures RunNoneLost(stored, batches, seen, n)
            <==> RunNoneLost(stored, batches, seen, n - 1)
                 && BatchNoneLost(batches[n - 1], TableSeen(stored, batches, seen[n - 1]),
                                  TableInOne(stored, batches, n - 1))
  {
    hide BatchNoneLost, TableSeen, TableInOne;
  }

  /** The swaps of the first n batches, from the outputs and read as one. */
  lemma SwapsOneMore(stored: Pools, batches: seq<Batch>, produced: seq<Output>, seen: seq<nat>, n: nat)
    requires ReadFrom(stored, batches, produced, seen) && 0 < n <= |produced|
    ensures FirstSwaps(produced, n)
         == FirstSwaps(produced, n - 1) + SwapsOf(TableSeen(stored, batches, seen[n - 1]), batches[n - 1])
    ensures InOne(stored, batches, n)
         == InOne(stored, batches, n - 1) + SwapsOf(TableInOne(stored, batches, n - 1), batches[n - 1])
  {
    hide PoolsOf, Kept, Extended, SwapsOf;
    var i := n - 1;
    assert produced[i] == Output(PoolsOf(batches[i]), SwapsSeeing(stored, batches, seen[i], i));
    assert produced[..n][..i] == produced[..i] && batches[..n][..i] == batches[..i];
    BatchesCompose(stored, Flat(batches[..i]), batches[i]);
  }

  /** Lists are as long as others exactly under a condition if their parts are. */
  lemma PartsShorter(a: seq<Indexed>, x: seq<Indexed>, b: seq<Indexed>, y: seq<Indexed>, p: bool, q: bool)
    requires |a| <= |b| && |x| <= |y|
    requires (p <==> |a| == |b|) && (p ==> a == b)
    requires (q <==> |x| == |y|) && (q ==> x == y)
    ensures |a + x| <= |b + y|
    ensures p && q <==> |a + x| == |b + y|
    ensures p && q ==> a + x == b + y
  {
  }

  /** The first n batches read as one. */
  function InOne(stored: Pools, batches: seq<Batch>, n: nat): seq<Indexed>
    requires n <= |batches|
  {
    SwapsOf(stored, Flat(batches[..n]))
  }

  function FirstSwaps(outputs: seq<Output>, n: nat): seq<Indexed>
    requires n <= |outputs|
  {
    AllSwaps(outputs[..n])
  }

  lemma {:induction false} FewerInRun(stored: Pools, batches: seq<Batch>, produced: seq<Output>, seen: seq<nat>, n: nat)
    requires ReadFrom(stored, batches, produced, seen) && n <= |produced|
    requires Agreeing(stored, PoolsOf(Flat(batches)))
    ensures |FirstSwaps(produced, n)| <= |InOne(stored, batches, n)|
    ensures RunNoneLost(stored, batches, seen, n) <==> |FirstSwaps(produced, n)| == |InOne(stored, batches, n)|
    ensures RunNoneLost(stored, batches, seen, n) ==> FirstSwaps(produced, n) == InOne(stored, batches, n)
  {
    hide *;
    ReadFromLengths(stored, batches, produced, seen);
    if n > 0 {
      var i := n - 1;
      FewerInRun(stored, batches, produced, seen, i);
      RunNeverMisreads(stored, batches, seen[i], i);
      var now, inOne := TableSeen(stored, batches, seen[i]), TableInOne(stored, batches, i);
      FewerInBatch(batches[i], now, inOne);
      RunNoneLostOneMore(stored, batches, seen, n);
      SwapsOneMore(stored, batches, produced, seen, n);
      PartsShorter(FirstSwaps(produced, i), SwapsOf(now, batches[i]), InOne(stored, batches, i),
                   SwapsOf(inOne, batches[i]),
                   RunNoneLost(stored, batches, seen, i), BatchNoneLost(batches[i], now, inOne));
    } else {
      NothingRead(stored, batches, produced, seen);
    }
  }

  lemma NothingRead(stored: Pools, batches: seq<Batch>, produced: seq<Output>, seen: seq<nat>)
    ensures InOne(stored, batches, 0) == [] && FirstSwaps(produced, 0) == []
    ensures RunNoneLost(stored, batches, seen, 0)
  {
  }

  /** In any interleaving in which run returns Ok, with every pool defined in one way only: what is
      stored are the swaps of all batches read as one, exactly if no swap is lost; otherwise some of
      them are missing, and nothing reports it. */
  lemma RunStoresAllIff(stored: Pools, batches: seq<Batch>, steps: seq<P.Step>)
    requires Agreeing(stored, PoolsOf(Flat(batches)))
    requires P.Possible(P.Initial(batches), steps, Reader(stored))
    requires P.Exec(P.Initial(batches), steps, Reader(stored)).result == P.Returned(true)
    ensures var s := P.Exec(P.Initial(batches), steps, Reader(stored));
            && ReadFrom(stored, batches, s.stored, s.seen) && |s.stored| == |batches|
            && (AllSwaps(s.stored) == SwapsOf(stored, Flat(batches))
                <==> RunNoneLost(stored, batches, s.seen, |batches|))
            && |AllSwaps(s.stored)| <= |SwapsOf(stored, Flat(batches))|
  {
    hide Agreeing, PoolsOf, Kept, Extended, SwapsOf, BatchNoneLost, P.Possible, P.Exec, P.Made, ReadFrom;
    var s := P.Exec(P.Initial(batches), steps, Reader(stored));
    P.StoredInOrder(batches, steps, Reader(stored));
    MadeIsReadFrom(stored, batches, s.produced, s.seen);
    ReadFromLengths(stored, batches, s.produced, s.seen);
    assert s.stored == s.produced[..|batches|] == s.produced && batches[..|batches|] == batches;
    FewerInRun(stored, batches, s.produced, s.seen, |batches|);
  }

  lemma ReadFromLengths(stored: Pools, batches: seq<Batch>, produced: seq<Output>, seen: seq<nat>)
    requires ReadFrom(stored, batches, produced, seen)
    ensures |seen| == |produced| <= |batches| && forall i :: 0 <= i < |seen| ==> seen[i] <= i
  {
  }

  // ----- a run that loses a swap

  lemma TakeStep<B, O>(s: P.State<B, O>, step: P.Step, rest: seq<P.Step>, process: P.Process<B, O>)
    requires P.Enabled(s, step) && P.Possible(P.Next(s, step, process), rest, process)
    ensures P.Possible(s, [step] + rest, process)
    ensures P.Exec(s, [step] + rest, process) == P.Exec(P.Next(s, step, process), rest, process)
  {
    assert ([step] + rest)[1..] == rest;
  }

  /** The second batch is processed before the first one is stored. */
  function AheadOfStorage(): seq<P.Step> {
    [P.Fill] + ([P.Fill] + ([P.Spawn] + ([P.Take] + ([P.ProcessOk(false)] + ([P.Pass] + ([P.Take]
    + ([P.ProcessOk(false)] + ([P.Pass] + ([P.Drain] + ([P.Fetch] + ([P.StoreOk] + ([P.Fetch] + ([P.StoreOk]
    + ([P.Close] + ([P.Join] + [])))))))))))))))
  }

  lemma AheadOfStorageRuns<B, O>(x: B, y: B, process: P.Process<B, O>)
    ensures P.Possible(P.Initial<B, O>([x, y]), AheadOfStorage(), process)
    ensures var s := P.Exec(P.Initial<B, O>([x, y]), AheadOfStorage(), process);
            s.result == P.Returned(true) && s.stored == [process(x, []), process(y, [])] && s.seen == [0, 0]
  {
    hide P.Possible, P.Exec;
    var mid := Produced(x, y, process);
    var tail := [P.Fetch] + ([P.StoreOk] + ([P.Fetch] + ([P.StoreOk] + ([P.Close] + ([P.Join] + [])))));
    StoreBoth(mid, process(x, []), process(y, []), process, tail);
    ProduceBoth(x, y, process, tail);
  }

  /** Both batches are processed, and nothing is stored. */
  function Produced<B, O>(x: B, y: B, process: P.Process<B, O>): P.State<B, O> {
    var a, b := process(x, []), process(y, []);
    P.State([], [], true, P.Finished(true), [a, b], P.Waiting, [], [a, b], [0, 0], P.Running)
  }

  lemma Nothing<B, O>(s: P.State<B, O>, process: P.Process<B, O>)
    ensures P.Possible(s, [], process) && P.Exec(s, [], process) == s
  {
  }

  /** The storage task, with the processor done, stores its next output. */
  lemma StoreNext<B, O>(s: P.State<B, O>, t: P.State<B, O>, rest: seq<P.Step>, process: P.Process<B, O>)
    requires s.spawned && s.processor == P.Finished(true) && s.storage == P.Waiting && s.result == P.Running
    requires s.toStore != [] && t == s.(toStore := s.toStore[1..], stored := s.stored + [s.toStore[0]])
    requires P.Possible(t, rest, process)
    ensures P.Possible(s, [P.Fetch] + ([P.StoreOk] + rest), process)
    ensures P.Exec(s, [P.Fetch] + ([P.StoreOk] + rest), process) == P.Exec(t, rest, process)
  {
    hide P.Possible, P.Exec;
    TakeStep(P.Next(s, P.Fetch, process), P.StoreOk, rest, process);
    TakeStep(s, P.Fetch, [P.StoreOk] + rest, process);
  }

  lemma StoreBoth<B, O>(s: P.State<B, O>, a: O, b: O, process: P.Process<B, O>, tail: seq<P.Step>)
    requires s.spawned && s.processor == P.Finished(true) && s.storage == P.Waiting && s.result == P.Running
    requires s.toStore == [a, b] && s.stored == []
    requires tail == [P.Fetch] + ([P.StoreOk] + ([P.Fetch] + ([P.StoreOk] + ([P.Close] + ([P.Join] + [])))))
    ensures P.Possible(s, tail, process)
    ensures P.Exec(s, tail, process)
         == s.(toStore := [], storage := P.Stopped(true, []), stored := [a, b], result := P.Returned(true))
  {
    hide P.Possible, P.Exec;
    var t, u := s.(toStore := [b], stored := [a]), s.(toStore := [], stored := [a, b]);
    var v := P.Next(u, P.Close, process);
    Nothing(P.Next(v, P.Join, process), process);
    TakeStep(v, P.Join, [], process);
    TakeStep(u, P.Close, [P.Join] + [], process);
    assert [a, b][1..] == [b] && [b][1..] == [] && [a] + [b] == [a, b];
    StoreNext(t, u, [P.Close] + ([P.Join] + []), process);
    StoreNext(s, t, [P.Fetch] + ([P.StoreOk] + ([P.Close] + ([P.Join] + []))), process);
  }

  lemma ProduceBoth<B, O>(x: B, y: B, process: P.Process<B, O>, tail: seq<P.Step>)
    requires P.Possible(Produced(x, y, process), tail, process)
    requires tail == [P.Fetch] + ([P.StoreOk] + ([P.Fetch] + ([P.StoreOk] + ([P.Close] + ([P.Join] + [])))))
    ensures P.Possible(P.Initial<B, O>([x, y]), AheadOfStorage(), process)
    ensures P.Exec(P.Initial<B, O>([x, y]), AheadOfStorage(), process) == P.Exec(Produced(x, y, process), tail, process)
  {
    hide P.Possible, P.Exec;
    var s0: P.State<B, O> := P.Initial([x, y]);
    var s1 := P.Next(s0, P.Fill, process);
    var s2 := P.Next(s1, P.Fill, process);
    var s3 := P.Next(s2, P.Spawn, process);
    var s4 := P.Next(s3, P.Take, process);
    var s5 := P.Next(s4, P.ProcessOk(false), process);
    var s6 := P.Next(s5, P.Pass, process);
    var s7 := P.Next(s6, P.Take, process);
    var s8 := P.Next(s7, P.ProcessOk(false), process);
    var s9 := P.Next(s8, P.Pass, process);
    var s10 := P.Next(s9, P.Drain, process);
    assert s10 == Produced(x, y, process);
    hide P.Next, P.Enabled, Produced;
    TakeStep(s9, P.Drain, tail, process);
    TakeStep(s8, P.Pass, [P.Drain] + tail, process);
    TakeStep(s7, P.ProcessOk(false), [P.Pass] + ([P.Drain] + tail), process);
    TakeStep(s6, P.Take, [P.ProcessOk(false)] + ([P.Pass] + ([P.Drain] + tail)), process);
    var rest := [P.Take] + ([P.ProcessOk(false)] + ([P.Pass] + ([P.Drain] + tail)));
    TakeStep(s5, P.Pass, rest, process);
    TakeStep(s4, P.ProcessOk(false), [P.Pass] + rest, process);
    TakeStep(s3, P.Take, [P.ProcessOk(false)] + ([P.Pass] + rest), process);
    TakeStep(s2, P.Spawn, [P.Take] + ([P.ProcessOk(false)] + ([P.Pass] + rest)), process);
    TakeStep(s1, P.Fill, [P.Spawn] + ([P.Take] + ([P.ProcessOk(false)] + ([P.Pass] + rest))), process);
    TakeStep(s0, P.Fill, [P.Fill] + ([P.Spawn] + ([P.Take] + ([P.ProcessOk(false)] + ([P.Pass] + rest)))), process);
  }

  /** A swap is lost for good: its pool is created in the first batch and used in the second, which is
      read before the first one is stored. The run returns Ok. */
  lemma SwapLost(pool: NewPool, e: Event)
    requires pool == NewPool("p", Pool("A", "B", Ayin))
    requires e == Traded("p", AYIN_INDEX, "t", "u", 1.0, 0.0, 0.0, 1.0)
    ensures var batches: seq<Batch> := [[[Created(pool)]], [[e]]];
            && P.Possible(P.Initial(batches), AheadOfStorage(), Reader(map[]))
            && var s := P.Exec(P.Initial(batches), AheadOfStorage(), Reader(map[]));
            && s.result == P.Returned(true) && AllSwaps(s.stored) == [] && |SwapsOf(map[], Flat(batches))| == 1
  {
    hide P.Possible, P.Exec, AheadOfStorage;
    var first: Batch, second: Batch := [[Created(pool)]], [[e]];
    AheadOfStorageRuns(first, second, Reader(map[]));
    var a, b := ReadBatch(map[], first, []), ReadBatch(map[], second, []);
    OneCreated(pool);
    OneSwapBlock(e, map[]);
    OneSwapBlock(e, map["p" := pool.pool]);
    BatchesCompose(map[], first, second);
    FlatTwo(first, second);
    TwoOutputs(a, b);
    assert a.swaps == [] && b.swaps == [];
  }

  lemma OneCreated(pool: NewPool)
    ensures PoolsOf([[Created(pool)]]) == [pool] && Extended(map[], [pool]) == map[pool.address := pool.pool]
    ensures SwapsOf(map[], [[Created(pool)]]) == []
  {
    var none: seq<Block>, empty: Block := [], [];
    assert [[Created(pool)]][..0] == none && [Created(pool)][..0] == empty && [pool][..0] == [];
    assert ExtractPools([Created(pool)]) == [pool];
    assert SwapsOf(map[], none) == [];
    assert forall pools :: ExtractSwaps([Created(pool)], pools) == ExtractSwaps(empty, pools) == [];
  }

  lemma FlatTwo(x: Batch, y: Batch)
    ensures Flat([x, y]) == x + y
  {
    var none: seq<Batch> := [];
    assert [x, y][..1] == [x] && [x][..0] == none;
    assert Flat([x]) == x;
  }

  lemma TwoOutputs(a: Output, b: Output)
    ensures AllSwaps([a, b]) == a.swaps + b.swaps
  {
    assert [a, b][..1] == [a] && [a][..0] == [];
    assert AllSwaps([a]) == a.swaps;
  }
}
