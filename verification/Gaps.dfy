/** Gap detection per chain (the LAG query and its grouping) and the backfill of what it finds. */
module Gaps {
  import opened Lists
  import opened StableSort

  datatype Chain = Chain(chainFrom: int, chainTo: int)

  /** The blocks table, as far as the query reads it; a height can occur more than once. */
  datatype BlockRow = BlockRow(chain: Chain, height: int)

  // ----- the query for one chain

  /** `WHERE height >= min`, for one chain. */
  function HeightsFrom(table: seq<BlockRow>, c: Chain, min: int): seq<int> {
    if table == [] then [] else
      var rest, r := HeightsFrom(table[..|table| - 1], c, min), table[|table| - 1];
      if r.chain == c && r.height >= min then rest + [r.height] else rest
  }

  /** `generate_series(a, b)`. */
  function Series(a: int, b: int): (s: seq<int>)
    ensures forall i :: 0 <= i < |s| ==> s[i] == a + i
    ensures |s| == if a <= b then b - a + 1 else 0
    decreases b - a
  {
    if a > b then [] else [a] + Series(a + 1, b)
  }

  /** Each height compared with the one before it (LAG), wider steps expanded. */
  function Expand(s: seq<int>): seq<int> {
    if |s| < 2 then [] else
      (if s[1] - s[0] > 1 then Series(s[0] + 1, s[1] - 1) else []) + Expand(s[1..])
  }

  function AtLeast(s: seq<int>, min: int): seq<int> {
    if s == [] then [] else (if s[0] >= min then [s[0]] else []) + AtLeast(s[1..], min)
  }

  function MissingHeights(table: seq<BlockRow>, c: Chain, min: int): seq<int> {
    AtLeast(Expand(Sort(HeightsFrom(table, c, min), Identity)), min)
  }

  // ----- what it finds

  ghost predicate Has(table: seq<BlockRow>, c: Chain, min: int, h: int) {
    h >= min && BlockRow(c, h) in table
  }

  /** h is absent and lies between two stored heights at or above the minimum. */
  ghost predicate IsGap(table: seq<BlockRow>, c: Chain, min: int, h: int) {
    && !Has(table, c, min, h)
    && exists lo, hi :: lo < h < hi && Has(table, c, min, lo) && Has(table, c, min, hi)
  }

  lemma {:induction false} HeightsFromHas(table: seq<BlockRow>, c: Chain, min: int, h: int)
    ensures h in HeightsFrom(table, c, min) <==> Has(table, c, min, h)
  {
    if table != [] {
      HeightsFromHas(table[..|table| - 1], c, min, h);
      assert table == table[..|table| - 1] + [table[|table| - 1]];
    }
  }

  /** h is not in s, but between its ends. */
  ghost predicate InSpan(s: seq<int>, h: int) {
    |s| >= 2 && h !in s && s[0] < h < s[|s| - 1]
  }

  lemma SeriesMembers(a: int, b: int, h: int)
    ensures h in Series(a, b) <==> a <= h <= b
  {
    if a <= h <= b {
      assert Series(a, b)[h - a] == h;
    }
  }

  lemma InTail(s: seq<int>, h: int)
    requires s != []
    ensures h in s <==> h == s[0] || h in s[1..]
  {
    assert s == [s[0]] + s[1..];
  }

  lemma SpanSplit(s: seq<int>, h: int)
    requires |s| >= 2 && Sorted(s, Identity)
    ensures InSpan(s, h) <==> s[0] < h < s[1] || InSpan(s[1..], h)
    ensures Sorted(s[1..], Identity)
  {
    InTail(s, h);
    var rest := s[1..];
    assert Identity(s[0]) <= Identity(s[1]) && (|s| > 2 ==> Identity(s[1]) <= Identity(s[|s| - 1]));
    forall i, j | 0 <= i < j < |rest| ensures Identity(rest[i]) <= Identity(rest[j]) {
      assert Identity(s[i + 1]) <= Identity(s[j + 1]);
    }
    assert forall i :: 0 <= i < |rest| ==> Identity(rest[0]) <= Identity(rest[i]);
  }

  lemma {:induction false} ExpandIsSpan(s: seq<int>, h: int)
    requires Sorted(s, Identity)
    ensures h in Expand(s) <==> InSpan(s, h)
  {
    if |s| >= 2 {
      SeriesMembers(s[0] + 1, s[1] - 1, h);
      SpanSplit(s, h);
      ExpandIsSpan(s[1..], h);
    }
  }

  lemma {:induction false} ExpandIncreasing(s: seq<int>)
    requires Sorted(s, Identity)
    ensures Increasing(Expand(s))
  {
    if |s| >= 2 {
      var rest := Expand(s[1..]);
      SpanSplit(s, s[0]);
      ExpandIncreasing(s[1..]);
      forall j | 0 <= j < |rest| ensures rest[j] > s[1] {
        assert rest[j] in rest;
        ExpandIsSpan(s[1..], rest[j]);
      }
    }
  }

  lemma {:induction false} AtLeastAll(s: seq<int>, min: int)
    requires forall i :: 0 <= i < |s| ==> s[i] >= min
    ensures AtLeast(s, min) == s
  {
    if s != [] {
      AtLeastAll(s[1..], min);
    }
  }

  lemma SpanIsGap(s: seq<int>, table: seq<BlockRow>, c: Chain, min: int, h: int)
    requires Sorted(s, Identity) && forall x :: x in s <==> Has(table, c, min, x)
    ensures InSpan(s, h) <==> IsGap(table, c, min, h)
  {
    if InSpan(s, h) {
      assert Has(table, c, min, s[0]) && Has(table, c, min, s[|s| - 1]);
    }
    if IsGap(table, c, min, h) {
      var lo, hi :| lo < h < hi && Has(table, c, min, lo) && Has(table, c, min, hi);
      var i :| 0 <= i < |s| && s[i] == lo;
      var j :| 0 <= j < |s| && s[j] == hi;
      assert i > 0 ==> Identity(s[0]) <= Identity(s[i]);
      assert j < |s| - 1 ==> Identity(s[j]) <= Identity(s[|s| - 1]);
    }
  }

  /** The detected heights are strictly increasing and are exactly the chain's gaps. */
  lemma DetectsGaps(table: seq<BlockRow>, c: Chain, min: int)
    ensures Increasing(MissingHeights(table, c, min))
    ensures forall h :: h in MissingHeights(table, c, min) <==> IsGap(table, c, min, h)
  {
    hide IsGap, Has, Expand;
    var heights := HeightsFrom(table, c, min);
    var s := Sort(heights, Identity);
    SortFacts(heights, Identity);
    SortMembers(heights, Identity);
    ExpandIncreasing(s);
    forall h ensures h in s <==> Has(table, c, min, h) {
      HeightsFromHas(table, c, min, h);
    }
    forall h ensures h in Expand(s) <==> IsGap(table, c, min, h) {
      ExpandIsSpan(s, h);
      SpanIsGap(s, table, c, min, h);
    }
    forall i | 0 <= i < |Expand(s)| ensures Expand(s)[i] >= min {
      assert Expand(s)[i] in Expand(s);
      GapAboveMin(table, c, min, Expand(s)[i]);
    }
    AtLeastAll(Expand(s), min);
  }

  lemma GapAboveMin(table: seq<BlockRow>, c: Chain, min: int, h: int)
    requires IsGap(table, c, min, h)
    ensures h > min
  {
  }

  // ----- storing blocks at gaps

  /** after holds what before held, and nothing else but blocks at gaps. */
  ghost predicate FillsGaps(before: seq<BlockRow>, after: seq<BlockRow>, min: int) {
    && (forall r :: r in before ==> r in after)
    && (forall r :: r in after ==> r in before || IsGap(before, r.chain, min, r.height))
  }

  /** A stored height lies between two heights that were stored before. */
  lemma Widen(before: seq<BlockRow>, after: seq<BlockRow>, min: int, c: Chain, h: int)
    requires FillsGaps(before, after, min) && Has(after, c, min, h)
    ensures exists lo, hi :: lo <= h <= hi && Has(before, c, min, lo) && Has(before, c, min, hi)
  {
    if Has(before, c, min, h) {
      assert h <= h <= h;
    } else {
      var r := BlockRow(c, h);
      assert IsGap(before, r.chain, min, r.height);
      var lo, hi :| lo < h < hi && Has(before, c, min, lo) && Has(before, c, min, hi);
      assert lo <= h <= hi;
    }
  }

  lemma GapsLeft(before: seq<BlockRow>, after: seq<BlockRow>, min: int, c: Chain, h: int)
    requires FillsGaps(before, after, min)
    ensures IsGap(after, c, min, h) <==> IsGap(before, c, min, h) && BlockRow(c, h) !in after
  {
    if IsGap(after, c, min, h) {
      var lo, hi :| lo < h < hi && Has(after, c, min, lo) && Has(after, c, min, hi);
      Widen(before, after, min, c, lo);
      Widen(before, after, min, c, hi);
    }
    if IsGap(before, c, min, h) && BlockRow(c, h) !in after {
      var lo, hi :| lo < h < hi && Has(before, c, min, lo) && Has(before, c, min, hi);
      assert Has(after, c, min, lo) && Has(after, c, min, hi);
    }
  }

  /** A second detection finds exactly the gaps left without a block: storing blocks inside gaps
      opens no new ones. If every gap got its block it finds nothing. */
  lemma SecondDetection(before: seq<BlockRow>, after: seq<BlockRow>, min: int, c: Chain)
    requires FillsGaps(before, after, min)
    ensures forall h :: h in MissingHeights(after, c, min)
                        <==> h in MissingHeights(before, c, min) && BlockRow(c, h) !in after
    ensures (forall h :: h in MissingHeights(before, c, min) ==> BlockRow(c, h) in after)
            ==> MissingHeights(after, c, min) == []
  {
    hide MissingHeights, IsGap;
    DetectsGaps(before, c, min);
    DetectsGaps(after, c, min);
    forall h ensures IsGap(after, c, min, h) <==> IsGap(before, c, min, h) && BlockRow(c, h) !in after {
      GapsLeft(before, after, min, c, h);
    }
    NoNumbers(MissingHeights(after, c, min));
  }

  // ----- the detection as it runs

  datatype MissingRow = MissingRow(chain: Chain, height: int)

  /** One entry of the report; its `total_missing` is the length of the list. */
  datatype BlockGap = BlockGap(chain: Chain, missing: seq<int>)

  /** The heights of the rows of one chain, in order. */
  function HeightsOf(rows: seq<MissingRow>, c: Chain): seq<int> {
    if rows == [] then [] else
      var rest, r := HeightsOf(rows[..|rows| - 1], c), rows[|rows| - 1];
      if r.chain == c then rest + [r.height] else rest
  }

  function Tagged(c: Chain, heights: seq<int>): seq<MissingRow> {
    seq(|heights|, i requires 0 <= i < |heights| => MissingRow(c, heights[i]))
  }

  lemma HeightsOfOneMore(rows: seq<MissingRow>, r: MissingRow, d: Chain)
    ensures HeightsOf(rows + [r], d) == HeightsOf(rows, d) + if r.chain == d then [r.height] else []
  {
    assert (rows + [r])[..|rows|] == rows;
  }

  lemma {:induction false} HeightsOfTagged(rows: seq<MissingRow>, c: Chain, heights: seq<int>, d: Chain)
    ensures HeightsOf(rows + Tagged(c, heights), d) == HeightsOf(rows, d) + if c == d then heights else []
  {
    hide HeightsOf;
    if heights == [] {
      assert rows + Tagged(c, heights) == rows;
    } else {
      var front, last := heights[..|heights| - 1], MissingRow(c, heights[|heights| - 1]);
      HeightsOfTagged(rows, c, front, d);
      HeightsOfOneMore(rows + Tagged(c, front), last, d);
      assert rows + Tagged(c, heights) == rows + Tagged(c, front) + [last];
      assert heights == front + [heights[|heights| - 1]];
    }
  }

  function ChainsIn(table: seq<BlockRow>): (s: set<Chain>)
    ensures forall r :: r in table ==> r.chain in s
  {
    set r | r in table :: r.chain
  }

  lemma NoRowsNoGaps(table: seq<BlockRow>, c: Chain, min: int)
    requires c !in ChainsIn(table)
    ensures MissingHeights(table, c, min) == []
  {
    DetectsGaps(table, c, min);
    NoNumbers(MissingHeights(table, c, min));
  }

  /** rows are every chain's missing heights. */
  ghost predicate RowsOf(rows: seq<MissingRow>, table: seq<BlockRow>, min: int) {
    forall c :: HeightsOf(rows, c) == MissingHeights(table, c, min)
  }

  lemma NoHeights()
    ensures forall c :: HeightsOf([], c) == []
  {
  }

  /** The query over all chains; the chains come in some order. */
  method QueryMissing(table: seq<BlockRow>, min: int) returns (rows: seq<MissingRow>)
    ensures RowsOf(rows, table, min)
  {
    hide MissingHeights, ChainsIn, HeightsOf;
    rows := [];
    var todo := ChainsIn(table);
    NoHeights();
    while todo != {}
      invariant todo <= ChainsIn(table)
      invariant forall c :: HeightsOf(rows, c)
                            == if c in ChainsIn(table) - todo then MissingHeights(table, c, min) else []
    {
      var c :| c in todo;
      forall d ensures HeightsOf(rows + Tagged(c, MissingHeights(table, c, min)), d)
                       == HeightsOf(rows, d) + if c == d then MissingHeights(table, c, min) else []
      {
        HeightsOfTagged(rows, c, MissingHeights(table, c, min), d);
      }
      rows := rows + Tagged(c, MissingHeights(table, c, min));
      todo := todo - {c};
    }
    forall c ensures HeightsOf(rows, c) == MissingHeights(table, c, min) {
      if c !in ChainsIn(table) {
        NoRowsNoGaps(table, c, min);
      }
    }
  }

  function Entry<K, V>(m: map<K, seq<V>>, k: K): seq<V> {
    if k in m then m[k] else []
  }

  ghost predicate NoEmptyEntry<K, V>(m: map<K, seq<V>>) {
    forall k :: k in m ==> m[k] != []
  }

  method GroupByChain(rows: seq<MissingRow>) returns (m: map<Chain, seq<int>>)
    ensures forall c :: Entry(m, c) == HeightsOf(rows, c)
    ensures NoEmptyEntry(m)
  {
    m := map[];
    for i := 0 to |rows|
      invariant forall c :: Entry(m, c) == HeightsOf(rows[..i], c)
      invariant NoEmptyEntry(m)
    {
      assert rows[..i + 1][..i] == rows[..i];
      m := m[rows[i].chain := Entry(m, rows[i].chain) + [rows[i].height]];
    }
    assert rows[..|rows|] == rows;
  }

  ghost predicate Listed(c: Chain, gaps: seq<BlockGap>) {
    exists i :: 0 <= i < |gaps| && gaps[i].chain == c
  }

  lemma ListedOneMore(gaps: seq<BlockGap>, g: BlockGap, c: Chain)
    ensures Listed(c, gaps + [g]) <==> Listed(c, gaps) || g.chain == c
  {
    if Listed(c, gaps) {
      var i :| 0 <= i < |gaps| && gaps[i].chain == c;
      assert (gaps + [g])[i].chain == c;
    }
    assert (gaps + [g])[|gaps|] == g;
  }

  /** gaps has one entry for each chain that misses something, with what it misses. */
  ghost predicate Reports(gaps: seq<BlockGap>, table: seq<BlockRow>, min: int) {
    && (forall i, j :: 0 <= i < j < |gaps| ==> gaps[i].chain != gaps[j].chain)
    && (forall i :: 0 <= i < |gaps| ==> gaps[i].missing == MissingHeights(table, gaps[i].chain, min) != [])
    && (forall c :: MissingHeights(table, c, min) != [] ==> Listed(c, gaps))
  }

  method DetectBlockGaps(table: seq<BlockRow>, min: int) returns (gaps: seq<BlockGap>)
    ensures Reports(gaps, table, min)
  {
    hide MissingHeights, HeightsOf, Listed;
    var rows := QueryMissing(table, min);
    var m := GroupByChain(rows);
    assert forall c :: Entry(m, c) == MissingHeights(table, c, min);
    gaps := [];
    var todo := m.Keys;
    while todo != {}
      invariant todo <= m.Keys
      invariant forall i, j :: 0 <= i < j < |gaps| ==> gaps[i].chain != gaps[j].chain
      invariant forall i :: 0 <= i < |gaps| ==>
                  gaps[i].chain in m && gaps[i].chain !in todo && gaps[i].missing == m[gaps[i].chain]
      invariant forall c :: c in m && c !in todo ==> Listed(c, gaps)
    {
      var c :| c in todo;
      forall d ensures Listed(d, gaps + [BlockGap(c, m[c])]) <==> Listed(d, gaps) || c == d {
        ListedOneMore(gaps, BlockGap(c, m[c]), d);
      }
      gaps := gaps + [BlockGap(c, m[c])];
      todo := todo - {c};
    }
    forall c | MissingHeights(table, c, min) != [] ensures Listed(c, gaps) {
      assert Entry(m, c) != [];
    }
    forall i | 0 <= i < |gaps| ensures gaps[i].missing == MissingHeights(table, gaps[i].chain, min) != [] {
      assert Entry(m, gaps[i].chain) == m[gaps[i].chain];
    }
  }

  // ----- the backfill of what was detected

  /** The chains that miss a height, in the order of the report. */
  function ChainsMissing(gaps: seq<BlockGap>, h: int): seq<Chain> {
    if gaps == [] then [] else
      var rest, g := ChainsMissing(gaps[..|gaps| - 1], h), gaps[|gaps| - 1];
      if h in g.missing then rest + [g.chain] else rest
  }

  lemma {:induction false} ChainsMissingMembers(gaps: seq<BlockGap>, h: int, c: Chain)
    ensures c in ChainsMissing(gaps, h) <==> exists i :: 0 <= i < |gaps| && gaps[i].chain == c && h in gaps[i].missing
  {
    if gaps != [] {
      var front := gaps[..|gaps| - 1];
      ChainsMissingMembers(front, h, c);
      assert forall i :: 0 <= i < |front| ==> front[i] == gaps[i];
      if i :| 0 <= i < |gaps| && gaps[i].chain == c && h in gaps[i].missing {
        assert i < |front| ==> front[i].chain == c && h in front[i].missing;
      }
    }
  }

  lemma {:induction false} ChainsMissingDistinct(gaps: seq<BlockGap>, h: int)
    requires forall i, j :: 0 <= i < j < |gaps| ==> gaps[i].chain != gaps[j].chain
    ensures Distinct(ChainsMissing(gaps, h))
  {
    if gaps != [] {
      var front := gaps[..|gaps| - 1];
      ChainsMissingDistinct(front, h);
      ChainsMissingMembers(front, h, gaps[|gaps| - 1].chain);
    }
  }

  /** For a detected report: each height's chains are those with a gap there, each once. */
  lemma ChainsMissingAreGaps(gaps: seq<BlockGap>, table: seq<BlockRow>, min: int, h: int)
    requires Reports(gaps, table, min)
    ensures Distinct(ChainsMissing(gaps, h))
    ensures forall c :: c in ChainsMissing(gaps, h) <==> IsGap(table, c, min, h)
  {
    hide MissingHeights, IsGap, ChainsMissing;
    ChainsMissingDistinct(gaps, h);
    forall c ensures c in ChainsMissing(gaps, h) <==> IsGap(table, c, min, h) {
      ChainsMissingMembers(gaps, h, c);
      DetectsGaps(table, c, min);
      if IsGap(table, c, min, h) {
        assert MissingHeights(table, c, min) != [];
        assert Listed(c, gaps);
      }
    }
  }

  /** What the map holds when the first j heights of the entry g are done, after the entries in done. */
  ghost predicate Transposed(m: map<int, seq<Chain>>, done: seq<BlockGap>, g: BlockGap, j: nat)
    requires j <= |g.missing|
  {
    && NoEmptyEntry(m)
    && forall h :: Entry(m, h) == ChainsMissing(done, h) + if h in g.missing[..j] then [g.chain] else []
  }

  lemma TransposedOneMore(m: map<int, seq<Chain>>, done: seq<BlockGap>, g: BlockGap, j: nat)
    requires j < |g.missing| && Increasing(g.missing) && Transposed(m, done, g, j)
    ensures Transposed(m[g.missing[j] := Entry(m, g.missing[j]) + [g.chain]], done, g, j + 1)
  {
    hide ChainsMissing;
    assert g.missing[j] !in g.missing[..j];
    assert g.missing[..j + 1] == g.missing[..j] + [g.missing[j]];
  }

  lemma TransposedEntry(m: map<int, seq<Chain>>, gaps: seq<BlockGap>, i: nat)
    requires i < |gaps| && Transposed(m, gaps[..i], gaps[i], |gaps[i].missing|)
    ensures forall h :: Entry(m, h) == ChainsMissing(gaps[..i + 1], h)
  {
    hide Entry;
    assert gaps[..i + 1][..i] == gaps[..i];
    assert gaps[i].missing[..|gaps[i].missing|] == gaps[i].missing;
  }

  /** From chains with heights to heights with chains. */
  method Transpose(gaps: seq<BlockGap>) returns (m: map<int, seq<Chain>>)
    requires forall i :: 0 <= i < |gaps| ==> Increasing(gaps[i].missing)
    ensures forall h :: Entry(m, h) == ChainsMissing(gaps, h)
    ensures NoEmptyEntry(m)
  {
    hide ChainsMissing, Increasing, NoEmptyEntry, Entry;
    m := map[];
    TransposedNothing();
    for i := 0 to |gaps|
      invariant forall h :: Entry(m, h) == ChainsMissing(gaps[..i], h)
      invariant NoEmptyEntry(m)
    {
      var g := gaps[i];
      for j := 0 to |g.missing|
        invariant Transposed(m, gaps[..i], g, j)
      {
        TransposedOneMore(m, gaps[..i], g, j);
        m := m[g.missing[j] := Entry(m, g.missing[j]) + [g.chain]];
      }
      TransposedEntry(m, gaps, i);
    }
    assert gaps[..|gaps|] == gaps;
  }

  lemma TransposedNothing()
    ensures NoEmptyEntry<int, Chain>(map[])
    ensures forall h :: Entry<int, Chain>(map[], h) == ChainsMissing([], h) == []
  {
  }

  lemma SortedDistinctIncreasing(t: seq<int>)
    requires Sorted(t, Identity) && Distinct(t)
    ensures Increasing(t)
  {
    forall i, j | 0 <= i < j < |t| ensures t[i] < t[j] {
      assert Identity(t[i]) <= Identity(t[j]);
    }
  }

  lemma SortDistinct(s: seq<int>)
    requires Distinct(s)
    ensures Increasing(Sort(s, Identity))
  {
    hide *;
    SortFacts(s, Identity);
    forall x ensures multiset(Sort(s, Identity))[x] <= 1 {
      CountsOfDistinct(s, x);
    }
    DistinctOfCounts(Sort(s, Identity));
    SortedDistinctIncreasing(Sort(s, Identity));
  }

  lemma HasMember(s: set<int>)
    requires s != {}
    ensures exists x :: x in s
  {
    assert (forall x :: x !in s) ==> s == {};
  }

  method SortedHeights(m: map<int, seq<Chain>>) returns (heights: seq<int>)
    ensures Increasing(heights)
    ensures forall h :: h in heights <==> h in m
  {
    hide Distinct, Sort;
    var keys: seq<int> := [];
    NothingDistinct<int>();
    var todo := m.Keys;
    while todo != {}
      invariant todo <= m.Keys && Distinct(keys)
      invariant forall h :: h in keys <==> h in m && h !in todo
    {
      HasMember(todo);
      var h :| h in todo;
      DistinctOneMore(keys, h);
      keys := keys + [h];
      todo := todo - {h};
    }
    heights := Sort(keys, Identity);
    SortDistinct(keys);
    SortMembers(keys, Identity);
  }

  /** How syncing a height ends. Once everything is fetched, each registered processor runs its
      own pipeline over it: the one that stores the blocks, in a single insert, and the others.
      They run side by side, and the height fails if any of them does. */
  datatype SyncOutcome = FetchFailed | Ran(blocks: bool, others: bool)

  predicate Succeeded(o: SyncOutcome) {
    o == Ran(true, true)
  }

  /** The height's blocks are in the table, even if another processor failed. */
  predicate BlocksStored(o: SyncOutcome) {
    o.Ran? && o.blocks
  }

  /** What the backfill did at one height. */
  datatype Visit = Visit(height: int, chains: seq<Chain>, outcome: SyncOutcome)

  /** Whether the node serves the block of a chain at a height. */
  type Node = (int, Chain) -> bool

  /** The verdicts of the block processor and of the others, height by height. */
  type Pipelines = int -> (bool, bool)

  /** One fetch that fails is enough for nothing to be run. */
  ghost function OutcomeOf(height: int, chains: seq<Chain>, node: Node, pipelines: Pipelines): SyncOutcome {
    if chains == [] then Ran(true, true)
    else if forall c :: c in chains ==> node(height, c) then Ran(pipelines(height).0, pipelines(height).1)
    else FetchFailed
  }

  ghost predicate FilledBy(log: seq<Visit>, r: BlockRow) {
    exists i :: 0 <= i < |log| && FilledAt(log[i], r)
  }

  predicate FilledAt(v: Visit, r: BlockRow) {
    BlocksStored(v.outcome) && v.height == r.height && r.chain in v.chains
  }

  /** The table afterwards: what it held, and the blocks the visits stored. */
  ghost predicate StoredBy(log: seq<Visit>, before: seq<BlockRow>, after: seq<BlockRow>) {
    forall r :: r in after <==> r in before || FilledBy(log, r)
  }

  lemma StoredByOneMore(log: seq<Visit>, v: Visit, start: seq<BlockRow>, before: seq<BlockRow>, after: seq<BlockRow>)
    requires StoredBy(log, start, before)
    requires forall r :: r in after <==> r in before || FilledAt(v, r)
    ensures StoredBy(log + [v], start, after)
  {
    hide FilledAt;
    forall r ensures FilledBy(log + [v], r) <==> FilledBy(log, r) || FilledAt(v, r) {
      FilledByOneMore(log, v, r);
    }
  }

  lemma FilledByOneMore(log: seq<Visit>, v: Visit, r: BlockRow)
    ensures FilledBy(log + [v], r) <==> FilledBy(log, r) || FilledAt(v, r)
  {
    hide FilledAt;
    var all := log + [v];
    assert all[|log|] == v;
    if i :| 0 <= i < |log| && FilledAt(log[i], r) {
      assert all[i] == log[i];
    }
  }

  function Successes(log: seq<Visit>): nat {
    if log == [] then 0 else Successes(log[..|log| - 1]) + if Succeeded(log[|log| - 1].outcome) then 1 else 0
  }

  /** Each (height, chain) pair with a gap is visited once, in the order of the heights, and
      nothing else is. */
  ghost predicate VisitsGaps(log: seq<Visit>, table: seq<BlockRow>, min: int) {
    && (forall i, j :: 0 <= i < j < |log| ==> log[i].height < log[j].height)
    && (forall i :: 0 <= i < |log| ==> Distinct(log[i].chains))
    && (forall i, c :: 0 <= i < |log| && c in log[i].chains ==> IsGap(table, c, min, log[i].height))
    && (forall h, c :: IsGap(table, c, min, h) ==> Visited(log, h, c))
  }

  ghost predicate Visited(log: seq<Visit>, h: int, c: Chain) {
    exists i :: 0 <= i < |log| && log[i].height == h && c in log[i].chains
  }

  ghost predicate Outcomes(log: seq<Visit>, node: Node, pipelines: Pipelines) {
    forall i :: 0 <= i < |log| ==> log[i].outcome == OutcomeOf(log[i].height, log[i].chains, node, pipelines)
  }

  /** The visits so far follow the worklist. */
  ghost predicate Follows(log: seq<Visit>, heights: seq<int>, m: map<int, seq<Chain>>) {
    && |log| <= |heights|
    && forall i :: 0 <= i < |log| ==> log[i].height == heights[i] && log[i].chains == Entry(m, heights[i])
  }

  lemma WorklistVisitsGaps(log: seq<Visit>, heights: seq<int>, m: map<int, seq<Chain>>, gaps: seq<BlockGap>,
                           table: seq<BlockRow>, min: int)
    requires Reports(gaps, table, min)
    requires forall h :: Entry(m, h) == ChainsMissing(gaps, h)
    requires Increasing(heights) && forall h :: h in heights <==> h in m
    requires Follows(log, heights, m) && |log| == |heights|
    ensures VisitsGaps(log, table, min)
  {
    hide Reports, ChainsMissing, IsGap;
    forall h ensures Distinct(Entry(m, h)) && forall c :: c in Entry(m, h) <==> IsGap(table, c, min, h) {
      ChainsMissingAreGaps(gaps, table, min, h);
    }
    forall h, c | IsGap(table, c, min, h) ensures Visited(log, h, c) {
      assert c in Entry(m, h);
      var i :| 0 <= i < |heights| && heights[i] == h;
      assert log[i].height == h && c in log[i].chains;
    }
  }

  /** What the visits stored is inside gaps. */
  lemma VisitsFillGaps(log: seq<Visit>, before: seq<BlockRow>, after: seq<BlockRow>, min: int)
    requires VisitsGaps(log, before, min)
    requires StoredBy(log, before, after)
    ensures FillsGaps(before, after, min)
  {
    hide IsGap;
  }

  class Indexer {
    var table: seq<BlockRow>

    constructor (table: seq<BlockRow>)
      ensures this.table == table
    {
      this.table := table;
    }

    /** All blocks of the height are fetched before any is stored. */
    method SyncAtHeight(height: int, chains: seq<Chain>, node: Node, pipelines: Pipelines)
      returns (outcome: SyncOutcome)
      modifies this
      ensures outcome == OutcomeOf(height, chains, node, pipelines)
      ensures forall r :: r in table <==> r in old(table) || FilledAt(Visit(height, chains, outcome), r)
    {
      if chains == [] {
        return Ran(true, true);
      }
      var fetched: seq<BlockRow> := [];
      for i := 0 to |chains|
        invariant |fetched| == i
        invariant forall j :: 0 <= j < i ==> node(height, chains[j]) && fetched[j] == BlockRow(chains[j], height)
      {
        if !node(height, chains[i]) {
          return FetchFailed;
        }
        fetched := fetched + [BlockRow(chains[i], height)];
      }
      forall c | c in chains ensures BlockRow(c, height) in fetched && node(height, c) {
        var i :| 0 <= i < |chains| && chains[i] == c;
        assert fetched[i] == BlockRow(c, height);
      }
      forall r ensures r in fetched <==> r.height == height && r.chain in chains {
        assert r == BlockRow(r.chain, r.height);
      }
      outcome := RunPipelines(fetched, pipelines(height));
    }

    /** One pipeline for each processor; a processor that fails does not take back what another stored. */
    method RunPipelines(fetched: seq<BlockRow>, verdicts: (bool, bool)) returns (outcome: SyncOutcome)
      modifies this
      ensures outcome == Ran(verdicts.0, verdicts.1)
      ensures table == old(table) + if verdicts.0 then fetched else []
    {
      if verdicts.0 {
        table := table + fetched;
      }
      outcome := Ran(verdicts.0, verdicts.1);
    }

    /** Visits every gap once, in height order; a height that fails does not stop the others. The
        gaps left are those of the heights that were not fetched or whose blocks were not stored. */
    method BackfillGaps(min: int, node: Node, pipelines: Pipelines)
      returns (log: seq<Visit>, successCount: nat, failureCount: nat)
      modifies this
      ensures VisitsGaps(log, old(table), min) && Outcomes(log, node, pipelines)
      ensures StoredBy(log, old(table), table)
      ensures FillsGaps(old(table), table, min)
      ensures forall c, h :: h in MissingHeights(table, c, min) <==> LeftBy(log, c, h)
      ensures successCount == Successes(log) && successCount + failureCount == |log|
    {
      hide *;
      ghost var table0 := table;
      var gaps := DetectBlockGaps(table, min);
      MissingIncreasing(gaps, table, min);
      var m := Transpose(gaps);
      var heights := SortedHeights(m);
      log, successCount, failureCount := [], 0, 0;
      NothingVisited(table, heights, m, node, pipelines);
      for idx := 0 to |heights|
        invariant |log| == idx && Follows(log, heights, m) && Outcomes(log, node, pipelines)
        invariant StoredBy(log, table0, table)
        invariant successCount == Successes(log) && successCount + failureCount == idx
      {
        var height := heights[idx];
        assert height in heights;
        ghost var before := table;
        var outcome := SyncAtHeight(height, m[height], node, pipelines);
        var visit := Visit(height, m[height], outcome);
        StoredByOneMore(log, visit, table0, before, table);
        SuccessesOneMore(log, visit);
        OutcomesOneMore(log, visit, node, pipelines);
        EntryThere(m, height);
        FollowsOneMore(log, visit, heights, m);
        log := log + [visit];
        if Succeeded(outcome) {
          successCount := successCount + 1;
        } else {
          failureCount := failureCount + 1;
        }
      }
      WorklistVisitsGaps(log, heights, m, gaps, table0, min);
      VisitsFillGaps(log, table0, table, min);
      forall c, h ensures h in MissingHeights(table, c, min) <==> LeftBy(log, c, h) {
        GapsLeftAre(log, table0, table, min, c, h);
      }
    }
  }

  lemma NothingVisited(table: seq<BlockRow>, heights: seq<int>, m: map<int, seq<Chain>>, node: Node,
                       pipelines: Pipelines)
    ensures StoredBy([], table, table) && Follows([], heights, m) && Outcomes([], node, pipelines) && Successes([]) == 0
  {
  }

  lemma EntryThere(m: map<int, seq<Chain>>, h: int)
    requires h in m
    ensures Entry(m, h) == m[h]
  {
  }

  lemma SuccessesOneMore(log: seq<Visit>, v: Visit)
    ensures Successes(log + [v]) == Successes(log) + if Succeeded(v.outcome) then 1 else 0
  {
    assert (log + [v])[..|log|] == log;
  }

  lemma OutcomesOneMore(log: seq<Visit>, v: Visit, node: Node, pipelines: Pipelines)
    requires Outcomes(log, node, pipelines) && v.outcome == OutcomeOf(v.height, v.chains, node, pipelines)
    ensures Outcomes(log + [v], node, pipelines)
  {
    hide OutcomeOf;
  }

  lemma FollowsOneMore(log: seq<Visit>, v: Visit, heights: seq<int>, m: map<int, seq<Chain>>)
    requires Follows(log, heights, m) && |log| < |heights|
    requires v.height == heights[|log|] && v.chains == Entry(m, v.height)
    ensures Follows(log + [v], heights, m)
  {
    hide Entry;
  }

  lemma MissingIncreasing(gaps: seq<BlockGap>, table: seq<BlockRow>, min: int)
    requires Reports(gaps, table, min)
    ensures forall i :: 0 <= i < |gaps| ==> Increasing(gaps[i].missing)
  {
    hide MissingHeights;
    forall i | 0 <= i < |gaps| ensures Increasing(gaps[i].missing) {
      DetectsGaps(table, gaps[i].chain, min);
    }
  }

  // ----- what a second detection finds

  /** The chain's block at the height was asked for and not stored. */
  ghost predicate LeftBy(log: seq<Visit>, c: Chain, h: int) {
    exists i :: 0 <= i < |log| && !BlocksStored(log[i].outcome) && log[i].height == h && c in log[i].chains
  }

  lemma HeightsDiffer(log: seq<Visit>)
    requires forall i, j :: 0 <= i < j < |log| ==> log[i].height < log[j].height
    ensures forall i, j :: 0 <= i < |log| && 0 <= j < |log| && log[i].height == log[j].height ==> i == j
  {
  }

  /** The gaps left are the pairs whose fetch failed or whose blocks were not stored. */
  lemma GapsLeftAre(log: seq<Visit>, before: seq<BlockRow>, after: seq<BlockRow>, min: int, c: Chain, h: int)
    requires VisitsGaps(log, before, min)
    requires StoredBy(log, before, after)
    ensures h in MissingHeights(after, c, min) <==> LeftBy(log, c, h)
  {
    hide MissingHeights, IsGap, FillsGaps, BlocksStored;
    VisitsFillGaps(log, before, after, min);
    DetectsGaps(before, c, min);
    SecondDetection(before, after, min, c);
    HeightsDiffer(log);
    var r := BlockRow(c, h);
    if IsGap(before, c, min, h) && r !in after {
      assert Visited(log, h, c);
      assert !FilledBy(log, r);
    }
    if i :| 0 <= i < |log| && !BlocksStored(log[i].outcome) && log[i].height == h && c in log[i].chains {
      assert IsGap(before, c, min, log[i].height);
      assert !FilledBy(log, r);
      GapIsAbsent(before, c, min, h);
    }
  }

  /** A gap is left exactly if the node does not serve one of the blocks missing at its height, or the block
      processor fails there. */
  lemma GapLeftIff(log: seq<Visit>, before: seq<BlockRow>, after: seq<BlockRow>, min: int, node: Node,
                   pipelines: Pipelines, c: Chain, h: int)
    requires VisitsGaps(log, before, min) && Outcomes(log, node, pipelines) && StoredBy(log, before, after)
    ensures h in MissingHeights(after, c, min) <==>
            IsGap(before, c, min, h)
            && ((exists d :: IsGap(before, d, min, h) && !node(h, d)) || !pipelines(h).0)
  {
    hide MissingHeights, IsGap, StoredBy;
    GapsLeftAre(log, before, after, min, c, h);
    HeightsDiffer(log);
    if IsGap(before, c, min, h) {
      assert Visited(log, h, c);
      var i :| 0 <= i < |log| && log[i].height == h && c in log[i].chains;
      forall d ensures d in log[i].chains <==> IsGap(before, d, min, h) {
        if IsGap(before, d, min, h) {
          assert Visited(log, h, d);
        }
      }
      assert log[i].outcome == OutcomeOf(h, log[i].chains, node, pipelines);
    }
  }

  lemma GapIsAbsent(table: seq<BlockRow>, c: Chain, min: int, h: int)
    requires IsGap(table, c, min, h)
    ensures BlockRow(c, h) !in table
  {
  }

  /** Every visited pair whose height failed is found again. */
  ghost predicate FailuresFound(log: seq<Visit>, after: seq<BlockRow>, min: int) {
    forall i, c :: 0 <= i < |log| && c in log[i].chains && !Succeeded(log[i].outcome) ==>
      log[i].height in MissingHeights(after, c, min)
  }

  /** No height failed after its blocks had been stored. */
  ghost predicate NoneHalfDone(log: seq<Visit>) {
    forall i :: 0 <= i < |log| && log[i].chains != [] && BlocksStored(log[i].outcome) ==> Succeeded(log[i].outcome)
  }

  /** A pair that was visited is found again exactly if its blocks were not stored. So running the
      backfill again retries every failed height exactly if no height failed after its blocks were
      stored; and after a backfill none of whose heights failed nothing is found. */
  lemma FailedFoundAgainIff(log: seq<Visit>, before: seq<BlockRow>, after: seq<BlockRow>, min: int)
    requires VisitsGaps(log, before, min)
    requires StoredBy(log, before, after)
    ensures forall i, c :: 0 <= i < |log| && c in log[i].chains ==>
              (log[i].height in MissingHeights(after, c, min) <==> !BlocksStored(log[i].outcome))
    ensures FailuresFound(log, after, min) <==> NoneHalfDone(log)
    ensures Successes(log) == |log| ==> forall c :: MissingHeights(after, c, min) == []
  {
    hide MissingHeights, VisitsGaps, StoredBy, BlocksStored, Succeeded;
    forall i, c | 0 <= i < |log| && c in log[i].chains
      ensures log[i].height in MissingHeights(after, c, min) <==> !BlocksStored(log[i].outcome)
    {
      GapsLeftAre(log, before, after, min, c, log[i].height);
      OneVisit(log, before, min);
    }
    forall i | 0 <= i < |log| ensures Succeeded(log[i].outcome) ==> BlocksStored(log[i].outcome) {
      SuccessStores(log[i].outcome);
    }
    if FailuresFound(log, after, min) {
      forall i | 0 <= i < |log| && log[i].chains != [] && BlocksStored(log[i].outcome)
        ensures Succeeded(log[i].outcome)
      {
        var c := log[i].chains[0];
        assert log[i].height in MissingHeights(after, c, min) <==> !BlocksStored(log[i].outcome);
      }
    }
    if Successes(log) == |log| {
      AllSucceeded(log);
      assert forall i :: 0 <= i < |log| ==> BlocksStored(log[i].outcome);
      forall c ensures MissingHeights(after, c, min) == [] {
        forall h ensures h !in MissingHeights(after, c, min) {
          GapsLeftAre(log, before, after, min, c, h);
        }
        NoNumbers(MissingHeights(after, c, min));
      }
    }
  }

  lemma SuccessStores(o: SyncOutcome)
    ensures Succeeded(o) ==> BlocksStored(o)
  {
  }

  lemma OneVisit(log: seq<Visit>, before: seq<BlockRow>, min: int)
    requires VisitsGaps(log, before, min)
    ensures forall i, j :: 0 <= i < |log| && 0 <= j < |log| && log[i].height == log[j].height ==> i == j
  {
    HeightsDiffer(log);
  }

  lemma {:induction false} AllSucceeded(log: seq<Visit>)
    ensures Successes(log) <= |log|
    ensures Successes(log) == |log| ==> forall i :: 0 <= i < |log| ==> Succeeded(log[i].outcome)
  {
    if log != [] {
      AllSucceeded(log[..|log| - 1]);
    }
  }

  /** A height can be lost: its block is stored, another processor fails on it, it counts as failed,
      and the next detection finds nothing to retry. */
  lemma FailedHeightLost(c: Chain, node: Node)
    requires node(1, c)
    ensures var before, after := [BlockRow(c, 0), BlockRow(c, 2)], [BlockRow(c, 0), BlockRow(c, 2), BlockRow(c, 1)];
            var log := [Visit(1, [c], Ran(true, false))];
            && VisitsGaps(log, before, 0) && Outcomes(log, node, _ => (true, false)) && StoredBy(log, before, after)
            && Successes(log) == 0 && MissingHeights(after, c, 0) == []
  {
    var before, after := [BlockRow(c, 0), BlockRow(c, 2)], [BlockRow(c, 0), BlockRow(c, 2), BlockRow(c, 1)];
    var v := Visit(1, [c], Ran(true, false));
    var log := [v];
    assert IsGap(before, c, 0, 1) by {
      assert Has(before, c, 0, 0) && Has(before, c, 0, 2);
    }
    assert Visited(log, 1, c) by {
      assert log[0] == v;
    }
    forall d, h | IsGap(before, d, 0, h) ensures Visited(log, h, d) {
      var lo, hi :| lo < h < hi && Has(before, d, 0, lo) && Has(before, d, 0, hi);
    }
    FilledByOneMore([], v, BlockRow(c, 1));
    forall r ensures FilledBy(log, r) <==> r == BlockRow(c, 1) {
      assert [] + [v] == log;
      FilledByOneMore([], v, r);
    }
    assert log[..0] == [];
    forall h ensures h !in MissingHeights(after, c, 0) {
      GapsLeftAre(log, before, after, 0, c, h);
      assert forall i :: 0 <= i < |log| ==> log[i] == v;
    }
    NoNumbers(MissingHeights(after, c, 0));
  }
}
