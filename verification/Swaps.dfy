/** Swaps of one batch of blocks: pools are learned block by block, swap events are read against
    the pools known so far, and all swaps of a transaction are aggregated into one row. */
module Swaps {
  import opened Lists
  import opened Options
  import opened StableSort

  const AYIN_INDEX: int := 2
  const ELEXIUM_INDEX: int := 3

  datatype Factory = Ayin | Elexium | Unknown

  datatype Pool = Pool(tokenA: string, tokenB: string, factory: Factory)

  /** Pools by address. */
  type Pools = map<string, Pool>

  datatype NewPool = NewPool(address: string, pool: Pool)

  /** A contract event with its fields decoded. The event index says what kind of event of its
      contract it is. */
  datatype Event =
    | Created(newPool: NewPool)
    | Traded(contract: string, eventIndex: int, txId: string, sender: string,
             tokenAIn: real, tokenBIn: real, tokenAOut: real, tokenBOut: real)
    | Other

  type Block = seq<Event>

  datatype SwapDetails = SwapDetails(
    tokenIn: string, tokenOut: string, amountIn: real, amountOut: real,
    poolAddress: string, txId: string, hopCount: int)

  datatype Row = Row(address: string, txId: string, details: SwapDetails)

  datatype Indexed = Indexed(eventIndex: int, swap: Row)

  // ----- reading the events of a batch

  function Direction(e: Event, pool: Pool): SwapDetails
    requires e.Traded?
  {
    if e.tokenAIn == 0.0
    then SwapDetails(pool.tokenB, pool.tokenA, e.tokenBIn, e.tokenAOut, e.contract, e.txId, 1)
    else SwapDetails(pool.tokenA, pool.tokenB, e.tokenAIn, e.tokenBOut, e.contract, e.txId, 1)
  }

  function ParseSwap(e: Event, pools: Pools): Option<Indexed> {
    if e.Traded? && e.contract in pools
       && ((pools[e.contract].factory.Ayin? && e.eventIndex == AYIN_INDEX)
           || (pools[e.contract].factory.Elexium? && e.eventIndex == ELEXIUM_INDEX))
    then Some(Indexed(e.eventIndex, Row(e.sender, e.txId, Direction(e, pools[e.contract]))))
    else None
  }

  /** The swaps of a block, in the order of its events. */
  function ExtractSwaps(block: Block, pools: Pools): seq<Indexed> {
    if block == [] then [] else
      var rest := ExtractSwaps(block[..|block| - 1], pools);
      match ParseSwap(block[|block| - 1], pools)
      case None => rest
      case Some(swap) => rest + [swap]
  }

  function ExtractPools(block: Block): seq<NewPool> {
    if block == [] then [] else
      var rest, e := ExtractPools(block[..|block| - 1]), block[|block| - 1];
      if e.Created? then rest + [e.newPool] else rest
  }

  /** `extend`: later pools replace earlier ones with the same address. */
  function Extended(pools: Pools, newPools: seq<NewPool>): Pools {
    if newPools == [] then pools else
      var last := newPools[|newPools| - 1];
      Extended(pools, newPools[..|newPools| - 1])[last.address := last.pool]
  }

  function PoolsOf(blocks: seq<Block>): seq<NewPool> {
    if blocks == [] then [] else PoolsOf(blocks[..|blocks| - 1]) + ExtractPools(blocks[|blocks| - 1])
  }

  /** Every block is read with the pools stored before and those of all blocks up to and including it. */
  function SwapsOf(stored: Pools, blocks: seq<Block>): seq<Indexed> {
    if blocks == [] then [] else
      SwapsOf(stored, blocks[..|blocks| - 1]) + ExtractSwaps(blocks[|blocks| - 1], Extended(stored, PoolsOf(blocks)))
  }

  // ----- aggregation by transaction

  function InTx(tx: string): Indexed -> bool {
    (x: Indexed) => x.swap.txId == tx
  }

  /** The swaps of one transaction, in the order they were found. */
  function GroupOf(swaps: seq<Indexed>, tx: string): seq<Indexed> {
    Filter(swaps, InTx(tx))
  }

  function EventIndex(x: Indexed): int {
    x.eventIndex
  }

  function Reverse<T>(s: seq<T>): (r: seq<T>)
    ensures |r| == |s|
    ensures forall i :: 0 <= i < |s| ==> r[i] == s[|s| - 1 - i]
  {
    if s == [] then [] else [s[|s| - 1]] + Reverse(s[..|s| - 1])
  }

  /** Sorted by event index, then reversed. */
  function Ordered(group: seq<Indexed>): seq<Indexed> {
    Reverse(Sort(group, EventIndex))
  }

  predicate SamePair(a: SwapDetails, b: SwapDetails) {
    a.tokenIn == b.tokenIn && a.tokenOut == b.tokenOut
  }

  predicate IsSplit(group: seq<Indexed>)
    requires group != []
  {
    forall x :: x in group ==> SamePair(x.swap.details, group[0].swap.details)
  }

  function AmountIn(x: Indexed): real {
    x.swap.details.amountIn
  }

  function AmountOut(x: Indexed): real {
    x.swap.details.amountOut
  }

  function JoinPools(group: seq<Indexed>): string {
    if group == [] then "" else
      (if |group| == 1 then "" else JoinPools(group[..|group| - 1]) + ",") + group[|group| - 1].swap.details.poolAddress
  }

  /** What the row of several swaps, already ordered, says about them. */
  function Merged(tx: string, group: seq<Indexed>): SwapDetails
    requires group != []
  {
    var first, last := group[0].swap.details, group[|group| - 1].swap.details;
    if IsSplit(group)
    then SwapDetails(first.tokenIn, first.tokenOut, Total(group, AmountIn),
                     Total(group, AmountOut), JoinPools(group), tx, |group|)
    else SwapDetails(first.tokenIn, last.tokenOut, first.amountIn, last.amountOut, JoinPools(group), tx, |group|)
  }

  function Aggregate(tx: string, group: seq<Indexed>): Row
    requires group != []
  {
    if |group| == 1 then group[0].swap else
      SortFacts(group, EventIndex);
      Ordered(group)[0].swap.(details := Merged(tx, Ordered(group)))
  }

  ghost predicate HasTx(swaps: seq<Indexed>, tx: string) {
    exists i :: 0 <= i < |swaps| && swaps[i].swap.txId == tx
  }

  lemma GroupOfMembers(swaps: seq<Indexed>, tx: string)
    ensures forall x :: x in GroupOf(swaps, tx) <==> x in swaps && x.swap.txId == tx
    ensures GroupOf(swaps, tx) != [] <==> HasTx(swaps, tx)
  {
    hide Filter;
    FilterMembers(swaps, InTx(tx));
  }

  /** r is the aggregate of the swaps of its transaction. */
  ghost predicate IsRowOf(r: Row, swaps: seq<Indexed>) {
    var group := GroupOf(swaps, r.txId);
    group != [] && r == Aggregate(r.txId, group)
  }

  ghost predicate HasRow(rows: seq<Row>, tx: string) {
    exists i :: 0 <= i < |rows| && rows[i].txId == tx
  }

  ghost predicate OneRowEach(rows: seq<Row>) {
    forall i, j :: 0 <= i < j < |rows| ==> rows[i].txId != rows[j].txId
  }

  /** One row for each of the transactions and no others. */
  ghost predicate RowsFor(rows: seq<Row>, swaps: seq<Indexed>, txs: iset<string>) {
    && OneRowEach(rows)
    && (forall r :: r in rows ==> IsRowOf(r, swaps))
    && (forall tx :: HasRow(rows, tx) <==> tx in txs)
  }

  /** One row for every transaction that swaps. */
  ghost predicate Aggregated(rows: seq<Row>, swaps: seq<Indexed>) {
    RowsFor(rows, swaps, iset tx | HasTx(swaps, tx))
  }

  lemma AggregateKeepsTx(swaps: seq<Indexed>, tx: string)
    requires GroupOf(swaps, tx) != []
    ensures Aggregate(tx, GroupOf(swaps, tx)).txId == tx
  {
    var group := GroupOf(swaps, tx);
    GroupOfMembers(swaps, tx);
    SortFacts(group, EventIndex);
    SortMembers(group, EventIndex);
    assert group[0] in group;
    assert Ordered(group)[0] in Sort(group, EventIndex);
  }

  /** The groups as the loop builds them. */
  ghost predicate Grouped(groups: map<string, seq<Indexed>>, swaps: seq<Indexed>) {
    && (forall tx :: tx in groups <==> GroupOf(swaps, tx) != [])
    && (forall tx :: tx in groups ==> groups[tx] == GroupOf(swaps, tx))
  }

  lemma GroupedOneMore(groups: map<string, seq<Indexed>>, swaps: seq<Indexed>, i: nat)
    requires i < |swaps| && Grouped(groups, swaps[..i])
    ensures var tx := swaps[i].swap.txId;
            Grouped(groups[tx := (if tx in groups then groups[tx] else []) + [swaps[i]]], swaps[..i + 1])
  {
    assert swaps[..i + 1][..i] == swaps[..i];
  }

  lemma NoGroups()
    ensures Grouped(map[], [])
  {
  }

  lemma RowsForOneMore(rows: seq<Row>, row: Row, swaps: seq<Indexed>, done: iset<string>)
    requires RowsFor(rows, swaps, done) && row.txId !in done && IsRowOf(row, swaps)
    ensures RowsFor(rows + [row], swaps, done + iset{row.txId})
  {
    hide IsRowOf;
    var rows' := rows + [row];
    forall i | 0 <= i < |rows| ensures rows[i].txId != row.txId {
      assert HasRow(rows, rows[i].txId);
    }
    forall tx ensures HasRow(rows', tx) <==> HasRow(rows, tx) || tx == row.txId {
      assert rows'[|rows|] == row;
      if HasRow(rows, tx) {
        var i :| 0 <= i < |rows| && rows[i].txId == tx;
        assert rows'[i].txId == tx;
      }
    }
  }

  lemma NoRows(swaps: seq<Indexed>)
    ensures RowsFor([], swaps, iset{})
  {
  }

  method AggregateMultiHopSwaps(swaps: seq<Indexed>) returns (rows: seq<Row>)
    ensures Aggregated(rows, swaps)
  {
    hide Aggregate, GroupOf, RowsFor, HasTx;
    var groups: map<string, seq<Indexed>> := map[];
    NoGroups();
    for i := 0 to |swaps|
      invariant Grouped(groups, swaps[..i])
    {
      var tx := swaps[i].swap.txId;
      GroupedOneMore(groups, swaps, i);
      groups := groups[tx := (if tx in groups then groups[tx] else []) + [swaps[i]]];
    }
    assert swaps[..|swaps|] == swaps;
    rows := [];
    NoRows(swaps);
    var todo := groups.Keys;
    ghost var done: iset<string> := iset{};
    while todo != {}
      invariant todo <= groups.Keys
      invariant forall tx :: tx in done <==> tx in groups && tx !in todo
      invariant RowsFor(rows, swaps, done)
    {
      var tx :| tx in todo;
      todo := todo - {tx};
      var row := Aggregate(tx, groups[tx]);
      AggregateKeepsTx(swaps, tx);
      RowsForOneMore(rows, row, swaps, done);
      done := done + iset{tx};
      rows := rows + [row];
    }
    forall tx ensures tx in done <==> HasTx(swaps, tx) {
      GroupOfMembers(swaps, tx);
    }
    assert done == iset tx | HasTx(swaps, tx);
  }

  // ----- what the rows say about the swaps

  /** Whatever order the map is gone through in, the rows are the same. */
  lemma OrderDoesNotMatter(a: seq<Row>, b: seq<Row>, swaps: seq<Indexed>)
    requires Aggregated(a, swaps) && Aggregated(b, swaps)
    ensures multiset(a) == multiset(b)
  {
    hide GroupOf, Aggregate;
    forall r ensures r in a <==> r in b {
      SameRow(a, b, swaps, r);
      SameRow(b, a, swaps, r);
    }
    SameMembers(a, b);
  }

  lemma SameRow(a: seq<Row>, b: seq<Row>, swaps: seq<Indexed>, r: Row)
    requires Aggregated(a, swaps) && Aggregated(b, swaps)
    ensures r in a ==> r in b
  {
    hide GroupOf, Aggregate;
    if r in a {
      var i :| 0 <= i < |a| && a[i] == r;
      assert HasRow(a, r.txId) && HasRow(b, r.txId);
      var j :| 0 <= j < |b| && b[j].txId == r.txId;
      assert IsRowOf(b[j], swaps) && IsRowOf(r, swaps);
    }
  }

  /** The ends of a row's list: first comes the latest swap with the highest event index, last
      the earliest one with the lowest. */
  lemma OrderedEnds(group: seq<Indexed>) returns (first: nat, last: nat)
    requires group != []
    ensures first < |group| && last < |group| && |Ordered(group)| == |group|
    ensures Ordered(group)[0] == group[first] && Ordered(group)[|group| - 1] == group[last]
    ensures forall j :: 0 <= j < |group| ==> group[last].eventIndex <= group[j].eventIndex <= group[first].eventIndex
    ensures forall j :: first < j < |group| ==> group[j].eventIndex < group[first].eventIndex
    ensures forall j :: 0 <= j < last ==> group[j].eventIndex > group[last].eventIndex
  {
    last := SortFirst(group, EventIndex);
    first := SortLast(group, EventIndex);
    assert forall j :: 0 <= j < |group| ==> EventIndex(group[j]) == group[j].eventIndex;
  }

  lemma ReverseInjective(a: seq<Indexed>, b: seq<Indexed>)
    requires Reverse(a) == Reverse(b)
    ensures a == b
  {
    assert |a| == |Reverse(a)| == |Reverse(b)| == |b|;
    forall i | 0 <= i < |a| ensures a[i] == b[i] {
      assert Reverse(a)[|a| - 1 - i] == Reverse(b)[|b| - 1 - i];
    }
  }

  /** The list is the reverse of the order the swaps were emitted in exactly if their event
      indexes never decrease in that order. */
  lemma ReverseEmissionIff(group: seq<Indexed>)
    ensures Ordered(group) == Reverse(group) <==> Sorted(group, EventIndex)
  {
    hide Sort, Sorted, Reverse;
    SortUnchangedIff(group, EventIndex);
    if Ordered(group) == Reverse(group) {
      ReverseInjective(Sort(group, EventIndex), group);
    }
  }

  lemma {:induction false} ReverseContents(s: seq<Indexed>)
    ensures multiset(Reverse(s)) == multiset(s)
  {
    if s != [] {
      ReverseContents(s[..|s| - 1]);
      assert s == s[..|s| - 1] + [s[|s| - 1]];
    }
  }

  lemma OrderedContents(group: seq<Indexed>)
    ensures multiset(Ordered(group)) == multiset(group) && |Ordered(group)| == |group|
    ensures forall x :: x in Ordered(group) <==> x in group
  {
    SortFacts(group, EventIndex);
    ReverseContents(Sort(group, EventIndex));
    forall x ensures x in Ordered(group) <==> x in group {
      assert x in multiset(Ordered(group)) <==> x in multiset(group);
    }
  }

  lemma SplitOfMembers(a: seq<Indexed>, b: seq<Indexed>)
    requires a != [] && b != [] && forall x :: x in b ==> x in a
    requires IsSplit(a)
    ensures IsSplit(b) && SamePair(b[0].swap.details, a[0].swap.details)
  {
    assert b[0] in a;
  }

  lemma SplitOfOrdered(group: seq<Indexed>)
    requires group != []
    ensures |Ordered(group)| == |group|
    ensures IsSplit(Ordered(group)) <==> IsSplit(group)
    ensures IsSplit(group) ==> SamePair(Ordered(group)[0].swap.details, group[0].swap.details)
  {
    hide Ordered, IsSplit;
    OrderedContents(group);
    if IsSplit(group) {
      SplitOfMembers(group, Ordered(group));
    }
    if IsSplit(Ordered(group)) {
      SplitOfMembers(Ordered(group), group);
    }
  }

  /** Swaps over one pair of tokens keep the pair and their total amounts. */
  lemma SplitConserves(tx: string, group: seq<Indexed>, amountIn: Indexed -> real, amountOut: Indexed -> real)
    requires |group| > 1 && forall x :: x in group ==> SamePair(x.swap.details, group[0].swap.details)
    requires forall x: Indexed :: amountIn(x) == x.swap.details.amountIn && amountOut(x) == x.swap.details.amountOut
    ensures var d := Aggregate(tx, group).details;
            && d.tokenIn == group[0].swap.details.tokenIn && d.tokenOut == group[0].swap.details.tokenOut
            && d.amountIn == Total(group, amountIn) && d.amountOut == Total(group, amountOut)
            && d.hopCount == |group|
  {
    assert IsSplit(group);
    hide Total, Ordered, IsSplit;
    SplitOfOrdered(group);
    OrderedContents(group);
    TotalPermuted(Ordered(group), group, AmountIn);
    TotalPermuted(Ordered(group), group, AmountOut);
    TotalSame(group, AmountIn, amountIn);
    TotalSame(group, AmountOut, amountOut);
  }

  /** Swaps over different pairs show what went in at one end of the list and what came out at
      the other. */
  lemma MultiHopEnds(tx: string, group: seq<Indexed>) returns (first: nat, last: nat)
    requires |group| > 1 && !IsSplit(group)
    ensures first < |group| && last < |group| && |Ordered(group)| == |group|
    ensures Ordered(group)[0] == group[first] && Ordered(group)[|group| - 1] == group[last]
    ensures var d := Aggregate(tx, group).details;
            && d.tokenIn == group[first].swap.details.tokenIn && d.amountIn == group[first].swap.details.amountIn
            && d.tokenOut == group[last].swap.details.tokenOut && d.amountOut == group[last].swap.details.amountOut
            && d.hopCount == |group|
  {
    hide Ordered, IsSplit;
    SplitOfOrdered(group);
    first, last := OrderedEnds(group);
  }

  // ----- hops

  ghost predicate SingleHops(swaps: seq<Indexed>) {
    forall x :: x in swaps ==> x.swap.details.hopCount == 1
  }

  function TotalHops(rows: seq<Row>): int {
    if rows == [] then 0 else TotalHops(rows[..|rows| - 1]) + rows[|rows| - 1].details.hopCount
  }

  lemma HopsOfGroup(swaps: seq<Indexed>, tx: string)
    requires SingleHops(swaps) && GroupOf(swaps, tx) != []
    ensures Aggregate(tx, GroupOf(swaps, tx)).details.hopCount == |GroupOf(swaps, tx)|
  {
    var group := GroupOf(swaps, tx);
    GroupOfMembers(swaps, tx);
    OrderedContents(group);
    assert group[0] in group;
  }

  function NotInTx(tx: string): Indexed -> bool {
    (x: Indexed) => x.swap.txId != tx
  }

  function Without(swaps: seq<Indexed>, tx: string): seq<Indexed> {
    Filter(swaps, NotInTx(tx))
  }

  lemma {:induction false} WithoutSplits(swaps: seq<Indexed>, tx: string)
    ensures |swaps| == |GroupOf(swaps, tx)| + |Without(swaps, tx)|
    ensures forall x :: x in Without(swaps, tx) ==> x in swaps
  {
    if swaps != [] {
      WithoutSplits(swaps[..|swaps| - 1], tx);
    }
  }

  lemma {:induction false} WithoutGroups(swaps: seq<Indexed>, tx: string, u: string)
    ensures GroupOf(Without(swaps, tx), u) == if u == tx then [] else GroupOf(swaps, u)
  {
    if swaps != [] {
      var front, last := swaps[..|swaps| - 1], swaps[|swaps| - 1];
      WithoutGroups(front, tx, u);
      assert (Without(front, tx) + [last])[..|Without(front, tx)|] == Without(front, tx);
    }
  }

  lemma AggregatedWithout(rows: seq<Row>, swaps: seq<Indexed>)
    requires Aggregated(rows, swaps) && rows != []
    ensures Aggregated(rows[..|rows| - 1], Without(swaps, rows[|rows| - 1].txId))
  {
    hide Aggregate, GroupOf, Without;
    var front, tx := rows[..|rows| - 1], rows[|rows| - 1].txId;
    var rest := Without(swaps, tx);
    forall r | r in front ensures IsRowOf(r, rest) {
      var i :| 0 <= i < |front| && front[i] == r;
      assert rows[i] == r && r in rows;
      WithoutGroups(swaps, tx, r.txId);
    }
    forall u ensures HasRow(front, u) <==> HasTx(rest, u) {
      WithoutGroups(swaps, tx, u);
      GroupOfMembers(rest, u);
      GroupOfMembers(swaps, u);
      FrontRow(rows, u);
    }
  }

  lemma FrontRow(rows: seq<Row>, u: string)
    requires rows != [] && OneRowEach(rows)
    ensures HasRow(rows[..|rows| - 1], u) <==> HasRow(rows, u) && u != rows[|rows| - 1].txId
  {
    var front := rows[..|rows| - 1];
    if HasRow(front, u) {
      var i :| 0 <= i < |front| && front[i].txId == u;
      assert rows[i].txId == u;
    }
    if HasRow(rows, u) && u != rows[|rows| - 1].txId {
      var i :| 0 <= i < |rows| && rows[i].txId == u;
      assert front[i].txId == u;
    }
  }

  lemma NoRowsNoSwaps(swaps: seq<Indexed>)
    requires Aggregated([], swaps)
    ensures swaps == []
  {
    var txs := iset tx | HasTx(swaps, tx);
    forall tx ensures !HasTx(swaps, tx) {
      assert HasRow([], tx) <==> tx in txs;
    }
    assert swaps != [] ==> HasTx(swaps, swaps[0].swap.txId);
  }

  /** No swap is lost or counted twice: the hop counts add up to the number of swaps. */
  lemma {:induction false} HopsAddUp(rows: seq<Row>, swaps: seq<Indexed>)
    requires Aggregated(rows, swaps) && SingleHops(swaps)
    ensures TotalHops(rows) == |swaps|
    decreases |rows|
  {
    if rows == [] {
      NoRowsNoSwaps(swaps);
    } else {
      var row := rows[|rows| - 1];
      assert IsRowOf(row, swaps);
      HopsOfGroup(swaps, row.txId);
      WithoutSplits(swaps, row.txId);
      AggregatedWithout(rows, swaps);
      HopsAddUp(rows[..|rows| - 1], Without(swaps, row.txId));
    }
  }

  /** Extraction only yields single hops, and the event index only tells the exchange. */
  lemma {:induction false} ExtractedShape(stored: Pools, blocks: seq<Block>)
    ensures SingleHops(SwapsOf(stored, blocks))
    ensures forall x :: x in SwapsOf(stored, blocks) ==> x.eventIndex == 2 || x.eventIndex == 3
  {
    if blocks != [] {
      ExtractedShape(stored, blocks[..|blocks| - 1]);
      ExtractedBlockShape(blocks[|blocks| - 1], Extended(stored, PoolsOf(blocks)));
    }
  }

  lemma {:induction false} ExtractedBlockShape(block: Block, pools: Pools)
    ensures SingleHops(ExtractSwaps(block, pools))
    ensures forall x :: x in ExtractSwaps(block, pools) ==> x.eventIndex == 2 || x.eventIndex == 3
  {
    if block != [] {
      ExtractedBlockShape(block[..|block| - 1], pools);
    }
  }

  /** A chain of two swaps, found in reverse, whose first hop is on Ayin and second on Elexium:
      the order by event index turns it round, and the row shows the middle token at both ends. */
  lemma MixedChainLosesItsEnds(tx: string, hop1: Indexed, hop2: Indexed)
    requires hop1.eventIndex == AYIN_INDEX && hop2.eventIndex == ELEXIUM_INDEX
    requires hop1.swap.details.tokenOut == hop2.swap.details.tokenIn
    requires hop1.swap.details.tokenIn != hop2.swap.details.tokenIn
    ensures var row := Aggregate(tx, [hop2, hop1]);
            row.details.tokenIn == hop2.swap.details.tokenIn && row.details.tokenOut == hop1.swap.details.tokenOut
  {
    var group := [hop2, hop1];
    assert hop1 in group;
    var first, last := MultiHopEnds(tx, group);
    var f, l := OrderedEnds(group);
  }

  /** No token is given twice or got twice on the way. */
  ghost predicate DistinctTokens(group: seq<Indexed>) {
    forall i, j :: 0 <= i < j < |group| ==>
      && group[i].swap.details.tokenIn != group[j].swap.details.tokenIn
      && group[i].swap.details.tokenOut != group[j].swap.details.tokenOut
  }

  /** No event index is above that of the swap emitted last, nor below that of the one emitted first. */
  ghost predicate EndsInOrder(group: seq<Indexed>)
    requires group != []
  {
    forall j :: 0 <= j < |group| ==>
      group[0].eventIndex <= group[j].eventIndex <= group[|group| - 1].eventIndex
  }

  /** Whatever the swaps, those at the ends of the list are the ones emitted last and first exactly if
      the event indexes at the ends are in order. */
  lemma EndsIff(group: seq<Indexed>) returns (first: nat, last: nat)
    requires group != []
    ensures first < |group| && last < |group| && |Ordered(group)| == |group|
    ensures Ordered(group)[0] == group[first] && Ordered(group)[|group| - 1] == group[last]
    ensures first == |group| - 1 && last == 0 <==> EndsInOrder(group)
  {
    hide Ordered;
    first, last := OrderedEnds(group);
    if EndsInOrder(group) {
      assert group[first].eventIndex == group[|group| - 1].eventIndex;
      assert group[last].eventIndex == group[0].eventIndex;
    }
  }

  /** A route found in reverse, its last hop first, is shown from its first token to its last exactly
      if no event index is out of order with the two at its ends. */
  lemma RouteEndsIff(tx: string, group: seq<Indexed>)
    requires |group| > 1 && DistinctTokens(group)
    ensures var d := Aggregate(tx, group).details;
            d.tokenIn == group[|group| - 1].swap.details.tokenIn && d.tokenOut == group[0].swap.details.tokenOut
            <==> EndsInOrder(group)
  {
    hide Ordered, Aggregate, EndsInOrder;
    assert !IsSplit(group) by {
      assert group[1] in group && group[0].swap.details.tokenIn != group[1].swap.details.tokenIn;
    }
    var first, last := EndsIff(group);
    var f, l := MultiHopEnds(tx, group);
  }

  /** The same from the events: a route from A over B to C, first through an Ayin pool and then
      through an Elexium pool, its events in reverse, becomes a row from B to B. */
  lemma MixedRouteMisread(rows: seq<Row>, pools: Pools, hop1: Event, hop2: Event)
    requires pools == map["p" := Pool("A", "B", Ayin), "q" := Pool("B", "C", Elexium)]
    requires hop1 == Traded("p", AYIN_INDEX, "t", "u", 3.0, 0.0, 0.0, 5.0)
    requires hop2 == Traded("q", ELEXIUM_INDEX, "t", "u", 5.0, 0.0, 0.0, 7.0)
    requires Aggregated(rows, SwapsOf(pools, [[hop2, hop1]]))
    ensures HasRow(rows, "t")
    ensures forall r :: r in rows ==> r.txId == "t" && r.details.tokenIn == "B" && r.details.tokenOut == "B"
  {
    var block := [hop2, hop1];
    var swap1 := Indexed(AYIN_INDEX, Row("u", "t", SwapDetails("A", "B", 3.0, 5.0, "p", "t", 1)));
    var swap2 := Indexed(ELEXIUM_INDEX, Row("u", "t", SwapDetails("B", "C", 5.0, 7.0, "q", "t", 1)));
    SwapsOfMixedRoute(pools, hop1, hop2, swap1, swap2);
    var swaps := [swap2, swap1];
    GroupOfPair(swap2, swap1, "t");
    hide ExtractSwaps, SwapsOf, Aggregate, GroupOf;
    assert swaps[0].swap.txId == "t" && HasTx(swaps, "t");
    var txs := iset tx | HasTx(swaps, tx);
    assert "t" in txs;
    MixedChainLosesItsEnds("t", swap1, swap2);
    forall r | r in rows ensures r.txId == "t" && r.details.tokenIn == "B" && r.details.tokenOut == "B" {
      var i :| 0 <= i < |rows| && rows[i] == r;
      assert HasRow(rows, r.txId) && r.txId in txs;
      assert IsRowOf(r, swaps);
    }
  }

  lemma NothingGrouped(tx: string)
    ensures Filter([], InTx(tx)) == []
  {
  }

  lemma GroupOfPair(a: Indexed, b: Indexed, tx: string)
    requires a.swap.txId == tx && b.swap.txId == tx
    ensures GroupOf([a, b], tx) == [a, b]
  {
    hide Filter;
    assert [] + [a] == [a] && [a] + [b] == [a, b];
    NothingGrouped(tx);
    FilterOneMore([], a, InTx(tx));
    FilterOneMore([a], b, InTx(tx));
  }

  lemma ParsedRoute(pools: Pools, hop1: Event, hop2: Event, swap1: Indexed, swap2: Indexed)
    requires pools == map["p" := Pool("A", "B", Ayin), "q" := Pool("B", "C", Elexium)]
    requires hop1 == Traded("p", AYIN_INDEX, "t", "u", 3.0, 0.0, 0.0, 5.0)
    requires hop2 == Traded("q", ELEXIUM_INDEX, "t", "u", 5.0, 0.0, 0.0, 7.0)
    requires swap1 == Indexed(AYIN_INDEX, Row("u", "t", SwapDetails("A", "B", 3.0, 5.0, "p", "t", 1)))
    requires swap2 == Indexed(ELEXIUM_INDEX, Row("u", "t", SwapDetails("B", "C", 5.0, 7.0, "q", "t", 1)))
    ensures ParseSwap(hop2, pools) == Some(swap2) && ParseSwap(hop1, pools) == Some(swap1)
  {
    assert "p" != "q";
  }

  lemma TwoEvents(a: Event, b: Event, pools: Pools)
    requires ParseSwap(a, pools).Some? && ParseSwap(b, pools).Some?
    ensures ExtractSwaps([a, b], pools) == [ParseSwap(a, pools).value, ParseSwap(b, pools).value]
    ensures ExtractPools([a, b]) == []
  {
    var none: Block := [];
    assert [a, b][..1] == [a] && [a][..0] == none;
    assert a.Traded? && b.Traded?;
    hide ParseSwap;
    assert ExtractSwaps([a], pools) == [ParseSwap(a, pools).value];
    assert ExtractPools([a]) == [];
  }

  lemma SwapsOfMixedRoute(pools: Pools, hop1: Event, hop2: Event, swap1: Indexed, swap2: Indexed)
    requires pools == map["p" := Pool("A", "B", Ayin), "q" := Pool("B", "C", Elexium)]
    requires hop1 == Traded("p", AYIN_INDEX, "t", "u", 3.0, 0.0, 0.0, 5.0)
    requires hop2 == Traded("q", ELEXIUM_INDEX, "t", "u", 5.0, 0.0, 0.0, 7.0)
    requires swap1 == Indexed(AYIN_INDEX, Row("u", "t", SwapDetails("A", "B", 3.0, 5.0, "p", "t", 1)))
    requires swap2 == Indexed(ELEXIUM_INDEX, Row("u", "t", SwapDetails("B", "C", 5.0, 7.0, "q", "t", 1)))
    ensures SwapsOf(pools, [[hop2, hop1]]) == [swap2, swap1]
  {
    ParsedRoute(pools, hop1, hop2, swap1, swap2);
    TwoEvents(hop2, hop1, pools);
    hide ExtractSwaps, ExtractPools, ParseSwap;
    var none: seq<Block> := [];
    assert [[hop2, hop1]][..0] == none;
    assert PoolsOf(none) == [] && SwapsOf(pools, none) == [];
  }

  // ----- what a swap shows of its event

  /** How much of a token an event says went into the pool, and came out of it. */
  function PutIn(e: Event, pool: Pool, token: string): real
    requires e.Traded?
  {
    (if pool.tokenA == token then e.tokenAIn else 0.0) + if pool.tokenB == token then e.tokenBIn else 0.0
  }

  function TakenOut(e: Event, pool: Pool, token: string): real
    requires e.Traded?
  {
    (if pool.tokenA == token then e.tokenAOut else 0.0) + if pool.tokenB == token then e.tokenBOut else 0.0
  }

  /** The row shows as given and as got, of every token, what went into the pool and came out of it. */
  ghost predicate ShowsTrade(d: SwapDetails, e: Event, pool: Pool)
    requires e.Traded?
  {
    forall token ::
      && PutIn(e, pool, token) == (if d.tokenIn == token then d.amountIn else 0.0)
      && TakenOut(e, pool, token) == (if d.tokenOut == token then d.amountOut else 0.0)
  }

  /** An event is read as a swap exactly if it is its pool's exchange's event for one. The swap is its
      sender's, in its transaction and pool, and shows what was traded exactly if one token only went in,
      and the other one only came out. */
  lemma ReadAsTradedIff(e: Event, pools: Pools)
    ensures ParseSwap(e, pools).Some? <==>
            e.Traded? && e.contract in pools
            && ((pools[e.contract].factory == Ayin && e.eventIndex == 2)
                || (pools[e.contract].factory == Elexium && e.eventIndex == 3))
    ensures ParseSwap(e, pools).Some? ==>
              var pool, x := pools[e.contract], ParseSwap(e, pools).value;
              && x.eventIndex == e.eventIndex && x.swap.address == e.sender && x.swap.txId == e.txId
              && x.swap.details.poolAddress == e.contract && x.swap.details.txId == e.txId
              && x.swap.details.hopCount == 1
              && (pool.tokenA != pool.tokenB ==>
                    (ShowsTrade(x.swap.details, e, pool)
                     <==> if e.tokenAIn == 0.0 then e.tokenBOut == 0.0 else e.tokenBIn == 0.0 && e.tokenAOut == 0.0))
  {
    if ParseSwap(e, pools).Some? {
      var pool, d := pools[e.contract], ParseSwap(e, pools).value.swap.details;
      assert PutIn(e, pool, pool.tokenB) == PutIn(e, pool, d.tokenOut) || PutIn(e, pool, pool.tokenB) == e.tokenBIn;
      if pool.tokenA != pool.tokenB && ShowsTrade(d, e, pool) {
        assert TakenOut(e, pool, pool.tokenA) == e.tokenAOut && TakenOut(e, pool, pool.tokenB) == e.tokenBOut;
      }
    }
  }

  function MirroredPool(pool: Pool): Pool {
    pool.(tokenA := pool.tokenB, tokenB := pool.tokenA)
  }

  function MirroredEvent(e: Event): Event
    requires e.Traded?
  {
    e.(tokenAIn := e.tokenBIn, tokenBIn := e.tokenAIn, tokenAOut := e.tokenBOut, tokenBOut := e.tokenAOut)
  }

  /** Which of its tokens a pool calls A makes no difference, if exactly one of them was put in. */
  lemma MirrorReadsTheSame(e: Event, pools: Pools)
    requires e.Traded? && e.contract in pools && (e.tokenAIn == 0.0 <==> e.tokenBIn != 0.0)
    ensures ParseSwap(MirroredEvent(e), pools[e.contract := MirroredPool(pools[e.contract])]) == ParseSwap(e, pools)
  {
  }

  /** 5 B for 3 A, from the event to the row. */
  lemma SecondTokenSold(rows: seq<Row>, e: Event)
    requires e == Traded("p", 2, "t", "u", 0.0, 5.0, 3.0, 0.0)
    requires Aggregated(rows, SwapsOf(map["p" := Pool("A", "B", Ayin)], [[e]]))
    ensures rows == [Row("u", "t", SwapDetails("B", "A", 5.0, 3.0, "p", "t", 1))]
  {
    var row := Row("u", "t", SwapDetails("B", "A", 5.0, 3.0, "p", "t", 1));
    var pools: Pools := map["p" := Pool("A", "B", Ayin)];
    assert ParseSwap(e, pools) == Some(Indexed(2, row));
    hide ParseSwap;
    OneSwapBlock(e, pools);
    hide SwapsOf;
    OneSwapRows(rows, Indexed(2, row));
  }

  /** One swap makes one row. */
  lemma OneSwapRows(rows: seq<Row>, x: Indexed)
    requires Aggregated(rows, [x])
    ensures rows == [x.swap]
  {
    GroupOfOne(x);
    assert Aggregate(x.swap.txId, [x]) == x.swap;
    var swaps, tx := [x], x.swap.txId;
    assert HasTx(swaps, tx) by {
      assert swaps[0].swap.txId == tx;
    }
    hide GroupOf;
    forall r | r in rows ensures r == x.swap {
      var i :| 0 <= i < |rows| && rows[i] == r;
      assert HasRow(rows, r.txId) && HasTx(swaps, r.txId);
      assert IsRowOf(r, swaps);
    }
    assert HasRow(rows, tx);
    assert forall i :: 0 <= i < |rows| ==> rows[i] in rows;
    assert |rows| > 1 ==> rows[0].txId == x.swap.txId == rows[1].txId;
    assert |rows| == 1;
  }

  lemma GroupOfOne(x: Indexed)
    ensures GroupOf([x], x.swap.txId) == [x]
  {
    hide Filter;
    assert [] + [x] == [x];
    NothingGrouped(x.swap.txId);
    FilterOneMore([], x, InTx(x.swap.txId));
  }

  /** The row of several swaps is the user's who made the first of the list, and names the pools in the order
      of the list. */
  lemma RowNamesPools(tx: string, group: seq<Indexed>)
    requires |group| > 1
    ensures |Ordered(group)| == |group|
    ensures var row := Aggregate(tx, group);
            && row.address == Ordered(group)[0].swap.address && row.details.txId == tx
            && row.details.poolAddress == JoinPools(Ordered(group))
  {
    OrderedContents(group);
  }

  /** Pools are joined with commas between them. */
  lemma {:induction false} JoinPoolsConcat(a: seq<Indexed>, b: seq<Indexed>)
    requires a != [] && b != []
    ensures JoinPools(a + b) == JoinPools(a) + "," + JoinPools(b)
    ensures |b| == 1 ==> JoinPools(b) == b[0].swap.details.poolAddress
  {
    var n := |b| - 1;
    var last := b[n].swap.details.poolAddress;
    assert (a + b)[..|a + b| - 1] == a + b[..n] && (a + b)[|a + b| - 1] == b[n];
    assert JoinPools(a + b) == JoinPools(a + b[..n]) + "," + last;
    if n > 0 {
      JoinPoolsConcat(a, b[..n]);
      assert JoinPools(b) == JoinPools(b[..n]) + "," + last;
      assert JoinPools(a) + "," + JoinPools(b[..n]) + "," + last
          == JoinPools(a) + "," + (JoinPools(b[..n]) + "," + last);
    } else {
      assert a + b[..n] == a;
      assert JoinPools(b) == "" + last == last;
    }
  }

  // ----- the batch

  method ProcessBlocks(stored: Pools, blocks: seq<Block>) returns (newPools: seq<NewPool>, rows: seq<Row>)
    ensures newPools == PoolsOf(blocks)
    ensures Aggregated(rows, SwapsOf(stored, blocks))
  {
    hide ExtractPools, ExtractSwaps, Aggregated;
    var swaps: seq<Indexed> := [];
    var pools := stored;
    newPools := [];
    for i := 0 to |blocks|
      invariant newPools == PoolsOf(blocks[..i])
      invariant pools == Extended(stored, newPools)
      invariant swaps == SwapsOf(stored, blocks[..i])
    {
      assert blocks[..i + 1][..i] == blocks[..i];
      var blockPools := ExtractPools(blocks[i]);
      ExtendedConcat(stored, newPools, blockPools);
      pools := Extended(pools, blockPools);
      newPools := newPools + blockPools;
      swaps := swaps + ExtractSwaps(blocks[i], pools);
    }
    assert blocks[..|blocks|] == blocks;
    rows := AggregateMultiHopSwaps(swaps);
  }

  lemma {:induction false} ExtendedConcat(pools: Pools, a: seq<NewPool>, b: seq<NewPool>)
    ensures Extended(pools, a + b) == Extended(Extended(pools, a), b)
  {
    if b == [] {
      assert a + b == a;
    } else {
      ExtendedConcat(pools, a, b[..|b| - 1]);
      assert (a + b)[..|a + b| - 1] == a + b[..|b| - 1];
    }
  }

  /** Reading on with the pools in memory is reading both batches as one. */
  lemma {:induction false} BatchesCompose(stored: Pools, a: seq<Block>, b: seq<Block>)
    ensures PoolsOf(a + b) == PoolsOf(a) + PoolsOf(b)
    ensures SwapsOf(stored, a + b) == SwapsOf(stored, a) + SwapsOf(Extended(stored, PoolsOf(a)), b)
  {
    hide ExtractPools, ExtractSwaps, Extended;
    if b == [] {
      assert a + b == a;
    } else {
      BatchesCompose(stored, a, b[..|b| - 1]);
      assert (a + b)[..|a + b| - 1] == a + b[..|b| - 1];
      ExtendedConcat(stored, PoolsOf(a), PoolsOf(b));
    }
  }

  // ----- the pools table between batches

  /** `insert_pools`: the table keeps the first pool stored for an address. */
  function Kept(pools: Pools, newPools: seq<NewPool>): Pools {
    if newPools == [] then pools else
      var before, last := Kept(pools, newPools[..|newPools| - 1]), newPools[|newPools| - 1];
      if last.address in before then before else before[last.address := last.pool]
  }

  lemma {:induction false} KeptConcat(pools: Pools, a: seq<NewPool>, b: seq<NewPool>)
    ensures Kept(pools, a + b) == Kept(Kept(pools, a), b)
  {
    if b == [] {
      assert a + b == a;
    } else {
      KeptConcat(pools, a, b[..|b| - 1]);
      assert (a + b)[..|a + b| - 1] == a + b[..|b| - 1];
    }
  }

  lemma {:induction false} KeptKeys(pools: Pools, newPools: seq<NewPool>)
    ensures Kept(pools, newPools).Keys == Extended(pools, newPools).Keys
    ensures forall x :: x in Kept(pools, newPools) <==> x in pools || exists p :: p in newPools && p.address == x
  {
    if newPools != [] {
      var front, last := newPools[..|newPools| - 1], newPools[|newPools| - 1];
      KeptKeys(pools, front);
      assert newPools == front + [last];
    }
  }

  /** Swap events at a pool are read against its exchange and its tokens; other pools are not read. */
  predicate Readable(p: Pool) {
    p.factory.Ayin? || p.factory.Elexium?
  }

  predicate ReadAlike(p: Pool, q: Pool) {
    p == q || (!Readable(p) && !Readable(q))
  }

  /** No address has two definitions that would be read differently, the one kept by the table and
      the last one. */
  ghost predicate NoneRedefined(kept: Pools, extended: Pools) {
    kept.Keys == extended.Keys && forall x :: x in kept ==> ReadAlike(kept[x], extended[x])
  }

  /** An event of a swap at a pool, as its exchange emits it. */
  function SwapAt(address: string, p: Pool): Event {
    Traded(address, if p.factory.Ayin? then AYIN_INDEX else ELEXIUM_INDEX, "t", "u", 1.0, 0.0, 0.0, 1.0)
  }

  lemma ParseAlike(e: Event, kept: Pools, extended: Pools)
    requires NoneRedefined(kept, extended)
    ensures ParseSwap(e, kept) == ParseSwap(e, extended)
  {
  }

  lemma {:induction false} ExtractAlike(block: Block, kept: Pools, extended: Pools)
    requires NoneRedefined(kept, extended)
    ensures ExtractSwaps(block, kept) == ExtractSwaps(block, extended)
  {
    if block != [] {
      ExtractAlike(block[..|block| - 1], kept, extended);
      ParseAlike(block[|block| - 1], kept, extended);
      hide ParseSwap, NoneRedefined;
    }
  }

  lemma {:induction false} ExtendedAlike(kept: Pools, extended: Pools, newPools: seq<NewPool>)
    requires NoneRedefined(kept, extended)
    ensures NoneRedefined(Extended(kept, newPools), Extended(extended, newPools))
  {
    if newPools != [] {
      ExtendedAlike(kept, extended, newPools[..|newPools| - 1]);
    }
  }

  lemma {:induction false} SwapsAlike(kept: Pools, extended: Pools, blocks: seq<Block>)
    requires NoneRedefined(kept, extended)
    ensures SwapsOf(kept, blocks) == SwapsOf(extended, blocks)
  {
    if blocks != [] {
      SwapsAlike(kept, extended, blocks[..|blocks| - 1]);
      ExtendedAlike(kept, extended, PoolsOf(blocks));
      ExtractAlike(blocks[|blocks| - 1], Extended(kept, PoolsOf(blocks)), Extended(extended, PoolsOf(blocks)));
      hide NoneRedefined, ExtractSwaps, Extended, PoolsOf;
    }
  }

  /** Pools that differ where it matters are told apart by a swap at one of them. */
  lemma ToldApart(address: string, kept: Pools, extended: Pools) returns (e: Event)
    requires address in kept && address in extended && !ReadAlike(kept[address], extended[address])
    ensures e.Traded? && ParseSwap(e, kept) != ParseSwap(e, extended)
  {
    e := SwapAt(address, if Readable(kept[address]) then kept[address] else extended[address]);
  }

  lemma OneSwapBlock(e: Event, pools: Pools)
    requires e.Traded?
    ensures SwapsOf(pools, [[e]]) == if ParseSwap(e, pools).Some? then [ParseSwap(e, pools).value] else []
  {
    hide ParseSwap;
    var none: seq<Block>, empty: Block := [], [];
    assert [[e]][..0] == none && [e][..0] == empty;
    assert PoolsOf(none) == [] && SwapsOf(pools, none) == [];
    assert ExtractPools(empty) == [] && ExtractSwaps(empty, pools) == [];
    assert ExtractPools([e]) == [];
    assert PoolsOf([[e]]) == [] && Extended(pools, []) == pools;
    assert ExtractSwaps([e], pools) == if ParseSwap(e, pools).Some? then [ParseSwap(e, pools).value] else [];
  }

  ghost predicate ComposesOverTable(stored: Pools, a: seq<Block>) {
    forall b: seq<Block> :: SwapsOf(stored, a + b) == SwapsOf(stored, a) + SwapsOf(Kept(stored, PoolsOf(a)), b)
  }

  /** Reading any later batch against the table, after the first one's pools have been stored, is
      reading both as one exactly if no pool was redefined in a way that is read differently. */
  lemma ComposesOverTableIff(stored: Pools, a: seq<Block>)
    ensures ComposesOverTable(stored, a)
            <==> NoneRedefined(Kept(stored, PoolsOf(a)), Extended(stored, PoolsOf(a)))
  {
    hide SwapsOf, NoneRedefined, ParseSwap, Kept, Extended, PoolsOf;
    var kept, extended := Kept(stored, PoolsOf(a)), Extended(stored, PoolsOf(a));
    if NoneRedefined(kept, extended) {
      forall b: seq<Block> ensures SwapsOf(stored, a + b) == SwapsOf(stored, a) + SwapsOf(kept, b) {
        BatchesCompose(stored, a, b);
        SwapsAlike(kept, extended, b);
      }
    } else {
      var x := Redefined(stored, PoolsOf(a));
      var e := ToldApart(x, kept, extended);
      var b: seq<Block> := [[e]];
      BatchesCompose(stored, a, b);
      OneSwapBlock(e, kept);
      OneSwapBlock(e, extended);
      SameFront(SwapsOf(stored, a), SwapsOf(kept, b), SwapsOf(extended, b));
    }
  }

  lemma SameFront(front: seq<Indexed>, x: seq<Indexed>, y: seq<Indexed>)
    ensures front + x == front + y ==> x == y
  {
    assert (front + x)[|front|..] == x && (front + y)[|front|..] == y;
  }

  lemma Redefined(stored: Pools, newPools: seq<NewPool>) returns (x: string)
    requires !NoneRedefined(Kept(stored, newPools), Extended(stored, newPools))
    ensures x in Kept(stored, newPools) && x in Extended(stored, newPools)
    ensures !ReadAlike(Kept(stored, newPools)[x], Extended(stored, newPools)[x])
  {
    KeptKeys(stored, newPools);
    hide Kept, Extended, ReadAlike;
    x :| x in Kept(stored, newPools) && !ReadAlike(Kept(stored, newPools)[x], Extended(stored, newPools)[x]);
  }

  /** Every address is defined in one way only. */
  ghost predicate Agreeing(stored: Pools, newPools: seq<NewPool>) {
    && (forall p :: p in newPools && p.address in stored ==> p.pool == stored[p.address])
    && (forall p, q :: p in newPools && q in newPools && p.address == q.address ==> p.pool == q.pool)
  }

  lemma {:induction false} AgreeingKept(stored: Pools, newPools: seq<NewPool>)
    requires Agreeing(stored, newPools)
    ensures Kept(stored, newPools) == Extended(stored, newPools)
    ensures forall p :: p in newPools ==>
                p.address in Kept(stored, newPools) && Kept(stored, newPools)[p.address] == p.pool
    ensures forall x :: x in stored ==> x in Kept(stored, newPools) && Kept(stored, newPools)[x] == stored[x]
  {
    if newPools != [] {
      var front, last := newPools[..|newPools| - 1], newPools[|newPools| - 1];
      assert newPools == front + [last];
      AgreeingKept(stored, front);
      KeptKeys(stored, front);
    }
  }

  /** An address that is created twice: in memory the second definition is read, after a store the
      first one. */
  lemma RedefinedPoolReadTwice(ab: NewPool, cd: NewPool, e: Event)
    requires ab == NewPool("p", Pool("A", "B", Ayin)) && cd == NewPool("p", Pool("C", "D", Ayin))
    requires e == Traded("p", AYIN_INDEX, "t", "u", 1.0, 0.0, 0.0, 1.0)
    ensures var a, b := [[Created(ab), Created(cd)]], [[e]];
            && |SwapsOf(Extended(map[], PoolsOf(a)), b)| == |SwapsOf(Kept(map[], PoolsOf(a)), b)| == 1
            && SwapsOf(Extended(map[], PoolsOf(a)), b)[0].swap.details.tokenIn == "C"
            && SwapsOf(Kept(map[], PoolsOf(a)), b)[0].swap.details.tokenIn == "A"
            && SwapsOf(map[], a + b) != SwapsOf(map[], a) + SwapsOf(Kept(map[], PoolsOf(a)), b)
  {
    var a: seq<Block>, b: seq<Block> := [[Created(ab), Created(cd)]], [[e]];
    TwoCreated(ab, cd);
    var extended: Pools, kept: Pools := map["p" := cd.pool], map["p" := ab.pool];
    assert ParseSwap(e, extended).Some? && ParseSwap(e, extended).value.swap.details.tokenIn == "C";
    assert ParseSwap(e, kept).Some? && ParseSwap(e, kept).value.swap.details.tokenIn == "A";
    hide *;
    OneSwapBlock(e, extended);
    OneSwapBlock(e, kept);
    BatchesCompose(map[], a, b);
    SameFront(SwapsOf(map[], a), SwapsOf(kept, b), SwapsOf(extended, b));
  }

  lemma TwoCreated(x: NewPool, y: NewPool)
    requires x.address == y.address
    ensures PoolsOf([[Created(x), Created(y)]]) == [x, y]
    ensures Extended(map[], [x, y]) == map[y.address := y.pool]
    ensures Kept(map[], [x, y]) == map[x.address := x.pool]
  {
    TwoPools(x, y);
    hide PoolsOf;
    assert [x, y][..1] == [x] && [x][..0] == [];
    assert Kept(map[], [x]) == map[x.address := x.pool] && Extended(map[], [x]) == map[x.address := x.pool];
  }

  lemma TwoPools(x: NewPool, y: NewPool)
    ensures PoolsOf([[Created(x), Created(y)]]) == [x, y]
  {
    var none: seq<Block>, empty: Block := [], [];
    var block := [Created(x), Created(y)];
    assert [block][..0] == none && block[..1] == [Created(x)] && [Created(x)][..0] == empty;
    assert ExtractPools([Created(x)]) == [x] && ExtractPools(block) == [x, y];
  }

  lemma GroupOfConcat(a: seq<Indexed>, b: seq<Indexed>, tx: string)
    ensures GroupOf(a + b, tx) == GroupOf(a, tx) + GroupOf(b, tx)
  {
    FilterConcat(a, b, InTx(tx));
  }

  /** Since a transaction is in one block, the rows of two batches are the rows of the one they make up. */
  lemma RowsCompose(r: seq<Row>, a: seq<Indexed>, s: seq<Row>, b: seq<Indexed>)
    requires Aggregated(r, a) && Aggregated(s, b)
    requires forall tx :: !(HasTx(a, tx) && HasTx(b, tx))
    ensures Aggregated(r + s, a + b)
  {
    hide Aggregate, GroupOf, HasTx, HasRow;
    forall tx ensures HasTx(a + b, tx) <==> HasTx(a, tx) || HasTx(b, tx) {
      GroupOfConcat(a, b, tx);
      GroupOfMembers(a, tx);
      GroupOfMembers(b, tx);
      GroupOfMembers(a + b, tx);
    }
    forall tx ensures HasRow(r + s, tx) <==> HasRow(r, tx) || HasRow(s, tx) {
      HasRowConcat(r, s, tx);
    }
    forall row | row in r + s ensures IsRowOf(row, a + b) {
      var tx := row.txId;
      GroupOfConcat(a, b, tx);
      GroupOfMembers(a, tx);
      GroupOfMembers(b, tx);
      assert row in r ==> IsRowOf(row, a);
      assert row in s ==> IsRowOf(row, b);
      assert GroupOf(a, tx) + [] == GroupOf(a, tx) && [] + GroupOf(b, tx) == GroupOf(b, tx);
    }
    RowsDiffer(r, a, s, b);
  }

  lemma HasRowConcat(r: seq<Row>, s: seq<Row>, tx: string)
    ensures HasRow(r + s, tx) <==> HasRow(r, tx) || HasRow(s, tx)
  {
    if HasRow(r, tx) {
      var i :| 0 <= i < |r| && r[i].txId == tx;
      assert (r + s)[i].txId == tx;
    }
    if HasRow(s, tx) {
      var i :| 0 <= i < |s| && s[i].txId == tx;
      assert (r + s)[|r| + i].txId == tx;
    }
  }

  lemma RowsDiffer(r: seq<Row>, a: seq<Indexed>, s: seq<Row>, b: seq<Indexed>)
    requires Aggregated(r, a) && Aggregated(s, b)
    requires forall tx :: !(HasTx(a, tx) && HasTx(b, tx))
    ensures OneRowEach(r + s)
  {
    hide IsRowOf, HasTx;
    var ta, tb := iset tx | HasTx(a, tx), iset tx | HasTx(b, tx);
    forall i, j | 0 <= i < |r| && 0 <= j < |s| ensures r[i].txId != s[j].txId {
      assert HasRow(r, r[i].txId) && HasRow(s, s[j].txId);
      assert r[i].txId in ta && s[j].txId in tb;
    }
  }
}
