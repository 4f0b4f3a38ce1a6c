/** The reorganisation walk: from a block, follow parents and make every block on the way the
    only main-chain block of its chain at its height, in the block and transaction tables. */
module MainChain {
  import opened Options

  type Hash = string

  const DEFAULT_GROUP_NUM: int := 4

  datatype Block = Block(chainFrom: int, chainTo: int, height: nat, deps: seq<Option<Hash>>, mainChain: bool)

  datatype Transaction = Transaction(blockHash: Hash, mainChain: bool)

  type Blocks = map<Hash, Block>
  type Transactions = map<Hash, Transaction>

  /** How a walk ends: at the first ancestor that is not stored, or in one of the source's panics. */
  datatype Outcome =
    | Missing(hash: Hash)
    | GenesisReached(hash: Hash)   // `parent` is None at height 0 and is unwrapped
    | BadDeps(hash: Hash)          // an absent dependency, or an index outside the list
    | WrongChain(hash: Hash)       // the assertion on the chain of a block that is not main

  /** `BlockModel::parent`: the dependency at the group number; None stands for a panic here. */
  function Parent(b: Block, groupNum: Option<int>): Option<Hash> {
    var i := if groupNum.Some? then groupNum.value else DEFAULT_GROUP_NUM;
    if !(0 <= i < |b.deps|) || exists j :: 0 <= j < |b.deps| && b.deps[j].None? then None else b.deps[i]
  }

  /** Every stored block above genesis is at least one height above its parent, if that is stored too. */
  ghost predicate Grounded(blocks: Blocks, groupNum: Option<int>) {
    forall h :: h in blocks && blocks[h].height > 0
                && Parent(blocks[h], groupNum).Some? && Parent(blocks[h], groupNum).value in blocks ==>
      blocks[Parent(blocks[h], groupNum).value].height < blocks[h].height
  }

  ghost predicate SameSlot(a: Block, b: Block) {
    a.chainFrom == b.chainFrom && a.chainTo == b.chainTo && a.height == b.height
  }

  // ----- the walk on paper: it reads only what the flag updates do not change

  ghost function HeightOf(blocks: Blocks, hash: Hash): nat {
    if hash in blocks then blocks[hash].height + 1 else 0
  }

  /** The blocks whose flags are set, from the starting block down. */
  ghost function Visited(blocks: Blocks, hash: Hash, chainFrom: int, chainTo: int, groupNum: Option<int>): seq<Hash>
    requires Grounded(blocks, groupNum)
    decreases HeightOf(blocks, hash)
  {
    if hash !in blocks || OffChain(blocks[hash], chainFrom, chainTo) then []
    else if blocks[hash].height == 0 || Parent(blocks[hash], groupNum).None? then [hash]
    else [hash] + Visited(blocks, Parent(blocks[hash], groupNum).value, chainFrom, chainTo, groupNum)
  }

  ghost predicate OffChain(b: Block, chainFrom: int, chainTo: int) {
    !b.mainChain && !(b.chainFrom == chainFrom && b.chainTo == chainTo)
  }

  ghost function WalkEnd(blocks: Blocks, hash: Hash, chainFrom: int, chainTo: int, groupNum: Option<int>): Outcome
    requires Grounded(blocks, groupNum)
    decreases HeightOf(blocks, hash)
  {
    if hash !in blocks then Missing(hash)
    else if OffChain(blocks[hash], chainFrom, chainTo) then WrongChain(hash)
    else if blocks[hash].height == 0 then GenesisReached(hash)
    else if Parent(blocks[hash], groupNum).None? then BadDeps(hash)
    else WalkEnd(blocks, Parent(blocks[hash], groupNum).value, chainFrom, chainTo, groupNum)
  }

  // ----- the effect on the tables

  /** hash is stored, and is not visited itself but sits in the slot of a visited block. */
  ghost predicate Displaced(blocks: Blocks, visited: seq<Hash>, hash: Hash) {
    hash in blocks && hash !in visited
    && exists v :: v in visited && v in blocks && SameSlot(blocks[v], blocks[hash])
  }

  ghost function Flag(blocks: Blocks, visited: seq<Hash>, hash: Hash, flag: bool): bool {
    if hash in visited then true else if Displaced(blocks, visited, hash) then false else flag
  }

  ghost function MarkedBlocks(blocks: Blocks, visited: seq<Hash>): Blocks {
    map h | h in blocks :: blocks[h].(mainChain := Flag(blocks, visited, h, blocks[h].mainChain))
  }

  ghost function MarkedTransactions(txs: Transactions, blocks: Blocks, visited: seq<Hash>): Transactions {
    map t | t in txs :: txs[t].(mainChain := Flag(blocks, visited, txs[t].blockHash, txs[t].mainChain))
  }

  // ----- what the walk visits

  /** Stored blocks of strictly falling heights, all below the bound. */
  ghost predicate Descending(blocks: Blocks, v: seq<Hash>, bound: nat) {
    && (forall i :: 0 <= i < |v| ==> v[i] in blocks && blocks[v[i]].height < bound)
    && (forall i, j :: 0 <= i < j < |v| ==> blocks[v[j]].height < blocks[v[i]].height)
  }

  lemma DescendingCons(blocks: Blocks, h: Hash, w: seq<Hash>)
    requires h in blocks && Descending(blocks, w, blocks[h].height)
    ensures Descending(blocks, [h] + w, blocks[h].height + 1)
  {
  }

  lemma {:induction false} VisitedDescends(blocks: Blocks, hash: Hash, cf: int, ct: int, g: Option<int>)
    requires Grounded(blocks, g)
    ensures Descending(blocks, Visited(blocks, hash, cf, ct, g), HeightOf(blocks, hash))
    decreases HeightOf(blocks, hash)
  {
    if hash in blocks && !OffChain(blocks[hash], cf, ct) && blocks[hash].height > 0 && Parent(blocks[hash], g).Some? {
      hide Parent;
      var p := Parent(blocks[hash], g).value;
      VisitedDescends(blocks, p, cf, ct, g);
      assert HeightOf(blocks, p) <= blocks[hash].height;
      assert Descending(blocks, Visited(blocks, p, cf, ct, g), blocks[hash].height);
      DescendingCons(blocks, hash, Visited(blocks, p, cf, ct, g));
    }
  }

  /** All dependencies are there, and the one at the group number, or the fifth without one, is this hash. */
  ghost predicate NamesAsDep(b: Block, groupNum: Option<int>, hash: Hash) {
    && (forall j :: 0 <= j < |b.deps| ==> b.deps[j].Some?)
    && if groupNum.Some? then 0 <= groupNum.value < |b.deps| && b.deps[groupNum.value] == Some(hash)
       else |b.deps| > 4 && b.deps[4] == Some(hash)
  }

  /** A block the walk accepts: it is in the chain named, or main already. */
  predicate IsOn(b: Block, chainFrom: int, chainTo: int) {
    (b.chainFrom == chainFrom && b.chainTo == chainTo) || b.mainChain
  }

  lemma ParentIsDep(b: Block, groupNum: Option<int>)
    ensures Parent(b, groupNum).Some? ==> NamesAsDep(b, groupNum, Parent(b, groupNum).value)
    ensures Parent(b, groupNum).None? ==> forall hash :: !NamesAsDep(b, groupNum, hash)
  {
  }

  /** The visited blocks form a path from the starting block, each naming the next as its parent; and the walk
      ends in a panic over dependencies only where no parent is named. */
  lemma {:induction false} VisitedIsPath(blocks: Blocks, hash: Hash, cf: int, ct: int, g: Option<int>)
    requires Grounded(blocks, g)
    ensures var v := Visited(blocks, hash, cf, ct, g);
            && (v != [] ==> v[0] == hash)
            && (forall i :: 0 <= i < |v| ==> v[i] in blocks)
            && (forall i :: 0 <= i < |v| - 1 ==> NamesAsDep(blocks[v[i]], g, v[i + 1]))
            && (WalkEnd(blocks, hash, cf, ct, g).Missing? && v != [] ==>
                  NamesAsDep(blocks[v[|v| - 1]], g, WalkEnd(blocks, hash, cf, ct, g).hash))
            && (WalkEnd(blocks, hash, cf, ct, g).Missing? ==> WalkEnd(blocks, hash, cf, ct, g).hash !in blocks)
            && (WalkEnd(blocks, hash, cf, ct, g).BadDeps? ==>
                  var last := WalkEnd(blocks, hash, cf, ct, g).hash;
                  && last in blocks && blocks[last].height > 0
                  && forall next :: !NamesAsDep(blocks[last], g, next))
            && (WalkEnd(blocks, hash, cf, ct, g).WrongChain? ==>
                  var last := WalkEnd(blocks, hash, cf, ct, g).hash;
                  last in blocks && !IsOn(blocks[last], cf, ct))
            && (forall i :: 0 <= i < |v| ==> IsOn(blocks[v[i]], cf, ct))
    decreases HeightOf(blocks, hash)
  {
    if hash in blocks && !OffChain(blocks[hash], cf, ct) && blocks[hash].height > 0 && Parent(blocks[hash], g).Some? {
      ParentIsDep(blocks[hash], g);
      hide Parent, NamesAsDep;
      VisitedIsPath(blocks, Parent(blocks[hash], g).value, cf, ct, g);
    } else if hash in blocks {
      ParentIsDep(blocks[hash], g);
    }
  }

  // ----- when the walk returns

  /** The n-th ancestor; None once a block is missing, at genesis, or without a usable parent. */
  ghost function Ancestor(blocks: Blocks, hash: Hash, n: nat, g: Option<int>): Option<Hash>
    decreases n
  {
    if n == 0 then Some(hash)
    else if hash !in blocks || blocks[hash].height == 0 || Parent(blocks[hash], g).None? then None
    else Ancestor(blocks, Parent(blocks[hash], g).value, n - 1, g)
  }

  /** Parents of blocks above genesis are in the chain of their children. */
  ghost predicate OneChain(blocks: Blocks, g: Option<int>) {
    forall h :: h in blocks && blocks[h].height > 0
                && Parent(blocks[h], g).Some? && Parent(blocks[h], g).value in blocks ==>
      var p := blocks[Parent(blocks[h], g).value];
      p.chainFrom == blocks[h].chainFrom && p.chainTo == blocks[h].chainTo
  }

  ghost predicate MissingAt(blocks: Blocks, hash: Hash, n: nat, g: Option<int>) {
    Ancestor(blocks, hash, n, g).Some? && Ancestor(blocks, hash, n, g).value !in blocks
  }

  /** Every stored block above genesis names a usable parent. */
  ghost predicate UsableDeps(blocks: Blocks, g: Option<int>) {
    forall h :: h in blocks && blocks[h].height > 0 ==> Parent(blocks[h], g).Some?
  }

  /** Called for a block of the chain it names, the walk returns exactly when some ancestor is
      missing from the table before genesis, and it then returns that ancestor. Otherwise, with
      usable dependencies, it ends in the unwrap at height 0. */
  lemma {:induction false} ReturnsIffAncestorMissing(blocks: Blocks, hash: Hash, cf: int, ct: int, g: Option<int>)
    returns (n: nat)
    requires Grounded(blocks, g) && OneChain(blocks, g)
    requires hash in blocks ==> blocks[hash].chainFrom == cf && blocks[hash].chainTo == ct
    ensures WalkEnd(blocks, hash, cf, ct, g).Missing? <==> exists m: nat :: MissingAt(blocks, hash, m, g)
    ensures WalkEnd(blocks, hash, cf, ct, g).Missing? ==>
              MissingAt(blocks, hash, n, g) &&
              Ancestor(blocks, hash, n, g) == Some(WalkEnd(blocks, hash, cf, ct, g).hash)
    ensures !WalkEnd(blocks, hash, cf, ct, g).WrongChain?
    ensures UsableDeps(blocks, g) && !(exists m: nat :: MissingAt(blocks, hash, m, g)) ==>
              var end := WalkEnd(blocks, hash, cf, ct, g);
              end.GenesisReached? && end.hash in blocks && blocks[end.hash].height == 0
    decreases HeightOf(blocks, hash)
  {
    hide Parent;
    n := 0;
    if hash !in blocks {
      assert MissingAt(blocks, hash, 0, g);
    } else if blocks[hash].height > 0 && Parent(blocks[hash], g).Some? {
      var p := Parent(blocks[hash], g).value;
      n := ReturnsIffAncestorMissing(blocks, p, cf, ct, g);
      n := n + 1;
      if m: nat :| MissingAt(blocks, hash, m, g) {
        assert m > 0 && Ancestor(blocks, hash, m, g) == Ancestor(blocks, p, m - 1, g);
        assert MissingAt(blocks, p, m - 1, g);
      }
      if WalkEnd(blocks, p, cf, ct, g).Missing? {
        assert Ancestor(blocks, hash, n, g) == Ancestor(blocks, p, n - 1, g);
        assert MissingAt(blocks, hash, n, g);
      }
    } else {
      forall m: nat ensures !MissingAt(blocks, hash, m, g) {
      }
    }
  }

  /** A complete history of two blocks: the walk from the second ends in the unwrap at the first. */
  lemma CompleteHistoryPanics(genesis: Block, child: Block)
    requires genesis == Block(0, 0, 0, [Some("g")], true) && child == Block(0, 0, 1, [Some("g")], false)
    ensures var blocks: Blocks := map["g" := genesis, "c" := child];
            && Grounded(blocks, Some(0)) && OneChain(blocks, Some(0)) && UsableDeps(blocks, Some(0))
            && WalkEnd(blocks, "c", 0, 0, Some(0)) == GenesisReached("g")
            && Visited(blocks, "c", 0, 0, Some(0)) == ["c", "g"]
  {
    var blocks: Blocks := map["g" := genesis, "c" := child];
    assert "g" != "c" && Parent(child, Some(0)) == Some("g") == Parent(genesis, Some(0));
    hide Parent;
    assert blocks["c"] == child && blocks["g"] == genesis;
    assert Grounded(blocks, Some(0));
    assert Visited(blocks, "g", 0, 0, Some(0)) == ["g"];
  }

  // ----- what the flags say afterwards

  /** After the walk a visited block is the only main block of its slot. */
  lemma VisitedAloneInSlot(blocks: Blocks, hash: Hash, cf: int, ct: int, g: Option<int>, v: Hash, other: Hash)
    requires Grounded(blocks, g)
    requires v in Visited(blocks, hash, cf, ct, g)
    ensures v in blocks && MarkedBlocks(blocks, Visited(blocks, hash, cf, ct, g))[v].mainChain
    ensures other in blocks && other != v && SameSlot(blocks[v], blocks[other]) ==>
              !MarkedBlocks(blocks, Visited(blocks, hash, cf, ct, g))[other].mainChain
  {
    var visited := Visited(blocks, hash, cf, ct, g);
    VisitedDescends(blocks, hash, cf, ct, g);
    if other in visited && other != v {
      var i :| 0 <= i < |visited| && visited[i] == v;
      var j :| 0 <= j < |visited| && visited[j] == other;
    }
  }

  lemma {:induction false} VisitedInChain(blocks: Blocks, hash: Hash, cf: int, ct: int, g: Option<int>)
    requires Grounded(blocks, g) && OneChain(blocks, g)
    requires hash in blocks ==> blocks[hash].chainFrom == cf && blocks[hash].chainTo == ct
    ensures forall v :: v in Visited(blocks, hash, cf, ct, g) ==>
              v in blocks && blocks[v].chainFrom == cf && blocks[v].chainTo == ct
    decreases HeightOf(blocks, hash)
  {
    if hash in blocks && !OffChain(blocks[hash], cf, ct) && blocks[hash].height > 0 && Parent(blocks[hash], g).Some? {
      hide Parent;
      VisitedInChain(blocks, Parent(blocks[hash], g).value, cf, ct, g);
    }
  }

  /** Nothing but flags changes, and those only at the chain's visited heights. */
  lemma OthersUntouched(blocks: Blocks, hash: Hash, cf: int, ct: int, g: Option<int>, other: Hash)
    requires Grounded(blocks, g) && OneChain(blocks, g)
    requires hash in blocks ==> blocks[hash].chainFrom == cf && blocks[hash].chainTo == ct
    requires other in blocks
    ensures var visited := Visited(blocks, hash, cf, ct, g);
            var after := MarkedBlocks(blocks, visited);
            && after[other] == blocks[other].(mainChain := after[other].mainChain)
            && (after[other] != blocks[other] ==>
                  blocks[other].chainFrom == cf && blocks[other].chainTo == ct
                  && exists v :: v in visited && v in blocks && blocks[v].height == blocks[other].height)
  {
    VisitedInChain(blocks, hash, cf, ct, g);
  }

  ghost predicate OneMainPerSlot(blocks: Blocks) {
    forall a, b :: a in blocks && b in blocks && a != b && SameSlot(blocks[a], blocks[b]) ==>
      !(blocks[a].mainChain && blocks[b].mainChain)
  }

  /** The walk keeps the table free of slots with two main blocks. */
  lemma WalkKeepsOneMain(blocks: Blocks, hash: Hash, cf: int, ct: int, g: Option<int>)
    requires Grounded(blocks, g) && OneMainPerSlot(blocks)
    ensures OneMainPerSlot(MarkedBlocks(blocks, Visited(blocks, hash, cf, ct, g)))
  {
    var visited := Visited(blocks, hash, cf, ct, g);
    var after := MarkedBlocks(blocks, visited);
    forall a, b | a in after && b in after && a != b && SameSlot(after[a], after[b])
      ensures !(after[a].mainChain && after[b].mainChain)
    {
      if a in visited {
        VisitedAloneInSlot(blocks, hash, cf, ct, g, a, b);
      } else if b in visited {
        VisitedAloneInSlot(blocks, hash, cf, ct, g, b, a);
      }
    }
  }

  /** Transactions carry the flag of their block. */
  ghost predicate InStep(blocks: Blocks, txs: Transactions) {
    forall t :: t in txs && txs[t].blockHash in blocks ==> txs[t].mainChain == blocks[txs[t].blockHash].mainChain
  }

  /** The walk keeps transactions in step, and puts those of every block it sets in step. */
  lemma WalkKeepsInStep(blocks: Blocks, txs: Transactions, visited: seq<Hash>)
    ensures InStep(blocks, txs) ==> InStep(MarkedBlocks(blocks, visited), MarkedTransactions(txs, blocks, visited))
    ensures forall t :: t in txs && txs[t].blockHash in blocks
                           && (txs[t].blockHash in visited || Displaced(blocks, visited, txs[t].blockHash))
                       ==> MarkedTransactions(txs, blocks, visited)[t].mainChain
                           == MarkedBlocks(blocks, visited)[txs[t].blockHash].mainChain
  {
  }

  // ----- the loop

  class Database {
    var blocks: Blocks
    var txs: Transactions

    constructor (blocks: Blocks, txs: Transactions)
      ensures this.blocks == blocks && this.txs == txs
    {
      this.blocks, this.txs := blocks, txs;
    }

    /** The hashes in one slot, except one. */
    method FetchAtHeightFilterOne(chainFrom: int, chainTo: int, height: nat, ignored: Hash) returns (hashes: set<Hash>)
      ensures hashes == InSlot(blocks, chainFrom, chainTo, height, ignored)
    {
      hashes := InSlot(blocks, chainFrom, chainTo, height, ignored);
    }

    /** Sets the flag of the given blocks and of their transactions, one block per database
        transaction, in any order. */
    method UpdateMainChainStatus(hashes: set<Hash>, flag: bool)
      modifies this
      ensures blocks == SetBlocks(old(blocks), hashes, flag)
      ensures txs == SetTransactions(old(txs), hashes, flag)
    {
      var todo := hashes;
      while todo != {}
        invariant todo <= hashes
        invariant blocks == SetBlocks(old(blocks), hashes - todo, flag)
        invariant txs == SetTransactions(old(txs), hashes - todo, flag)
      {
        var hash :| hash in todo;
        SetOneMore(old(blocks), old(txs), hashes - todo, hash, flag);
        assert hashes - (todo - {hash}) == hashes - todo + {hash};
        todo := todo - {hash};
        blocks := SetBlocks(blocks, {hash}, flag);
        txs := SetTransactions(txs, {hash}, flag);
      }
      assert hashes - todo == hashes;
    }

    /** One turn of the walk: unset the block's rivals, then set the block. */
    method MakeMain(current: Hash, ghost blocks0: Blocks, ghost txs0: Transactions, ghost done: seq<Hash>)
      requires blocks == MarkedBlocks(blocks0, done) && txs == MarkedTransactions(txs0, blocks0, done)
      requires current in blocks0 && Above(blocks0, done, current)
      modifies this
      ensures blocks == MarkedBlocks(blocks0, done + [current])
      ensures txs == MarkedTransactions(txs0, blocks0, done + [current])
    {
      hide MarkedTransactions, SetBlocks, SetTransactions, InSlot;
      Untouched(blocks0, done, current);
      var block := blocks[current];
      var rivals := FetchAtHeightFilterOne(block.chainFrom, block.chainTo, block.height, current);
      RivalsOf(blocks0, done, current, rivals);
      MarkOneMore(blocks0, txs0, done, current, rivals);
      UpdateMainChainStatus(rivals, false);
      UpdateMainChainStatus({current}, true);
    }

    method UpdateMainChain(blockHash: Hash, chainFrom: int, chainTo: int, groupNum: Option<int>)
      returns (outcome: Outcome)
      requires Grounded(blocks, groupNum)
      modifies this
      ensures outcome == WalkEnd(old(blocks), blockHash, chainFrom, chainTo, groupNum)
      ensures var visited := Visited(old(blocks), blockHash, chainFrom, chainTo, groupNum);
              && blocks == MarkedBlocks(old(blocks), visited)
              && txs == MarkedTransactions(old(txs), old(blocks), visited)
    {
      hide *;
      var current := blockHash;
      ghost var done: seq<Hash> := [];
      ghost var blocks0, txs0 := blocks, txs;
      ghost var all := Visited(blocks0, blockHash, chainFrom, chainTo, groupNum);
      MarkNothing(blocks, txs);
      AboveNothing(blocks0, current);
      while true
        invariant blocks == MarkedBlocks(blocks0, done) && txs == MarkedTransactions(txs0, blocks0, done)
        invariant Above(blocks0, done, current)
        invariant done + Visited(blocks0, current, chainFrom, chainTo, groupNum) == all
        invariant WalkEnd(blocks0, current, chainFrom, chainTo, groupNum)
                  == WalkEnd(blocks0, blockHash, chainFrom, chainTo, groupNum)
        decreases HeightOf(blocks0, current)
      {
        MarkedKeys(blocks0, done);
        WalkCases(blocks0, current, chainFrom, chainTo, groupNum);
        if current !in blocks {
          assert done == all;
          return Missing(current);
        }
        Untouched(blocks0, done, current);
        var block := blocks[current];
        if !block.mainChain && !(block.chainFrom == chainFrom && block.chainTo == chainTo) {
          assert done == all;
          return WrongChain(current);
        }
        MakeMain(current, blocks0, txs0, done);
        if block.height == 0 {
          assert done + [current] == all;
          return GenesisReached(current);
        }
        var parent := Parent(block, groupNum);
        if parent.None? {
          assert done + [current] == all;
          return BadDeps(current);
        }
        AboveParent(blocks0, done, current, groupNum);
        assert done + [current] + Visited(blocks0, parent.value, chainFrom, chainTo, groupNum) == all;
        done := done + [current];
        current := parent.value;
      }
    }
  }

  lemma WalkCases(blocks: Blocks, h: Hash, cf: int, ct: int, g: Option<int>)
    requires Grounded(blocks, g)
    ensures var v, e := Visited(blocks, h, cf, ct, g), WalkEnd(blocks, h, cf, ct, g);
            if h !in blocks then v == [] && e == Missing(h)
            else if !blocks[h].mainChain && !(blocks[h].chainFrom == cf && blocks[h].chainTo == ct)
            then v == [] && e == WrongChain(h)
            else if blocks[h].height == 0 then v == [h] && e == GenesisReached(h)
            else if Parent(blocks[h], g).None? then v == [h] && e == BadDeps(h)
            else var p := Parent(blocks[h], g).value;
                 && v == [h] + Visited(blocks, p, cf, ct, g) && e == WalkEnd(blocks, p, cf, ct, g)
                 && HeightOf(blocks, p) < HeightOf(blocks, h)
  {
    hide Parent;
  }

  lemma AboveNothing(blocks: Blocks, h: Hash)
    ensures Above(blocks, [], h)
  {
  }

  lemma AboveParent(blocks: Blocks, done: seq<Hash>, h: Hash, g: Option<int>)
    requires Grounded(blocks, g) && h in blocks && blocks[h].height > 0
    requires Parent(blocks[h], g).Some? && Above(blocks, done, h)
    ensures Above(blocks, done + [h], Parent(blocks[h], g).value)
  {
    hide Parent;
  }

  function InSlot(blocks: Blocks, chainFrom: int, chainTo: int, height: nat, ignored: Hash): set<Hash> {
    set h | h in blocks && h != ignored && blocks[h].chainFrom == chainFrom && blocks[h].chainTo == chainTo
            && blocks[h].height == height
  }

  function SetBlocks(blocks: Blocks, hashes: set<Hash>, flag: bool): Blocks {
    map h | h in blocks :: if h in hashes then blocks[h].(mainChain := flag) else blocks[h]
  }

  function SetTransactions(txs: Transactions, hashes: set<Hash>, flag: bool): Transactions {
    map t | t in txs :: if txs[t].blockHash in hashes then txs[t].(mainChain := flag) else txs[t]
  }

  lemma SetOneMore(blocks: Blocks, txs: Transactions, done: set<Hash>, hash: Hash, flag: bool)
    ensures SetBlocks(SetBlocks(blocks, done, flag), {hash}, flag) == SetBlocks(blocks, done + {hash}, flag)
    ensures SetTransactions(SetTransactions(txs, done, flag), {hash}, flag) == SetTransactions(txs, done + {hash}, flag)
  {
  }

  lemma MarkNothing(blocks: Blocks, txs: Transactions)
    ensures MarkedBlocks(blocks, []) == blocks && MarkedTransactions(txs, blocks, []) == txs
  {
  }

  lemma MarkedKeys(blocks: Blocks, done: seq<Hash>)
    ensures MarkedBlocks(blocks, done).Keys == blocks.Keys
  {
  }

  /** All blocks in done are above hash. */
  ghost predicate Above(blocks: Blocks, done: seq<Hash>, hash: Hash) {
    forall d :: d in done ==> d in blocks && blocks[d].height >= HeightOf(blocks, hash)
  }

  /** The block the walk has come to still has its original flag. */
  lemma Untouched(blocks: Blocks, done: seq<Hash>, current: Hash)
    requires current in blocks && Above(blocks, done, current)
    ensures MarkedBlocks(blocks, done)[current] == blocks[current]
  {
  }

  lemma RivalsOf(blocks: Blocks, done: seq<Hash>, current: Hash, rivals: set<Hash>)
    requires current in blocks
    requires var b := blocks[current];
             rivals == InSlot(MarkedBlocks(blocks, done), b.chainFrom, b.chainTo, b.height, current)
    ensures Rivals(blocks, current, rivals)
  {
  }

  /** rivals are the other blocks in current's slot. */
  ghost predicate Rivals(blocks: Blocks, current: Hash, rivals: set<Hash>)
    requires current in blocks
  {
    forall h :: h in rivals <==> h in blocks && h != current && SameSlot(blocks[current], blocks[h])
  }

  lemma FlagOneMore(blocks: Blocks, done: seq<Hash>, current: Hash, rivals: set<Hash>, h: Hash, flag: bool)
    requires current in blocks && Above(blocks, done, current) && Rivals(blocks, current, rivals)
    ensures Flag(blocks, done + [current], h, flag)
         == if h == current then true else if h in rivals then false else Flag(blocks, done, h, flag)
  {
    var done' := done + [current];
    assert h in done' <==> h in done || h == current;
    if h !in done' && h !in rivals {
      if Displaced(blocks, done, h) {
        var v :| v in done && v in blocks && SameSlot(blocks[v], blocks[h]);
        assert v in done';
      }
    } else if h in rivals {
      assert current in done';
    }
  }

  lemma MarkOneMore(blocks: Blocks, txs: Transactions, done: seq<Hash>, current: Hash, rivals: set<Hash>)
    requires current in blocks && Above(blocks, done, current) && Rivals(blocks, current, rivals)
    ensures SetBlocks(SetBlocks(MarkedBlocks(blocks, done), rivals, false), {current}, true)
         == MarkedBlocks(blocks, done + [current])
    ensures SetTransactions(SetTransactions(MarkedTransactions(txs, blocks, done), rivals, false), {current}, true)
         == MarkedTransactions(txs, blocks, done + [current])
  {
    hide Flag, Above, Rivals;
    forall h, flag ensures Flag(blocks, done + [current], h, flag)
                        == if h == current then true else if h in rivals then false else Flag(blocks, done, h, flag)
    {
      FlagOneMore(blocks, done, current, rivals, h, flag);
    }
  }
}
