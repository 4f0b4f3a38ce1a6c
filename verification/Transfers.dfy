/** Extracting token transfers from a transaction by comparing what each address puts in with
    what each address gets out. Three hash maps and two hash sets are gone through in arbitrary
    order; the records found depend on the order only in how they are lined up. */
module Transfers {
  import opened Lists
  import opened Options

  datatype Token = Token(id: string, amount: real)

  /** One input or output of a transaction: some ALPH and some tokens at an address. */
  datatype Coins = Coins(address: string, alph: real, tokens: seq<Token>)

  datatype Transaction = Transaction(inputs: seq<Coins>, outputs: seq<Coins>)

  datatype Key = Key(address: string, token: string)

  datatype TransferDetails = TransferDetails(token: string, sender: string, receiver: string, amount: real)

  /** The row stored for one side of a transfer. */
  datatype Record = Record(address: string, details: TransferDetails)

  const ALPH: string := "0000000000000000000000000000000000000000000000000000000000000000"
  const DUST: real := 1_000_000_000_000_000.0

  // ----- what an address puts in or gets out

  function AmountOf(id: string): Token -> real {
    (t: Token) => if t.id == id then t.amount else 0.0
  }

  function CoinsTotal(c: Coins, k: Key): real {
    if c.address != k.address then 0.0
    else (if k.token == ALPH then c.alph else 0.0) + Total(c.tokens, AmountOf(k.token))
  }

  function CoinsAt(k: Key): Coins -> real {
    (c: Coins) => CoinsTotal(c, k)
  }

  /** The sum of all amounts of a token at an address. */
  function Held(side: seq<Coins>, k: Key): real {
    Total(side, CoinsAt(k))
  }

  function TokenKeys(address: string, tokens: seq<Token>): set<Key> {
    if tokens == [] then {} else TokenKeys(address, tokens[..|tokens| - 1]) + {Key(address, tokens[|tokens| - 1].id)}
  }

  function CoinsKeys(c: Coins): set<Key> {
    {Key(c.address, ALPH)} + TokenKeys(c.address, c.tokens)
  }

  /** Which tokens show up at which address; ALPH does wherever there is an input or output. */
  function Keys(side: seq<Coins>): set<Key> {
    if side == [] then {} else Keys(side[..|side| - 1]) + CoinsKeys(side[|side| - 1])
  }

  function Addresses(side: seq<Coins>): set<string> {
    if side == [] then {} else Addresses(side[..|side| - 1]) + {side[|side| - 1].address}
  }

  function ValueAt(m: map<Key, real>, k: Key): real {
    if k in m then m[k] else 0.0
  }

  /** `*entry(k).or_default() += v`. */
  function Bump(m: map<Key, real>, k: Key, v: real): map<Key, real> {
    m[k := ValueAt(m, k) + v]
  }

  /** m holds the totals of side. */
  ghost predicate Totals(m: map<Key, real>, side: seq<Coins>) {
    m.Keys == Keys(side) && forall k :: ValueAt(m, k) == Held(side, k)
  }

  /** m holds the totals of side and of the ALPH and the first j tokens of c. */
  ghost predicate PartTotals(m: map<Key, real>, side: seq<Coins>, c: Coins, j: nat)
    requires j <= |c.tokens|
  {
    var part := Coins(c.address, c.alph, c.tokens[..j]);
    m.Keys == Keys(side) + CoinsKeys(part) && forall k :: ValueAt(m, k) == Held(side, k) + CoinsTotal(part, k)
  }

  lemma PartTotalsStart(m: map<Key, real>, side: seq<Coins>, c: Coins)
    requires Totals(m, side)
    ensures PartTotals(Bump(m, Key(c.address, ALPH), c.alph), side, c, 0)
  {
  }

  lemma PartTotalsStep(m: map<Key, real>, side: seq<Coins>, c: Coins, j: nat)
    requires j < |c.tokens| && PartTotals(m, side, c, j)
    ensures PartTotals(Bump(m, Key(c.address, c.tokens[j].id), c.tokens[j].amount), side, c, j + 1)
  {
    hide Held, Keys;
    assert c.tokens[..j + 1][..j] == c.tokens[..j];
  }

  lemma PartTotalsEnd(m: map<Key, real>, side: seq<Coins>, i: nat)
    requires i < |side| && PartTotals(m, side[..i], side[i], |side[i].tokens|)
    ensures Totals(m, side[..i + 1])
  {
    hide CoinsTotal, CoinsKeys, ValueAt;
    assert side[..i + 1][..i] == side[..i];
    assert side[i].tokens[..|side[i].tokens|] == side[i].tokens;
  }

  method Accumulate(side: seq<Coins>) returns (m: map<Key, real>, addresses: set<string>)
    ensures m.Keys == Keys(side)
    ensures forall k :: ValueAt(m, k) == Held(side, k)
    ensures addresses == Addresses(side)
  {
    hide PartTotals, Held, Keys, Bump;
    m, addresses := map[], {};
    NoTotals();
    for i := 0 to |side|
      invariant Totals(m, side[..i])
      invariant addresses == Addresses(side[..i])
    {
      var c := side[i];
      addresses := addresses + {c.address};
      assert side[..i + 1][..i] == side[..i];
      PartTotalsStart(m, side[..i], c);
      m := Bump(m, Key(c.address, ALPH), c.alph);
      for j := 0 to |c.tokens|
        invariant PartTotals(m, side[..i], c, j)
      {
        PartTotalsStep(m, side[..i], c, j);
        m := Bump(m, Key(c.address, c.tokens[j].id), c.tokens[j].amount);
      }
      PartTotalsEnd(m, side, i);
    }
    assert side[..|side|] == side;
  }

  lemma NoTotals()
    ensures Totals(map[], [])
  {
  }

  // ----- what counts as a transfer

  /** The early exits: several input addresses are ambiguous, unless there are two and one of
      them is a known gas payer. */
  predicate Ambiguous(inputs: set<string>, gasPayers: set<string>) {
    |inputs| > 1 && (inputs * gasPayers == {} || |inputs| != 2)
  }

  /** The receiver's sum of a token is a transfer from a sender that put in at least that much. */
  ghost predicate IsTransfer(tx: Transaction, gasPayers: set<string>, d: TransferDetails) {
    var from, to := Key(d.sender, d.token), Key(d.receiver, d.token);
    && !Ambiguous(Addresses(tx.inputs), gasPayers)
    && to in Keys(tx.outputs) && from in Keys(tx.inputs)
    && d.sender != d.receiver && d.sender !in gasPayers
    && d.amount == Held(tx.outputs, to)
    && Held(tx.inputs, to) < d.amount <= Held(tx.inputs, from)
    && (d.token == ALPH ==> d.amount > DUST)
  }

  lemma SubsetSize<T>(a: set<T>, b: set<T>)
    requires a <= b
    ensures |a| <= |b|
  {
    if a != {} {
      var x :| x in a;
      SubsetSize(a - {x}, b - {x});
    }
  }

  /** After the early exits at most one input address is not a gas payer. */
  lemma OneSender(inputs: set<string>, gasPayers: set<string>, a: string, b: string)
    requires !Ambiguous(inputs, gasPayers)
    requires a in inputs - gasPayers && b in inputs - gasPayers
    ensures a == b
  {
    SubsetSize({a, b}, inputs);
    if |inputs| > 1 {
      var g :| g in inputs * gasPayers;
      SubsetSize({a, b, g}, inputs);
    }
  }

  lemma {:induction false} TokenKeysAt(address: string, tokens: seq<Token>)
    ensures forall k :: k in TokenKeys(address, tokens) ==> k.address == address
  {
    if tokens != [] {
      TokenKeysAt(address, tokens[..|tokens| - 1]);
    }
  }

  lemma {:induction false} KeysAtAddresses(side: seq<Coins>)
    ensures forall k :: k in Keys(side) ==> k.address in Addresses(side)
  {
    if side != [] {
      KeysAtAddresses(side[..|side| - 1]);
      TokenKeysAt(side[|side| - 1].address, side[|side| - 1].tokens);
    }
  }

  /** A receiver and a token make at most one transfer. */
  lemma TransferUnique(tx: Transaction, gasPayers: set<string>, d: TransferDetails, e: TransferDetails)
    requires IsTransfer(tx, gasPayers, d) && IsTransfer(tx, gasPayers, e)
    requires d.receiver == e.receiver && d.token == e.token
    ensures d == e
  {
    hide Ambiguous, Held, Keys;
    KeysAtAddresses(tx.inputs);
    OneSender(Addresses(tx.inputs), gasPayers, d.sender, e.sender);
  }

  // ----- the extraction

  /** Each transfer is stored twice, for its sender and for its receiver. */
  function Pairs(transfers: seq<TransferDetails>): seq<Record> {
    if transfers == [] then [] else
      var d := transfers[|transfers| - 1];
      Pairs(transfers[..|transfers| - 1]) + [Record(d.sender, d), Record(d.receiver, d)]
  }

  /** transfers are all transfers, each once. */
  ghost predicate AllTransfers(transfers: seq<TransferDetails>, tx: Transaction, gasPayers: set<string>) {
    Distinct(transfers) && forall d :: d in transfers <==> IsTransfer(tx, gasPayers, d)
  }

  ghost predicate Extracted(records: seq<Record>, tx: Transaction, gasPayers: set<string>) {
    exists transfers :: AllTransfers(transfers, tx, gasPayers) && records == Pairs(transfers)
  }

  /** Some input of the token that covers the amount, not counting the receiver's own. */
  method FindSender(inputs: map<Key, real>, to: Key, amount: real) returns (sender: Option<string>)
    ensures sender.Some? ==>
              var k := Key(sender.value, to.token); k in inputs && k.address != to.address && inputs[k] >= amount
    ensures sender.None? ==>
              forall k :: k in inputs && k.token == to.token && k.address != to.address ==> inputs[k] < amount
  {
    var todo := inputs.Keys;
    while todo != {}
      invariant forall k :: k in inputs && k !in todo && k.token == to.token && k.address != to.address ==>
                  inputs[k] < amount
      invariant todo <= inputs.Keys
    {
      var k :| k in todo;
      todo := todo - {k};
      if k.token != to.token || k.address == to.address {
        continue;
      }
      if inputs[k] >= amount {
        return Some(k.address);
      }
    }
    return None;
  }

  /** `retain`, once for every gas payer. */
  method WithoutGasPayers(inputs: map<Key, real>, gasPayers: set<string>) returns (filtered: map<Key, real>)
    ensures filtered == map k | k in inputs && k.address !in gasPayers :: inputs[k]
  {
    filtered := inputs;
    var todo := gasPayers;
    while todo != {}
      invariant todo <= gasPayers
      invariant filtered == map k | k in inputs && k.address !in gasPayers - todo :: inputs[k]
    {
      var payer :| payer in todo;
      filtered := map k | k in filtered && k.address != payer :: filtered[k];
      todo := todo - {payer};
    }
  }

  /** transfers are those into the outputs in done. */
  ghost predicate TransfersInto(transfers: seq<TransferDetails>, done: set<Key>, tx: Transaction,
                                gasPayers: set<string>) {
    && Distinct(transfers)
    && forall d :: d in transfers <==> IsTransfer(tx, gasPayers, d) && Key(d.receiver, d.token) in done
  }

  lemma AddTransfer(transfers: seq<TransferDetails>, done: set<Key>, d: TransferDetails, tx: Transaction,
                    gasPayers: set<string>)
    requires TransfersInto(transfers, done, tx, gasPayers)
    requires IsTransfer(tx, gasPayers, d) && Key(d.receiver, d.token) !in done
    ensures TransfersInto(transfers + [d], done + {Key(d.receiver, d.token)}, tx, gasPayers)
  {
    forall e ensures e in transfers + [d]
                     <==> IsTransfer(tx, gasPayers, e) && Key(e.receiver, e.token) in done + {Key(d.receiver, d.token)}
    {
      if IsTransfer(tx, gasPayers, e) && Key(e.receiver, e.token) == Key(d.receiver, d.token) {
        TransferUnique(tx, gasPayers, d, e);
      }
      hide IsTransfer;
    }
    hide IsTransfer;
  }

  ghost predicate NoTransferInto(tx: Transaction, gasPayers: set<string>, to: Key) {
    forall d: TransferDetails :: Key(d.receiver, d.token) == to ==> !IsTransfer(tx, gasPayers, d)
  }

  lemma SkipOutput(transfers: seq<TransferDetails>, done: set<Key>, to: Key, tx: Transaction, gasPayers: set<string>)
    requires TransfersInto(transfers, done, tx, gasPayers)
    requires NoTransferInto(tx, gasPayers, to)
    ensures TransfersInto(transfers, done + {to}, tx, gasPayers)
  {
    hide IsTransfer;
  }

  lemma PairsOneMore(transfers: seq<TransferDetails>, d: TransferDetails)
    ensures Pairs(transfers + [d]) == Pairs(transfers) + [Record(d.sender, d)] + [Record(d.receiver, d)]
  {
    assert (transfers + [d])[..|transfers|] == transfers;
  }

  method ExtractTokenTransfers(tx: Transaction, gasPayers: set<string>) returns (records: seq<Record>)
    ensures Extracted(records, tx, gasPayers)
  {
    hide Held, Keys, Pairs, IsTransfer, TransfersInto, NoTransferInto, Ambiguous, Addresses;
    var inputs, inputAddresses := Accumulate(tx.inputs);
    if Ambiguous(inputAddresses, gasPayers) {
      NoTransfers(tx, gasPayers);
      return [];
    }
    var outputs, _ := Accumulate(tx.outputs);
    var filtered := WithoutGasPayers(inputs, gasPayers);
    records := [];
    ghost var transfers: seq<TransferDetails> := [];
    NothingYet(tx, gasPayers);
    var todo := outputs.Keys;
    assert outputs.Keys - todo == {};
    while todo != {}
      invariant todo <= outputs.Keys
      invariant TransfersInto(transfers, outputs.Keys - todo, tx, gasPayers)
      invariant records == Pairs(transfers)
    {
      var to :| to in todo;
      ghost var done := outputs.Keys - todo;
      todo := todo - {to};
      assert outputs.Keys - todo == done + {to};
      var amount := outputs[to];
      assert amount == ValueAt(outputs, to) == Held(tx.outputs, to);
      if to.token == ALPH && amount <= DUST {
        NoTransferOfDust(tx, gasPayers, to);
        SkipOutput(transfers, done, to, tx, gasPayers);
        continue;
      }
      if ValueAt(inputs, to) >= amount {
        NoTransferOfOwn(tx, gasPayers, to);
        SkipOutput(transfers, done, to, tx, gasPayers);
        continue;
      }
      var sender := FindSender(filtered, to, amount);
      if sender.None? {
        NoTransferUncovered(tx, gasPayers, to, inputs, filtered);
        SkipOutput(transfers, done, to, tx, gasPayers);
        continue;
      }
      var d := TransferDetails(to.token, sender.value, to.address, amount);
      IsOne(tx, gasPayers, d, inputs, filtered);
      AddTransfer(transfers, done, d, tx, gasPayers);
      PairsOneMore(transfers, d);
      transfers := transfers + [d];
      records := records + [Record(d.sender, d)];
      records := records + [Record(d.receiver, d)];
    }
    assert outputs.Keys - todo == Keys(tx.outputs);
    AllDone(transfers, tx, gasPayers);
  }

  lemma NoTransfers(tx: Transaction, gasPayers: set<string>)
    requires Ambiguous(Addresses(tx.inputs), gasPayers)
    ensures Extracted([], tx, gasPayers)
  {
    assert AllTransfers([], tx, gasPayers) && Pairs([]) == [];
  }

  lemma NothingYet(tx: Transaction, gasPayers: set<string>)
    ensures TransfersInto([], {}, tx, gasPayers) && Pairs([]) == []
  {
  }

  lemma NoTransferOfDust(tx: Transaction, gasPayers: set<string>, to: Key)
    requires to.token == ALPH && Held(tx.outputs, to) <= DUST
    ensures NoTransferInto(tx, gasPayers, to)
  {
  }

  lemma NoTransferOfOwn(tx: Transaction, gasPayers: set<string>, to: Key)
    requires Held(tx.inputs, to) >= Held(tx.outputs, to)
    ensures NoTransferInto(tx, gasPayers, to)
  {
  }

  ghost predicate Filtered(filtered: map<Key, real>, inputs: map<Key, real>, gasPayers: set<string>) {
    filtered == map k | k in inputs && k.address !in gasPayers :: inputs[k]
  }

  lemma NoTransferUncovered(tx: Transaction, gasPayers: set<string>, to: Key, inputs: map<Key, real>,
                            filtered: map<Key, real>)
    requires Totals(inputs, tx.inputs) && Filtered(filtered, inputs, gasPayers)
    requires forall k :: k in filtered && k.token == to.token && k.address != to.address ==>
               filtered[k] < Held(tx.outputs, to)
    ensures NoTransferInto(tx, gasPayers, to)
  {
    hide Held, Keys, Ambiguous, Addresses;
    forall d: TransferDetails | Key(d.receiver, d.token) == to ensures !IsTransfer(tx, gasPayers, d) {
      var from := Key(d.sender, d.token);
      assert from in filtered ==> filtered[from] == ValueAt(inputs, from) == Held(tx.inputs, from);
    }
  }

  lemma IsOne(tx: Transaction, gasPayers: set<string>, d: TransferDetails, inputs: map<Key, real>,
              filtered: map<Key, real>)
    requires Totals(inputs, tx.inputs) && Filtered(filtered, inputs, gasPayers)
    requires !Ambiguous(Addresses(tx.inputs), gasPayers)
    requires Key(d.receiver, d.token) in Keys(tx.outputs) && d.amount == Held(tx.outputs, Key(d.receiver, d.token))
    requires d.token == ALPH ==> d.amount > DUST
    requires Held(tx.inputs, Key(d.receiver, d.token)) < d.amount
    requires Key(d.sender, d.token) in filtered && d.sender != d.receiver &&
             filtered[Key(d.sender, d.token)] >= d.amount
    ensures IsTransfer(tx, gasPayers, d)
  {
    var from := Key(d.sender, d.token);
    assert filtered[from] == ValueAt(inputs, from) == Held(tx.inputs, from);
  }

  lemma AllDone(transfers: seq<TransferDetails>, tx: Transaction, gasPayers: set<string>)
    requires TransfersInto(transfers, Keys(tx.outputs), tx, gasPayers)
    ensures Extracted(Pairs(transfers), tx, gasPayers)
  {
    hide Held, Keys, Ambiguous, Addresses;
    assert AllTransfers(transfers, tx, gasPayers);
  }

  // ----- the order of the maps does not matter

  lemma {:induction false} PairsConcat(a: seq<TransferDetails>, b: seq<TransferDetails>)
    ensures Pairs(a + b) == Pairs(a) + Pairs(b)
  {
    if b == [] {
      assert a + b == a;
    } else {
      PairsConcat(a, b[..|b| - 1]);
      assert (a + b)[..|a + b| - 1] == a + b[..|b| - 1];
    }
  }

  /** Where x stands in the list makes no difference to the records, but for their order. */
  lemma PairsMoved(a: seq<TransferDetails>, x: TransferDetails, b: seq<TransferDetails>)
    ensures multiset(Pairs(a + [x] + b)) ==
               multiset(Pairs(a + b)) + multiset{Record(x.sender, x), Record(x.receiver, x)}
  {
    PairsConcat(a + [x], b);
    PairsOneMore(a, x);
    PairsConcat(a, b);
  }

  lemma {:induction false} SameMembersSamePairs(a: seq<TransferDetails>, b: seq<TransferDetails>)
    requires Distinct(a) && Distinct(b) && forall d :: d in a <==> d in b
    ensures multiset(Pairs(a)) == multiset(Pairs(b))
  {
    hide Pairs;
    if a == [] {
      NoMembers(b);
    } else {
      var x := a[0];
      assert x in b;
      var i :| 0 <= i < |b| && b[i] == x;
      var a', before, after := a[1..], b[..i], b[i + 1..];
      assert a == [] + [x] + a' && b == before + [x] + after;
      PairsMoved([], x, a');
      PairsMoved(before, x, after);
      assert [] + a' == a';
      forall d ensures d in a' <==> d in before + after {
        assert d in a <==> d == x || d in a';
        assert d in b <==> d == x || d in before + after;
      }
      SameMembersSamePairs(a', before + after);
    }
  }

  /** Whatever order the maps are gone through in, the records are the same. */
  lemma OrderDoesNotMatter(a: seq<Record>, b: seq<Record>, tx: Transaction, gasPayers: set<string>)
    requires Extracted(a, tx, gasPayers) && Extracted(b, tx, gasPayers)
    ensures multiset(a) == multiset(b)
  {
    hide IsTransfer, Pairs;
    var s :| AllTransfers(s, tx, gasPayers) && a == Pairs(s);
    var t :| AllTransfers(t, tx, gasPayers) && b == Pairs(t);
    SameMembersSamePairs(s, t);
  }

  // ----- a token's transfers taken together

  /** How much of a token some coins hold, whosever they are. */
  function TokenIn(c: Coins, token: string): real {
    (if token == ALPH then c.alph else 0.0) + Total(c.tokens, AmountOf(token))
  }

  function TokenTotal(side: seq<Coins>, token: string): real {
    if side == [] then 0.0 else TokenTotal(side[..|side| - 1], token) + TokenIn(side[|side| - 1], token)
  }

  /** How much of it these addresses hold together. */
  function PutInBy(side: seq<Coins>, addresses: set<string>, token: string): real {
    if side == [] then 0.0 else
      var last := side[|side| - 1];
      PutInBy(side[..|side| - 1], addresses, token) + if last.address in addresses then TokenIn(last, token) else 0.0
  }

  function Amounts(transfers: seq<TransferDetails>): real {
    if transfers == [] then 0.0 else
      Amounts(transfers[..|transfers| - 1]) + transfers[|transfers| - 1].amount
  }

  function HeldByAll(side: seq<Coins>, addresses: seq<string>, token: string): real {
    if addresses == [] then 0.0 else
      HeldByAll(side, addresses[..|addresses| - 1], token)
      + Held(side, Key(addresses[|addresses| - 1], token))
  }

  ghost predicate NonNegativeOf(side: seq<Coins>, token: string) {
    forall i :: 0 <= i < |side| ==> TokenIn(side[i], token) >= 0.0
  }

  lemma HeldOneMore(side: seq<Coins>, k: Key)
    requires side != []
    ensures var last := side[|side| - 1];
            Held(side, k) ==
            Held(side[..|side| - 1], k) + if last.address == k.address then TokenIn(last, k.token) else 0.0
  {
  }

  /** One more input or output is held by its own address. */
  lemma {:induction false} HeldByAllOneMore(side: seq<Coins>, addresses: seq<string>, token: string)
    requires side != [] && Distinct(addresses)
    ensures var last := side[|side| - 1];
            HeldByAll(side, addresses, token)
            == HeldByAll(side[..|side| - 1], addresses, token)
               + if last.address in addresses then TokenIn(last, token) else 0.0
  {
    hide Held, TokenIn;
    if addresses != [] {
      var n := |addresses| - 1;
      HeldByAllOneMore(side, addresses[..n], token);
      HeldOneMore(side, Key(addresses[n], token));
      assert addresses == addresses[..n] + [addresses[n]];
    }
  }

  lemma {:induction false} NobodyHolds(addresses: seq<string>, token: string)
    ensures HeldByAll([], addresses, token) == 0.0
  {
    if addresses != [] {
      NobodyHolds(addresses[..|addresses| - 1], token);
    }
  }

  /** Distinct addresses hold together at most everything. */
  lemma {:induction false} HeldTogether(side: seq<Coins>, addresses: seq<string>, token: string)
    requires Distinct(addresses) && NonNegativeOf(side, token)
    ensures HeldByAll(side, addresses, token) <= TokenTotal(side, token)
  {
    hide Held, TokenIn, HeldByAll;
    if side == [] {
      NobodyHolds(addresses, token);
    } else {
      var n := |side| - 1;
      HeldByAllOneMore(side, addresses, token);
      assert TokenIn(side[n], token) >= 0.0;
      HeldTogether(side[..n], addresses, token);
    }
  }

  /** Who is not the one address is one of the others: everything is held by it or by them. */
  lemma {:induction false} SplitTotal(side: seq<Coins>, address: string, others: set<string>, token: string)
    requires address !in others && Addresses(side) <= others + {address}
    ensures TokenTotal(side, token) == Held(side, Key(address, token)) + PutInBy(side, others, token)
  {
    hide TokenIn;
    if side != [] {
      SplitTotal(side[..|side| - 1], address, others, token);
      HeldOneMore(side, Key(address, token));
    }
  }

  function Receivers(transfers: seq<TransferDetails>): (receivers: seq<string>)
    ensures |receivers| == |transfers|
  {
    seq(|transfers|, i requires 0 <= i < |transfers| => transfers[i].receiver)
  }

  /** Different transfers of one token by one sender. */
  ghost predicate TransfersOf(transfers: seq<TransferDetails>, tx: Transaction, gasPayers: set<string>, sender: string,
                              token: string) {
    && Distinct(transfers)
    && forall i :: 0 <= i < |transfers| ==>
         IsTransfer(tx, gasPayers, transfers[i]) && transfers[i].sender == sender && transfers[i].token == token
  }

  lemma {:induction false} AmountsAreHeld(transfers: seq<TransferDetails>, tx: Transaction, gasPayers: set<string>,
                                         sender: string, token: string)
    requires TransfersOf(transfers, tx, gasPayers, sender, token)
    ensures Amounts(transfers) == HeldByAll(tx.outputs, Receivers(transfers), token)
  {
    if transfers != [] {
      var n := |transfers| - 1;
      AmountsAreHeld(transfers[..n], tx, gasPayers, sender, token);
      assert Receivers(transfers)[..n] == Receivers(transfers[..n]);
      assert transfers[n].amount == Held(tx.outputs, Key(transfers[n].receiver, token));
    }
  }

  lemma ReceiversDistinct(transfers: seq<TransferDetails>, tx: Transaction, gasPayers: set<string>, sender: string,
                          token: string)
    requires TransfersOf(transfers, tx, gasPayers, sender, token)
    ensures Distinct(Receivers(transfers) + [sender])
  {
    hide Ambiguous, Held, Keys;
    var receivers := Receivers(transfers);
    forall i, j | 0 <= i < j < |receivers| ensures receivers[i] != receivers[j] {
      if receivers[i] == receivers[j] {
        TransferUnique(tx, gasPayers, transfers[i], transfers[j]);
      }
    }
    hide Distinct;
    forall i | 0 <= i < |receivers| ensures receivers[i] != sender {
      assert IsTransfer(tx, gasPayers, transfers[i]);
    }
    DistinctOneMore(receivers, sender);
  }

  /** Everybody who puts anything in is the sender or a gas payer. */
  lemma OnlySenderAndPayers(tx: Transaction, gasPayers: set<string>, d: TransferDetails)
    requires IsTransfer(tx, gasPayers, d)
    ensures d.sender in Addresses(tx.inputs) && Addresses(tx.inputs) <= gasPayers + {d.sender}
  {
    hide Ambiguous, Held, Keys, Addresses;
    KeysAtAddresses(tx.inputs);
    forall a | a in Addresses(tx.inputs) && a !in gasPayers ensures a == d.sender {
      OneSender(Addresses(tx.inputs), gasPayers, a, d.sender);
    }
  }

  /** If no more of the token comes out than is put in, its transfers and the change back to the sender
      stay within what the sender and the gas payers put in. */
  lemma TransfersWithinInputs(transfers: seq<TransferDetails>, tx: Transaction, gasPayers: set<string>, sender: string,
                              token: string)
    requires transfers != [] && TransfersOf(transfers, tx, gasPayers, sender, token)
    requires NonNegativeOf(tx.outputs, token) && TokenTotal(tx.outputs, token) <= TokenTotal(tx.inputs, token)
    ensures Amounts(transfers) + Held(tx.outputs, Key(sender, token))
         <= Held(tx.inputs, Key(sender, token)) + PutInBy(tx.inputs, gasPayers, token)
  {
    hide Ambiguous, Held, Keys, Addresses, TokenTotal, Amounts, PutInBy, NonNegativeOf;
    var all := Receivers(transfers) + [sender];
    assert IsTransfer(tx, gasPayers, transfers[0]);
    AmountsAreHeld(transfers, tx, gasPayers, sender, token);
    ReceiversDistinct(transfers, tx, gasPayers, sender, token);
    HeldTogether(tx.outputs, all, token);
    assert all[..|all| - 1] == Receivers(transfers);
    OnlySenderAndPayers(tx, gasPayers, transfers[0]);
    SplitTotal(tx.inputs, sender, gasPayers, token);
  }

  lemma {:induction false} HeldNowhere(side: seq<Coins>, k: Key)
    requires k.address !in Addresses(side)
    ensures Held(side, k) == 0.0
  {
    hide TokenIn;
    if side != [] {
      HeldNowhere(side[..|side| - 1], k);
      HeldOneMore(side, k);
    }
  }

  /** The amount recorded is what the receiver gains, unless the receiver is a gas payer that puts in some of
      the token, and is then more. */
  lemma AmountIsGainIff(tx: Transaction, gasPayers: set<string>, d: TransferDetails)
    requires IsTransfer(tx, gasPayers, d) && NonNegativeOf(tx.inputs, d.token)
    ensures var to := Key(d.receiver, d.token);
            var gain, own := Held(tx.outputs, to) - Held(tx.inputs, to), Held(tx.inputs, to);
            && (d.amount == gain <==> own == 0.0) && d.amount >= gain
            && (own != 0.0 ==> d.receiver in gasPayers)
  {
    hide Ambiguous, Held, Keys, Addresses;
    OnlySenderAndPayers(tx, gasPayers, d);
    HeldNonNegative(tx.inputs, Key(d.receiver, d.token));
    if d.receiver !in Addresses(tx.inputs) {
      HeldNowhere(tx.inputs, Key(d.receiver, d.token));
    }
  }

  lemma {:induction false} HeldNonNegative(side: seq<Coins>, k: Key)
    requires NonNegativeOf(side, k.token)
    ensures Held(side, k) >= 0.0
  {
    hide TokenIn;
    if side != [] {
      var n := |side| - 1;
      HeldNonNegative(side[..n], k);
      HeldOneMore(side, k);
      assert TokenIn(side[n], k.token) >= 0.0;
    }
  }

  function Plain(address: string, alph: real): Coins {
    Coins(address, alph, [])
  }

  /** Two addresses with some ALPH each. */
  lemma TwoPlain(a: string, m: real, b: string, n: real, k: Key)
    requires a != b && k.token == ALPH
    ensures var side := [Plain(a, m), Plain(b, n)];
            && Held(side, k) == (if k.address == a then m else if k.address == b then n else 0.0)
            && Addresses(side) == {a, b} && Key(a, ALPH) in Keys(side) && Key(b, ALPH) in Keys(side)
  {
    TwoCoins(Plain(a, m), Plain(b, n), k);
    PlainTotal(a, m, k);
    PlainTotal(b, n, k);
  }

  lemma TwoCoins(x: Coins, y: Coins, k: Key)
    ensures Held([x, y], k) == CoinsTotal(x, k) + CoinsTotal(y, k)
    ensures Addresses([x, y]) == {x.address, y.address} && Keys([x, y]) == CoinsKeys(x) + CoinsKeys(y)
  {
    hide CoinsTotal, CoinsKeys;
    var f, one, none := CoinsAt(k), [x], [x][..0];
    assert none == [] && [x, y][..1] == one;
    assert Total(none, f) == 0.0 && Total(one, f) == f(x) && Total([x, y], f) == f(x) + f(y);
    assert Keys(none) == {} && Keys(one) == CoinsKeys(x);
    assert Addresses(none) == {} && Addresses(one) == {x.address};
  }

  lemma PlainTotal(a: string, m: real, k: Key)
    requires k.token == ALPH
    ensures CoinsTotal(Plain(a, m), k) == if k.address == a then m else 0.0
  {
  }

  const PAYER: string := "g"

  /** The sender and a gas payer put in five times the dust each; two receivers get four times each. */
  const PAID_TOGETHER: Transaction :=
    Transaction([Plain("s", 5.0 * DUST), Plain(PAYER, 5.0 * DUST)], [Plain("a", 4.0 * DUST), Plain("b", 4.0 * DUST)])

  function PaidTo(receiver: string): TransferDetails {
    TransferDetails(ALPH, "s", receiver, 4.0 * DUST)
  }

  lemma PaidIsTransfer(receiver: string)
    requires receiver == "a" || receiver == "b"
    ensures IsTransfer(PAID_TOGETHER, {PAYER}, PaidTo(receiver))
  {
    hide Held, Addresses, Keys;
    TwoPlain("s", 5.0 * DUST, PAYER, 5.0 * DUST, Key("s", ALPH));
    TwoPlain("s", 5.0 * DUST, PAYER, 5.0 * DUST, Key(receiver, ALPH));
    TwoPlain("a", 4.0 * DUST, "b", 4.0 * DUST, Key(receiver, ALPH));
    assert PAYER in {"s", PAYER} * {PAYER};
  }

  /** A gas payer's ALPH counts as the sender's: together the two transfers are more than the sender has. */
  lemma TransfersExceedSender()
    ensures var first, second := PaidTo("a"), PaidTo("b");
            && IsTransfer(PAID_TOGETHER, {PAYER}, first) && IsTransfer(PAID_TOGETHER, {PAYER}, second)
            && Held(PAID_TOGETHER.inputs, Key("s", ALPH)) < Amounts([first, second])
  {
    hide Held, IsTransfer;
    PaidIsTransfer("a");
    PaidIsTransfer("b");
    TwoPlain("s", 5.0 * DUST, PAYER, 5.0 * DUST, Key("s", ALPH));
    var one := [PaidTo("a")];
    assert [PaidTo("a"), PaidTo("b")][..1] == one && one[..0] == [];
    assert Amounts(one) == 4.0 * DUST;
  }

  // ----- a payment from its inputs and outputs

  lemma TwoTokens(c: Coins, token: string)
    requires |c.tokens| == 2 && c.tokens[0].id == c.tokens[1].id
    ensures CoinsTotal(c, Key(c.address, token))
         == (if token == ALPH then c.alph else 0.0)
            + if token == c.tokens[0].id then c.tokens[0].amount + c.tokens[1].amount else 0.0
    ensures CoinsKeys(c) == {Key(c.address, ALPH), Key(c.address, c.tokens[0].id)}
    ensures forall k: Key :: k.address != c.address ==> CoinsTotal(c, k) == 0.0
  {
    var one, none, f := c.tokens[..1], c.tokens[..0], AmountOf(token);
    assert none == [] && one[..0] == none && one == [c.tokens[0]] && c.tokens[..|c.tokens| - 1] == one;
    assert Total(none, f) == 0.0 && Total(one, f) == f(c.tokens[0]);
    assert Total(c.tokens, f) == f(c.tokens[0]) + f(c.tokens[1]);
    assert TokenKeys(c.address, none) == {} && TokenKeys(c.address, one) == {Key(c.address, c.tokens[0].id)};
  }

  lemma OneCoin(x: Coins, k: Key)
    ensures Held([x], k) == CoinsTotal(x, k) && Addresses([x]) == {x.address} && Keys([x]) == CoinsKeys(x)
  {
    hide CoinsTotal, CoinsKeys;
    var f, none := CoinsAt(k), [x][..0];
    assert none == [];
    assert Total(none, f) == 0.0 && Total([x], f) == f(x);
    assert Keys(none) == {} && Addresses(none) == {};
  }

  /** Somebody puts in ALPH and two amounts of a token, and somebody else gets both in two outputs: the sums are
      recorded, the token's if it is positive and covered, and the ALPH if it is more than 10^15 and covered. */
  lemma PaymentRecordedIff(pays: Coins, first: Coins, second: Coins, token: string)
    requires token != ALPH && pays.address != first.address && first.address == second.address
    requires |pays.tokens| == 2 && |first.tokens| == 2 && |second.tokens| == 2
    requires forall i :: 0 <= i < 2 ==> pays.tokens[i].id == first.tokens[i].id == second.tokens[i].id == token
    ensures var tx := Transaction([pays], [first, second]);
            var put := pays.tokens[0].amount + pays.tokens[1].amount;
            var got := first.tokens[0].amount + first.tokens[1].amount
                       + (second.tokens[0].amount + second.tokens[1].amount);
            var alph := first.alph + second.alph;
            && (IsTransfer(tx, {}, TransferDetails(token, pays.address, first.address, got)) <==> 0.0 < got <= put)
            && (IsTransfer(tx, {}, TransferDetails(ALPH, pays.address, first.address, alph))
                <==> 1_000_000_000_000_000.0 < alph <= pays.alph)
  {
    assert pays.tokens[0].id == pays.tokens[1].id == token && first.tokens[0].id == first.tokens[1].id == token;
    assert second.tokens[0].id == second.tokens[1].id == token;
    forall id | id == token || id == ALPH
      ensures PaymentTotals(pays, first, second, id)
    {
      TwoTokens(pays, id);
      TwoTokens(first, id);
      TwoTokens(second, id);
      OneCoin(pays, Key(pays.address, id));
      OneCoin(pays, Key(first.address, id));
      TwoCoins(first, second, Key(first.address, id));
    }
    hide Held, Addresses, Keys;
    assert PaymentTotals(pays, first, second, token) && PaymentTotals(pays, first, second, ALPH);
  }

  ghost predicate PaymentTotals(pays: Coins, first: Coins, second: Coins, id: string)
    requires |pays.tokens| == 2 && |first.tokens| == 2 && |second.tokens| == 2
  {
    var from, to, out := Key(pays.address, id), Key(first.address, id), [first, second];
    var put := pays.tokens[0].amount + pays.tokens[1].amount;
    var got := first.tokens[0].amount + first.tokens[1].amount + (second.tokens[0].amount + second.tokens[1].amount);
    && from in Keys([pays]) && to in Keys(out) && Addresses([pays]) == {pays.address}
    && Held([pays], to) == 0.0
    && Held([pays], from) == (if id == ALPH then pays.alph else put)
    && Held(out, to) == if id == ALPH then first.alph + second.alph else got
  }
}
