/** A user's lending position as a fold over the user's events in one market, and the snapshots
    taken of all positions of a market, page by page. */
module LendingPositions {
  import opened Lists
  import opened Numbers
  import opened Options

  datatype Kind = Supply | Withdraw | Borrow | Repay | SupplyCollateral | WithdrawCollateral | Liquidate | OtherKind

  /** repaid is what a liquidation event says about the repaid assets, if it can be read. */
  datatype Event = Event(kind: Kind, amount: real, shares: real, repaid: Option<real>, blockTime: int)

  datatype Position = Position(
    address: string, supplyShares: real, borrowShares: real, collateral: real,
    suppliedAmount: real, borrowedAmount: real, updatedAt: int)

  // ----- what one event does

  function SupplyShares(e: Event): real {
    match e.kind
    case Supply => e.shares
    case Withdraw => -e.shares
    case _ => 0.0
  }

  function BorrowShares(e: Event): real {
    match e.kind
    case Borrow => e.shares
    case Repay => -e.shares
    case Liquidate => -e.shares
    case _ => 0.0
  }

  function CollateralOf(e: Event): real {
    match e.kind
    case SupplyCollateral => e.amount
    case WithdrawCollateral => -e.amount
    case Liquidate => -e.amount
    case _ => 0.0
  }

  /** A change of an amount that is not allowed below zero. */
  datatype Change = Up(size: real) | Down(size: real) | Same

  function SuppliedChange(e: Event): Change {
    match e.kind
    case Supply => Up(e.amount)
    case Withdraw => Down(e.amount)
    case _ => Same
  }

  function BorrowedChange(e: Event): Change {
    match e.kind
    case Borrow => Up(e.amount)
    case Repay => Down(e.amount)
    case Liquidate => (match e.repaid case Some(repaid) => Down(repaid) case None => Same)
    case _ => Same
  }

  function Applied(x: real, c: Change): real {
    match c
    case Up(size) => x + size
    case Down(size) => if size > x then 0.0 else x - size
    case Same => x
  }

  function Running(events: seq<Event>, change: Event -> Change): real {
    if events == [] then 0.0 else Applied(Running(events[..|events| - 1], change), change(events[|events| - 1]))
  }

  function Signed(c: Change): real {
    match c
    case Up(size) => size
    case Down(size) => -size
    case Same => 0.0
  }

  function Delta(change: Event -> Change): Event -> real {
    e => Signed(change(e))
  }

  // ----- the clamped amounts

  ghost predicate NonNegative(events: seq<Event>) {
    forall e :: e in events ==> e.amount >= 0.0 && (e.repaid.Some? ==> e.repaid.value >= 0.0)
  }

  /** For changes by non-negative amounts. */
  ghost predicate ByNonNegative(events: seq<Event>, change: Event -> Change) {
    forall e :: e in events ==> change(e).Same? || change(e).size >= 0.0
  }

  ghost predicate IsMaxSuffix(r: real, events: seq<Event>, f: Event -> real) {
    && (forall i :: 0 <= i <= |events| ==> Total(events[i..], f) <= r)
    && (exists i :: 0 <= i <= |events| && Total(events[i..], f) == r)
  }

  lemma MaxSuffixOneMore(r: real, events: seq<Event>, f: Event -> real, e: Event)
    requires IsMaxSuffix(r, events, f)
    ensures IsMaxSuffix(if r + f(e) >= 0.0 then r + f(e) else 0.0, events + [e], f)
  {
    var all := events + [e];
    forall i | 0 <= i <= |events| ensures Total(all[i..], f) == Total(events[i..], f) + f(e) {
      assert all[i..] == events[i..] + [e];
      assert (events[i..] + [e])[..|events| - i] == events[i..];
    }
    assert all[|all|..] == [];
    var i :| 0 <= i <= |events| && Total(events[i..], f) == r;
    var r' := if r + f(e) >= 0.0 then r + f(e) else 0.0;
    assert Total(all[if r + f(e) >= 0.0 then i else |all|..], f) == r';
  }

  /** Clamping at zero after every event is the same as taking the largest sum of signed changes
      over any run of events that lasts to the end, the empty one included. */
  lemma {:induction false} RunningIsMaxSuffix(events: seq<Event>, change: Event -> Change)
    requires ByNonNegative(events, change)
    ensures IsMaxSuffix(Running(events, change), events, Delta(change))
    ensures Running(events, change) >= 0.0
  {
    if events == [] {
      assert events[0..] == [];
      assert Total(events[0..], Delta(change)) == 0.0;
    } else {
      var front, e := events[..|events| - 1], events[|events| - 1];
      RunningIsMaxSuffix(front, change);
      MaxSuffixOneMore(Running(front, change), front, Delta(change), e);
      assert events == front + [e];
      assert e in events;
    }
  }

  /** So a clamped amount is never below the plain net, and it is the plain net exactly if the
      net of no beginning of the history is below zero. */
  lemma ClampBitesIff(events: seq<Event>, change: Event -> Change)
    requires ByNonNegative(events, change)
    ensures Running(events, change) >= Total(events, Delta(change))
    ensures Running(events, change) == Total(events, Delta(change))
            <==> forall i :: 0 <= i <= |events| ==> Total(events[..i], Delta(change)) >= 0.0
  {
    hide Total, Running, ByNonNegative;
    var f, r := Delta(change), Running(events, change);
    RunningIsMaxSuffix(events, change);
    assert events[0..] == events;
    forall i | 0 <= i <= |events| ensures Total(events, f) == Total(events[..i], f) + Total(events[i..], f) {
      TotalConcat(events[..i], events[i..], f);
      assert events[..i] + events[i..] == events;
    }
    var k :| 0 <= k <= |events| && Total(events[k..], f) == r;
    if r == Total(events, f) {
      forall i | 0 <= i <= |events| ensures Total(events[..i], f) >= 0.0 {
        assert Total(events[i..], f) <= r;
      }
    } else {
      assert Total(events[..k], f) < 0.0;
    }
  }

  lemma AmountsByNonNegative(events: seq<Event>)
    requires NonNegative(events)
    ensures ByNonNegative(events, SuppliedChange) && ByNonNegative(events, BorrowedChange)
  {
  }

  // ----- the position

  function LastTime(events: seq<Event>): int
    requires events != []
  {
    if |events| == 1 then events[0].blockTime else
      var t, last := LastTime(events[..|events| - 1]), events[|events| - 1].blockTime;
      if last > t then last else t
  }

  /** None without events, and when shares and collateral are all zero. */
  function PositionOf(address: string, events: seq<Event>): Option<Position> {
    if events == [] then None else
      var supplyShares, borrowShares, collateral :=
        Total(events, SupplyShares), Total(events, BorrowShares), Total(events, CollateralOf);
      if supplyShares == 0.0 && borrowShares == 0.0 && collateral == 0.0 then None else
        Some(Position(address, supplyShares, borrowShares, collateral,
                      Running(events, SuppliedChange), Running(events, BorrowedChange), LastTime(events)))
  }

  // ----- the position in the figures of its events

  function IsKind(kind: Kind): Event -> bool {
    (e: Event) => e.kind == kind
  }

  /** A figure summed over the events of one kind. */
  function Over(events: seq<Event>, kind: Kind, figure: Event -> real): real {
    Total(Filter(events, IsKind(kind)), figure)
  }

  lemma OverOneMore(events: seq<Event>, e: Event, kind: Kind, figure: Event -> real)
    ensures Over(events + [e], kind, figure) == Over(events, kind, figure) + if e.kind == kind then figure(e) else 0.0
  {
    FilterOneMore(events, e, IsKind(kind));
    TotalOneMore(Filter(events, IsKind(kind)), e, figure);
  }

  /** What was put in and not taken out again, by the kinds of events. */
  lemma {:induction false} NetsByKind(events: seq<Event>, shares: Event -> real, amount: Event -> real)
    requires forall e: Event :: shares(e) == e.shares && amount(e) == e.amount
    ensures Total(events, SupplyShares) == Over(events, Supply, shares) - Over(events, Withdraw, shares)
    ensures Total(events, BorrowShares)
         == Over(events, Borrow, shares) - Over(events, Repay, shares) - Over(events, Liquidate, shares)
    ensures Total(events, CollateralOf)
         == Over(events, SupplyCollateral, amount) - Over(events, WithdrawCollateral, amount)
            - Over(events, Liquidate, amount)
  {
    if events == [] {
      NothingOver(events, shares);
      NothingOver(events, amount);
    } else {
      var front, e := events[..|events| - 1], events[|events| - 1];
      assert events == front + [e];
      NetsByKind(front, shares, amount);
      SupplyStep(front, e, shares);
      BorrowStep(front, e, shares);
      CollateralStep(front, e, amount);
    }
  }

  lemma SupplyStep(events: seq<Event>, e: Event, shares: Event -> real)
    requires shares(e) == e.shares
    ensures var all := events + [e];
            Total(all, SupplyShares) - (Over(all, Supply, shares) - Over(all, Withdraw, shares))
            == Total(events, SupplyShares) - (Over(events, Supply, shares) - Over(events, Withdraw, shares))
  {
    hide Over, Total;
    TotalOneMore(events, e, SupplyShares);
    OverOneMore(events, e, Supply, shares);
    OverOneMore(events, e, Withdraw, shares);
  }

  lemma BorrowStep(events: seq<Event>, e: Event, shares: Event -> real)
    requires shares(e) == e.shares
    ensures var all := events + [e];
            Total(all, BorrowShares)
            - (Over(all, Borrow, shares) - Over(all, Repay, shares) - Over(all, Liquidate, shares))
            == Total(events, BorrowShares)
               - (Over(events, Borrow, shares) - Over(events, Repay, shares) - Over(events, Liquidate, shares))
  {
    hide Over, Total;
    TotalOneMore(events, e, BorrowShares);
    OverOneMore(events, e, Borrow, shares);
    OverOneMore(events, e, Repay, shares);
    OverOneMore(events, e, Liquidate, shares);
  }

  lemma CollateralStep(events: seq<Event>, e: Event, amount: Event -> real)
    requires amount(e) == e.amount
    ensures var all := events + [e];
            Total(all, CollateralOf)
            - (Over(all, SupplyCollateral, amount) - Over(all, WithdrawCollateral, amount)
               - Over(all, Liquidate, amount))
            == Total(events, CollateralOf)
               - (Over(events, SupplyCollateral, amount) - Over(events, WithdrawCollateral, amount)
                  - Over(events, Liquidate, amount))
  {
    hide Over, Total;
    TotalOneMore(events, e, CollateralOf);
    OverOneMore(events, e, SupplyCollateral, amount);
    OverOneMore(events, e, WithdrawCollateral, amount);
    OverOneMore(events, e, Liquidate, amount);
  }

  lemma NothingOver(events: seq<Event>, figure: Event -> real)
    requires events == []
    ensures forall kind :: Over(events, kind, figure) == 0.0
  {
  }

  /** Whoever takes out exactly the shares and the collateral put in, and repays exactly what was borrowed, has
      no position, and nobody else. A position holds the differences. */
  lemma PositionIffNotSquare(address: string, events: seq<Event>, shares: Event -> real, amount: Event -> real)
    requires forall e: Event :: shares(e) == e.shares && amount(e) == e.amount
    ensures PositionOf(address, events).None? <==>
            && Over(events, Supply, shares) == Over(events, Withdraw, shares)
            && Over(events, Borrow, shares) == Over(events, Repay, shares) + Over(events, Liquidate, shares)
            && Over(events, SupplyCollateral, amount)
               == Over(events, WithdrawCollateral, amount) + Over(events, Liquidate, amount)
    ensures PositionOf(address, events).Some? ==>
              var p := PositionOf(address, events).value;
              && p.address == address
              && (forall e :: e in events ==> e.blockTime <= p.updatedAt)
              && (exists e :: e in events && e.blockTime == p.updatedAt)
              && p.supplyShares == Over(events, Supply, shares) - Over(events, Withdraw, shares)
              && p.borrowShares
                 == Over(events, Borrow, shares) - Over(events, Repay, shares) - Over(events, Liquidate, shares)
              && p.collateral
                 == Over(events, SupplyCollateral, amount) - Over(events, WithdrawCollateral, amount)
                    - Over(events, Liquidate, amount)
  {
    hide Over;
    NetsByKind(events, shares, amount);
    if events == [] {
      NothingOver(events, shares);
      NothingOver(events, amount);
    } else {
      hide LastTime;
      LastTimeIsMax(events);
    }
  }

  lemma MaxSuffixSame(r: real, events: seq<Event>, f: Event -> real, g: Event -> real)
    requires IsMaxSuffix(r, events, f) && forall e: Event :: f(e) == g(e)
    ensures IsMaxSuffix(r, events, g)
  {
    hide Total;
    forall i | 0 <= i <= |events| ensures Total(events[i..], f) == Total(events[i..], g) {
      TotalSame(events[i..], f, g);
    }
  }

  /** A supply adds its amount to what is supplied, and a withdrawal takes its amount away. */
  ghost predicate MovesSupplied(f: Event -> real) {
    forall e: Event ::
      f(e) == if e.kind == Supply then e.amount else if e.kind == Withdraw then -e.amount else 0.0
  }

  /** A borrow adds its amount to what is borrowed; a repayment takes away its amount, and a liquidation the
      assets it says it repaid, if they can be read. */
  ghost predicate MovesBorrowed(f: Event -> real) {
    forall e: Event ::
      f(e) == if e.kind == Borrow then e.amount
              else if e.kind == Repay then -e.amount
              else if e.kind == Liquidate && e.repaid.Some? then -e.repaid.value else 0.0
  }

  lemma MovesAre(e: Event, supplied: Event -> real, borrowed: Event -> real)
    requires MovesSupplied(supplied) && MovesBorrowed(borrowed)
    ensures Delta(SuppliedChange)(e) == supplied(e) && Delta(BorrowedChange)(e) == borrowed(e)
  {
    assert supplied(e) == Signed(SuppliedChange(e)) && borrowed(e) == Signed(BorrowedChange(e));
  }

  /** The amounts of a position are the largest sums, over any run of events that lasts to the end, of what was
      supplied less what was withdrawn, and of what was borrowed less what was repaid or liquidated. */
  lemma PositionAmounts(address: string, events: seq<Event>, supplied: Event -> real, borrowed: Event -> real)
    requires NonNegative(events) && PositionOf(address, events).Some?
    requires MovesSupplied(supplied) && MovesBorrowed(borrowed)
    ensures var p := PositionOf(address, events).value;
            IsMaxSuffix(p.suppliedAmount, events, supplied) && IsMaxSuffix(p.borrowedAmount, events, borrowed)
  {
    hide Total, Running, IsMaxSuffix;
    AmountsByNonNegative(events);
    RunningIsMaxSuffix(events, SuppliedChange);
    RunningIsMaxSuffix(events, BorrowedChange);
    forall e: Event ensures Delta(SuppliedChange)(e) == supplied(e) && Delta(BorrowedChange)(e) == borrowed(e) {
      MovesAre(e, supplied, borrowed);
    }
    MaxSuffixSame(Running(events, SuppliedChange), events, Delta(SuppliedChange), supplied);
    MaxSuffixSame(Running(events, BorrowedChange), events, Delta(BorrowedChange), borrowed);
  }

  method CalculateUserPosition(address: string, events: seq<Event>) returns (position: Option<Position>)
    ensures position == PositionOf(address, events)
  {
    if events == [] {
      return None;
    }
    var supplyShares, borrowShares, collateral := 0.0, 0.0, 0.0;
    var suppliedAmount, borrowedAmount := 0.0, 0.0;
    var lastUpdated := events[0].blockTime;
    for i := 0 to |events|
      invariant supplyShares == Total(events[..i], SupplyShares)
      invariant borrowShares == Total(events[..i], BorrowShares)
      invariant collateral == Total(events[..i], CollateralOf)
      invariant suppliedAmount == Running(events[..i], SuppliedChange)
      invariant borrowedAmount == Running(events[..i], BorrowedChange)
      invariant lastUpdated == if i == 0 then events[0].blockTime else LastTime(events[..i])
    {
      var event := events[i];
      assert events[..i + 1][..i] == events[..i];
      match event.kind {
        case Supply =>
          supplyShares := supplyShares + event.shares;
          suppliedAmount := suppliedAmount + event.amount;
        case Withdraw =>
          supplyShares := supplyShares - event.shares;
          if event.amount > suppliedAmount {
            suppliedAmount := 0.0;
          } else {
            suppliedAmount := suppliedAmount - event.amount;
          }
        case Borrow =>
          borrowShares := borrowShares + event.shares;
          borrowedAmount := borrowedAmount + event.amount;
        case Repay =>
          borrowShares := borrowShares - event.shares;
          if event.amount > borrowedAmount {
            borrowedAmount := 0.0;
          } else {
            borrowedAmount := borrowedAmount - event.amount;
          }
        case SupplyCollateral =>
          collateral := collateral + event.amount;
        case WithdrawCollateral =>
          collateral := collateral - event.amount;
        case Liquidate =>
          borrowShares := borrowShares - event.shares;
          collateral := collateral - event.amount;
          if event.repaid.Some? {
            if event.repaid.value > borrowedAmount {
              borrowedAmount := 0.0;
            } else {
              borrowedAmount := borrowedAmount - event.repaid.value;
            }
          }
        case OtherKind =>
      }
      if event.blockTime > lastUpdated {
        lastUpdated := event.blockTime;
      }
    }
    assert events[..|events|] == events;
    if supplyShares == 0.0 && borrowShares == 0.0 && collateral == 0.0 {
      return None;
    }
    return Some(Position(address, supplyShares, borrowShares, collateral, suppliedAmount, borrowedAmount, lastUpdated));
  }

  lemma {:induction false} LastTimeIsMax(events: seq<Event>)
    requires events != []
    ensures forall e :: e in events ==> e.blockTime <= LastTime(events)
    ensures exists e :: e in events && e.blockTime == LastTime(events)
  {
    if |events| == 1 {
      assert events[0] in events;
    } else {
      var front, last := events[..|events| - 1], events[|events| - 1];
      LastTimeIsMax(front);
      assert events == front + [last];
      var e :| e in front && e.blockTime == LastTime(front);
      assert e in events && last in events;
    }
  }

  /** The order of events with the same time, which the query leaves open, does not matter for
      whether there is a position, nor for its shares, collateral and time. */
  lemma PositionOfPermuted(address: string, a: seq<Event>, b: seq<Event>)
    requires multiset(a) == multiset(b)
    ensures PositionOf(address, a).None? <==> PositionOf(address, b).None?
    ensures PositionOf(address, a).Some? ==>
              var p, q := PositionOf(address, a).value, PositionOf(address, b).value;
              p == q.(suppliedAmount := p.suppliedAmount, borrowedAmount := p.borrowedAmount)
  {
    hide Total, Running, LastTime;
    TotalPermuted(a, b, SupplyShares);
    TotalPermuted(a, b, BorrowShares);
    TotalPermuted(a, b, CollateralOf);
    assert |a| == |multiset(a)| == |multiset(b)| == |b|;
    if a != [] {
      LastTimeIsMax(a);
      LastTimeIsMax(b);
      assert forall e :: e in a <==> e in multiset(a);
      assert forall e :: e in b <==> e in multiset(b);
    }
  }

  // ----- all positions of a market, page by page

  const PAGE_SIZE: nat := 100

  /** The events of each user in the market. */
  type History = string -> seq<Event>

  /** Where page p (counted from 1) starts. */
  function PageStart(addresses: seq<string>, p: nat): nat
    requires p > 0
  {
    Min((p - 1) * PAGE_SIZE, |addresses|)
  }

  /** The addresses with events, distinct and in order, by OFFSET and LIMIT. */
  function Page(addresses: seq<string>, p: nat): seq<string>
    requires p > 0
  {
    addresses[PageStart(addresses, p)..PageStart(addresses, p + 1)]
  }

  /** The open positions of the users listed. */
  function Open(addresses: seq<string>, history: History): seq<Position> {
    if addresses == [] then [] else
      var rest, last := Open(addresses[..|addresses| - 1], history), addresses[|addresses| - 1];
      match PositionOf(last, history(last))
      case None => rest
      case Some(position) => rest + [position]
  }

  method CalculatePositionsForMarket(addresses: seq<string>, history: History, page: nat)
    returns (positions: seq<Position>)
    requires page > 0
    ensures positions == Open(Page(addresses, page), history)
  {
    var listed := Page(addresses, page);
    positions := [];
    for i := 0 to |listed|
      invariant positions == Open(listed[..i], history)
    {
      assert listed[..i + 1][..i] == listed[..i];
      var position := CalculateUserPosition(listed[i], history(listed[i]));
      if position.Some? {
        positions := positions + [position.value];
      }
    }
    assert listed[..|listed|] == listed;
  }

  lemma {:induction false} OpenConcat(a: seq<string>, b: seq<string>, history: History)
    ensures Open(a + b, history) == Open(a, history) + Open(b, history)
  {
    hide PositionOf;
    if b == [] {
      assert a + b == a;
    } else {
      OpenConcat(a, b[..|b| - 1], history);
      assert (a + b)[..|a + b| - 1] == a + b[..|b| - 1];
    }
  }

  lemma {:induction false} OpenMembers(addresses: seq<string>, history: History)
    ensures forall p :: p in Open(addresses, history)
                        <==> p.address in addresses && PositionOf(p.address, history(p.address)) == Some(p)
  {
    hide Total, Running, LastTime;
    if addresses != [] {
      var front, last := addresses[..|addresses| - 1], addresses[|addresses| - 1];
      OpenMembers(front, history);
      assert addresses == front + [last];
    }
  }

  lemma {:induction false} OpenDistinct(addresses: seq<string>, history: History)
    requires Distinct(addresses)
    ensures forall i, j :: 0 <= i < j < |Open(addresses, history)| ==>
              Open(addresses, history)[i].address != Open(addresses, history)[j].address
  {
    hide Total, Running, LastTime;
    if addresses != [] {
      var front, last := addresses[..|addresses| - 1], addresses[|addresses| - 1];
      OpenDistinct(front, history);
      OpenMembers(front, history);
      forall i | 0 <= i < |Open(front, history)| ensures Open(front, history)[i].address != last {
        assert Open(front, history)[i] in Open(front, history);
      }
    }
  }

  // ----- from shares to assets

  const VIRTUAL_ASSETS: real := 1.0
  const VIRTUAL_SHARES: real := 1_000_000.0

  datatype MarketState = MarketState(
    supplyAssets: nat, supplyShares: nat, borrowAssets: nat, borrowShares: nat)

  function Quotient(a: real, b: real, c: real): real
    requires c > 0.0
  {
    a * b / c
  }

  function ToAssets(shares: real, assets: nat, totalShares: nat): int {
    if shares == 0.0 then 0
    else Trunc(Quotient(shares, assets as real + VIRTUAL_ASSETS, totalShares as real + VIRTUAL_SHARES))
  }

  /** What one share is worth. */
  function Rate(assets: nat, totalShares: nat): (r: real)
    ensures r > 0.0
  {
    Quotient(1.0, assets as real + VIRTUAL_ASSETS, totalShares as real + VIRTUAL_SHARES)
  }

  function Scaled(shares: real, rate: real): real {
    shares * rate
  }

  lemma DivideFirst(a: real, b: real, c: real)
    requires c > 0.0
    ensures Quotient(a, b, c) == Scaled(a, Quotient(1.0, b, c))
  {
  }

  lemma ToAssetsIsScaled(shares: real, assets: nat, totalShares: nat)
    ensures ToAssets(shares, assets, totalShares) == Trunc(Scaled(shares, Rate(assets, totalShares)))
  {
    hide Trunc, Quotient, Scaled;
    var a, c := assets as real + VIRTUAL_ASSETS, totalShares as real + VIRTUAL_SHARES;
    if shares == 0.0 {
      TruncZero();
      ScaledZero(Rate(assets, totalShares));
    } else {
      DivideFirst(shares, a, c);
    }
  }

  lemma TruncZero()
    ensures Trunc(0.0) == 0
  {
  }

  lemma ScaledZero(rate: real)
    ensures Scaled(0.0, rate) == 0.0
  {
  }

  lemma ScaledMono(a: real, b: real, rate: real)
    requires a <= b && rate > 0.0
    ensures Scaled(a, rate) <= Scaled(b, rate)
  {
    MulMono(a, b, rate);
  }

  lemma TruncMonotone(x: real, y: real)
    requires x <= y
    ensures Trunc(x) <= Trunc(y)
  {
  }

  /** More shares are never worth less. */
  lemma ToAssetsMonotone(a: real, b: real, assets: nat, totalShares: nat)
    requires a <= b
    ensures ToAssets(a, assets, totalShares) <= ToAssets(b, assets, totalShares)
  {
    hide *;
    var rate := Rate(assets, totalShares);
    ToAssetsIsScaled(a, assets, totalShares);
    ToAssetsIsScaled(b, assets, totalShares);
    ScaledMono(a, b, rate);
    TruncMonotone(Scaled(a, rate), Scaled(b, rate));
  }

  function AssetsOf<T>(holders: seq<T>, shares: T -> real, assets: nat, totalShares: nat): int {
    if holders == [] then 0 else
      AssetsOf(holders[..|holders| - 1], shares, assets, totalShares)
      + ToAssets(shares(holders[|holders| - 1]), assets, totalShares)
  }

  lemma ScaledAdd(a: real, b: real, rate: real)
    ensures Scaled(a + b, rate) == Scaled(a, rate) + Scaled(b, rate)
    ensures Scaled(0.0, rate) == 0.0
    ensures a >= 0.0 && rate > 0.0 ==> Scaled(a, rate) >= 0.0
  {
    assert (a + b) * rate == a * rate + b * rate;
  }

  lemma {:induction false} AssetsWithinScaled<T>(holders: seq<T>, shares: T -> real, assets: nat, totalShares: nat)
    requires forall h :: h in holders ==> shares(h) >= 0.0
    ensures AssetsOf(holders, shares, assets, totalShares) as real
               <= Scaled(Total(holders, shares), Rate(assets, totalShares))
  {
    hide ToAssets, Rate, Scaled;
    var rate := Rate(assets, totalShares);
    ScaledAdd(0.0, 0.0, rate);
    if holders != [] {
      var front, last := holders[..|holders| - 1], holders[|holders| - 1];
      AssetsWithinScaled(front, shares, assets, totalShares);
      ToAssetsIsScaled(shares(last), assets, totalShares);
      ScaledAdd(Total(front, shares), shares(last), rate);
      ScaledAdd(shares(last), 0.0, rate);
    }
  }

  lemma WholePool(shares: real, assets: nat, totalShares: nat)
    requires shares <= totalShares as real
    ensures Scaled(shares, Rate(assets, totalShares)) < assets as real + 1.0
  {
    var t, rate := totalShares as real, Rate(assets, totalShares);
    DivideBack(assets as real + VIRTUAL_ASSETS, t + VIRTUAL_SHARES);
    hide Rate, Scaled, Quotient;
    ScaledMono(shares, t, rate);
    ScaledAdd(t, VIRTUAL_SHARES, rate);
    ScaledPositive(VIRTUAL_SHARES, rate);
  }

  lemma DivideBack(a: real, c: real)
    requires c > 0.0
    ensures Scaled(c, Quotient(1.0, a, c)) == a
  {
  }

  lemma ScaledPositive(a: real, rate: real)
    requires a > 0.0 && rate > 0.0
    ensures Scaled(a, rate) > 0.0
  {
  }

  /** Whoever holds the pool's shares, the truncated amounts add up to no more than its assets. */
  lemma PoolNotExceeded<T>(holders: seq<T>, shares: T -> real, assets: nat, totalShares: nat)
    requires forall h :: h in holders ==> shares(h) >= 0.0
    requires Total(holders, shares) <= totalShares as real
    ensures AssetsOf(holders, shares, assets, totalShares) <= assets
  {
    hide *;
    AssetsWithinScaled(holders, shares, assets, totalShares);
    WholePool(Total(holders, shares), assets, totalShares);
  }

  // ----- the snapshots of a market

  datatype Token = Token(decimals: nat, price: real)

  datatype Snapshot = Snapshot(
    address: string, supplyAmount: int, supplyUsd: real, borrowAmount: int, borrowUsd: real,
    collateralAmount: real, collateralUsd: real)

  /** The value of an amount given in the token's smallest unit. */
  function Worth(raw: real, token: Token): real {
    raw / Pow10(token.decimals) * token.price
  }

  function Usd(raw: real, token: Token): real {
    WithScale(Worth(raw, token), 2)
  }

  function SnapshotOf(p: Position, state: MarketState, loan: Token, collateral: Token): Snapshot {
    var supply := ToAssets(p.supplyShares, state.supplyAssets, state.supplyShares);
    var borrow := ToAssets(p.borrowShares, state.borrowAssets, state.borrowShares);
    Snapshot(p.address, supply, Usd(supply as real, loan), borrow, Usd(borrow as real, loan),
             p.collateral, Usd(p.collateral, collateral))
  }

  function SnapshotsOf(positions: seq<Position>, state: MarketState, loan: Token, collateral: Token): (s: seq<Snapshot>)
    ensures |s| == |positions|
    ensures forall i :: 0 <= i < |s| ==> s[i] == SnapshotOf(positions[i], state, loan, collateral)
  {
    if positions == [] then [] else
      SnapshotsOf(positions[..|positions| - 1], state, loan, collateral)
      + [SnapshotOf(positions[|positions| - 1], state, loan, collateral)]
  }

  /** The first page without an open position, from page p on. */
  function StopPage(addresses: seq<string>, history: History, p: nat): (q: nat)
    requires p > 0
    ensures q >= p && Open(Page(addresses, q), history) == []
    ensures forall k :: p <= k < q ==> Open(Page(addresses, k), history) != []
    decreases |addresses| - PageStart(addresses, p)
  {
    if Open(Page(addresses, p), history) == [] then p else
      assert PageStart(addresses, p + 1) > PageStart(addresses, p);
      StopPage(addresses, history, p + 1)
  }

  /** The addresses on the pages before page p. */
  function Before(addresses: seq<string>, p: nat): seq<string>
    requires p > 0
  {
    addresses[..PageStart(addresses, p)]
  }

  lemma NextPage(addresses: seq<string>, history: History, p: nat)
    requires p > 0
    ensures Before(addresses, p + 1) == Before(addresses, p) + Page(addresses, p)
    ensures Open(Before(addresses, p + 1), history) ==
               Open(Before(addresses, p), history) + Open(Page(addresses, p), history)
    ensures Open(Page(addresses, p), history) != [] ==> PageStart(addresses, p + 1) > PageStart(addresses, p)
  {
    assert Before(addresses, p + 1) == Before(addresses, p) + Page(addresses, p);
    OpenConcat(Before(addresses, p), Page(addresses, p), history);
  }

  lemma SnapshotsConcat(a: seq<Position>, b: seq<Position>, state: MarketState, loan: Token, collateral: Token)
    ensures SnapshotsOf(a + b, state, loan, collateral)
         == SnapshotsOf(a, state, loan, collateral) + SnapshotsOf(b, state, loan, collateral)
  {
  }

  /** The loop over the pages; it ends at the first one without an open position. */
  method GenerateSnapshots(addresses: seq<string>, history: History, state: MarketState, loan: Token, collateral: Token)
    returns (table: seq<Snapshot>)
    ensures var covered := Before(addresses, StopPage(addresses, history, 1));
            table == SnapshotsOf(Open(covered, history), state, loan, collateral)
  {
    hide Open, SnapshotOf, SnapshotsOf;
    var page := 1;
    table := [];
    NoSnapshots(addresses, history, state, loan, collateral);
    while true
      invariant page > 0
      invariant StopPage(addresses, history, page) == StopPage(addresses, history, 1)
      invariant table == SnapshotsOf(Open(Before(addresses, page), history), state, loan, collateral)
      decreases |addresses| - PageStart(addresses, page)
    {
      var positions := CalculatePositionsForMarket(addresses, history, page);
      if positions == [] {
        break;
      }
      var snapshots := [];
      for i := 0 to |positions|
        invariant |snapshots| == i
        invariant forall j :: 0 <= j < i ==> snapshots[j] == SnapshotOf(positions[j], state, loan, collateral)
      {
        snapshots := snapshots + [SnapshotOf(positions[i], state, loan, collateral)];
      }
      assert snapshots == SnapshotsOf(positions, state, loan, collateral);
      NextPage(addresses, history, page);
      SnapshotsConcat(Open(Before(addresses, page), history), positions, state, loan, collateral);
      table := table + snapshots;
      page := page + 1;
    }
  }

  lemma NoSnapshots(addresses: seq<string>, history: History, state: MarketState, loan: Token, collateral: Token)
    ensures SnapshotsOf(Open(Before(addresses, 1), history), state, loan, collateral) == []
  {
  }

  /** Nobody is listed twice, and everybody with an open position is listed exactly if none of
      the users after the first page without an open position has one. */
  lemma CoveredIff(addresses: seq<string>, history: History)
    requires Distinct(addresses)
    ensures var covered := Open(Before(addresses, StopPage(addresses, history, 1)), history);
            && (forall i, j :: 0 <= i < j < |covered| ==> covered[i].address != covered[j].address)
            && (covered == Open(addresses, history)
                <==> Open(addresses[PageStart(addresses, StopPage(addresses, history, 1) + 1)..], history) == [])
  {
    hide Open;
    var q := StopPage(addresses, history, 1);
    var covered, rest := Before(addresses, q), addresses[PageStart(addresses, q + 1)..];
    OpenDistinct(covered, history);
    NextPage(addresses, history, q);
    assert addresses == Before(addresses, q + 1) + rest;
    OpenConcat(Before(addresses, q + 1), rest, history);
  }

  /** n different addresses. */
  function Addresses(n: nat): (s: seq<string>)
    ensures |s| == n && Distinct(s)
  {
    var s := seq(n, i requires 0 <= i < n => Letters(i));
    assert forall i :: 0 <= i < n ==> |s[i]| == i;
    s
  }

  function Letters(n: nat): (s: string)
    ensures |s| == n
  {
    seq(n, i => 'x')
  }

  lemma {:induction false} ClosedNotOpen(addresses: seq<string>, history: History)
    requires forall a :: a in addresses ==> history(a) == []
    ensures Open(addresses, history) == []
  {
    if addresses != [] {
      ClosedNotOpen(addresses[..|addresses| - 1], history);
      assert addresses[|addresses| - 1] in addresses;
    }
  }

  /** A position is missed: only the last of 101 users has one, and the first page of 100 ends the loop. */
  lemma LatePositionMissed(history: History)
    requires forall a :: history(a) == if |a| == 100 then [Event(Supply, 1.0, 1.0, None, 0)] else []
    ensures var addresses := Addresses(101);
            && Open(addresses, history) == [Position(addresses[100], 1.0, 0.0, 0.0, 1.0, 0.0, 0)]
            && StopPage(addresses, history, 1) == 1
            && Open(Before(addresses, StopPage(addresses, history, 1)), history) == []
  {
    hide PositionOf, Distinct, Open, Page;
    var addresses := Addresses(101);
    var front, late := addresses[..100], addresses[100];
    assert forall i :: 0 <= i < 101 ==> addresses[i] == Letters(i);
    ClosedNotOpen(front, history);
    FirstPage(addresses);
    var e := Event(Supply, 1.0, 1.0, None, 0);
    assert history(late) == [e] && addresses == front + [late];
    OneSupply(late, e);
    OpenOneMore(front, late, history);
    OpenNone(history);
  }

  lemma FirstPage(addresses: seq<string>)
    requires |addresses| >= 100
    ensures Page(addresses, 1) == addresses[..100] && Before(addresses, 1) == []
  {
  }

  lemma OpenNone(history: History)
    ensures Open([], history) == []
  {
  }

  lemma OpenOneMore(addresses: seq<string>, a: string, history: History)
    ensures Open(addresses + [a], history)
         == Open(addresses, history) + match PositionOf(a, history(a)) case None => [] case Some(position) => [position]
  {
    hide PositionOf;
    assert (addresses + [a])[..|addresses|] == addresses;
  }

  lemma OneSupply(address: string, e: Event)
    requires e == Event(Supply, 1.0, 1.0, None, 0)
    ensures PositionOf(address, [e]) == Some(Position(address, 1.0, 0.0, 0.0, 1.0, 0.0, 0))
  {
    assert [e][..0] == [] && [] + [e] == [e];
    TotalOneMore([], e, SupplyShares);
    TotalOneMore([], e, BorrowShares);
    TotalOneMore([], e, CollateralOf);
    assert Running([e], SuppliedChange) == Applied(Running([], SuppliedChange), Up(1.0)) == 1.0;
    assert Running([e], BorrowedChange) == Applied(Running([], BorrowedChange), Same) == 0.0;
  }

  function SupplySharesOf(p: Position): real {
    p.supplyShares
  }

  function BorrowSharesOf(p: Position): real {
    p.borrowShares
  }

  function Supplied(s: Snapshot): real {
    s.supplyAmount as real
  }

  function Borrowed(s: Snapshot): real {
    s.borrowAmount as real
  }

  lemma {:induction false} AmountsAreAssets(positions: seq<Position>, state: MarketState, loan: Token,
                                            collateral: Token)
    ensures var s := SnapshotsOf(positions, state, loan, collateral);
            && Total(s, Supplied) == AssetsOf(positions, SupplySharesOf, state.supplyAssets, state.supplyShares) as real
            && Total(s, Borrowed) == AssetsOf(positions, BorrowSharesOf, state.borrowAssets, state.borrowShares) as real
  {
    hide ToAssets, Usd;
    if positions != [] {
      var front := positions[..|positions| - 1];
      AmountsAreAssets(front, state, loan, collateral);
      var s := SnapshotsOf(positions, state, loan, collateral);
      assert s[..|s| - 1] == SnapshotsOf(front, state, loan, collateral);
    }
  }

  /** If the users' shares are within the pool's, the table claims no more than the pool's assets. */
  lemma SnapshotsWithinPool(positions: seq<Position>, state: MarketState, loan: Token, collateral: Token)
    requires forall p :: p in positions ==> p.supplyShares >= 0.0 && p.borrowShares >= 0.0
    requires Total(positions, SupplySharesOf) <= state.supplyShares as real
    requires Total(positions, BorrowSharesOf) <= state.borrowShares as real
    ensures var s := SnapshotsOf(positions, state, loan, collateral);
            Total(s, Supplied) <= state.supplyAssets as real && Total(s, Borrowed) <= state.borrowAssets as real
  {
    hide *;
    AmountsAreAssets(positions, state, loan, collateral);
    assert forall p :: p in positions ==> SupplySharesOf(p) >= 0.0 && BorrowSharesOf(p) >= 0.0 by {
      SharesOf(positions);
    }
    PoolNotExceeded(positions, SupplySharesOf, state.supplyAssets, state.supplyShares);
    PoolNotExceeded(positions, BorrowSharesOf, state.borrowAssets, state.borrowShares);
  }

  lemma SharesOf(positions: seq<Position>)
    ensures forall p :: p in positions ==> SupplySharesOf(p) == p.supplyShares && BorrowSharesOf(p) == p.borrowShares
  {
  }

  lemma WorthAdds(a: real, b: real, token: Token)
    ensures Worth(a + b, token) == Worth(a, token) + Worth(b, token)
    ensures Worth(0.0, token) == 0.0
  {
    var p := Pow10(token.decimals);
    assert (a + b) / p == a / p + b / p;
    assert (a / p + b / p) * token.price == a / p * token.price + b / p * token.price;
  }

  lemma WorthNonNegative(a: real, token: Token)
    requires a >= 0.0 && token.price >= 0.0
    ensures Worth(a, token) >= 0.0
  {
    assert a / Pow10(token.decimals) >= 0.0;
  }

  /** Showing cents only takes less than a cent. */
  lemma UsdWithinCent(raw: real, token: Token)
    requires raw >= 0.0 && token.price >= 0.0
    ensures Worth(raw, token) - 0.01 < Usd(raw, token) <= Worth(raw, token)
  {
    WorthNonNegative(raw, token);
    hide Worth;
    WithScaleWithin(Worth(raw, token), 2);
    assert Pow10(2) == 100.0 by {
      assert Pow10(1) == 10.0 * Pow10(0);
    }
  }

  /** A whole number of assets that the shares are worth, and the cents those are worth. With 1 virtual asset and
      1000000 virtual shares in the pool, the assets are the largest number that goes into the shares' part of
      it; and the dollars, times the token's unit, are less than a cent below what the amount is worth. */
  ghost predicate Buys(amount: int, shares: real, assets: nat, totalShares: nat) {
    amount as real * (totalShares as real + 1_000_000.0) <= shares * (assets as real + 1.0)
      < (amount as real + 1.0) * (totalShares as real + 1_000_000.0)
  }

  ghost predicate Costs(usd: real, amount: real, token: Token) {
    && (usd * 100.0).Floor as real == usd * 100.0
    && usd * Pow10(token.decimals) <= amount * token.price < (usd + 0.01) * Pow10(token.decimals)
  }

  lemma QuotientTimes(a: real, b: real, c: real)
    requires c > 0.0
    ensures Quotient(a, b, c) * c == a * b
  {
  }

  lemma TimesBetween(low: real, q: real, high: real, worth: real, c: real)
    requires c > 0.0 && q * c == worth && low <= q < high
    ensures low * c <= worth < high * c
  {
    MulMono(low, q, c);
    MulStrict(q, high, c);
  }

  lemma ToAssetsBuys(shares: real, assets: nat, totalShares: nat)
    requires shares >= 0.0
    ensures Buys(ToAssets(shares, assets, totalShares), shares, assets, totalShares)
  {
    hide Quotient, Trunc;
    var a, c := assets as real + 1.0, totalShares as real + 1_000_000.0;
    var q, n := Quotient(shares, a, c), ToAssets(shares, assets, totalShares);
    QuotientTimes(shares, a, c);
    MulMono(0.0, shares, a);
    Factor(0.0, q, c);
    if shares == 0.0 {
      Factor(q, 0.0, c);
    }
    TimesBetween(n as real, q, n as real + 1.0, shares * a, c);
  }

  lemma WholeCents(worth: real)
    ensures (WithScale(worth, 2) * 100.0).Floor as real == WithScale(worth, 2) * 100.0
  {
    hide WithScale;
    WithScaleShows(worth, 2);
    Pow10Adds(1, 1);
  }

  lemma UsdCosts(raw: real, token: Token)
    requires raw >= 0.0 && token.price >= 0.0
    ensures Costs(Usd(raw, token), raw, token)
  {
    UsdWithinCent(raw, token);
    hide WithScale;
    var p, w, usd := Pow10(token.decimals), Worth(raw, token), Usd(raw, token);
    var q := raw / p;
    assert q * p == raw;
    assert w * p == raw * token.price;
    TimesBetween(usd, w, usd + 0.01, raw * token.price, p);
    WholeCents(w);
  }

  /** A snapshot shows what the position's shares buy of the market's pools, the position's collateral, and what
      these cost, the first two in the loan token and the last in the collateral token. */
  lemma SnapshotShows(p: Position, state: MarketState, loan: Token, collateral: Token)
    requires p.supplyShares >= 0.0 && p.borrowShares >= 0.0 && p.collateral >= 0.0
    requires loan.price >= 0.0 && collateral.price >= 0.0
    ensures var s := SnapshotOf(p, state, loan, collateral);
            && s.address == p.address && s.collateralAmount == p.collateral
            && Buys(s.supplyAmount, p.supplyShares, state.supplyAssets, state.supplyShares)
            && Buys(s.borrowAmount, p.borrowShares, state.borrowAssets, state.borrowShares)
            && Costs(s.supplyUsd, s.supplyAmount as real, loan) && Costs(s.borrowUsd, s.borrowAmount as real, loan)
            && Costs(s.collateralUsd, s.collateralAmount, collateral)
  {
    hide Buys, Costs, ToAssets, Usd;
    var s := SnapshotOf(p, state, loan, collateral);
    ToAssetsBuys(p.supplyShares, state.supplyAssets, state.supplyShares);
    ToAssetsBuys(p.borrowShares, state.borrowAssets, state.borrowShares);
    ToAssetsNonNegative(p.supplyShares, state.supplyAssets, state.supplyShares);
    ToAssetsNonNegative(p.borrowShares, state.borrowAssets, state.borrowShares);
    UsdCosts(s.supplyAmount as real, loan);
    UsdCosts(s.borrowAmount as real, loan);
    UsdCosts(p.collateral, collateral);
  }

  function SupplyUsdOf(s: Snapshot): real {
    s.supplyUsd
  }

  function BorrowUsdOf(s: Snapshot): real {
    s.borrowUsd
  }

  lemma {:induction false} UsdWithinWorth(positions: seq<Position>, state: MarketState, loan: Token, collateral: Token)
    requires forall p :: p in positions ==> p.supplyShares >= 0.0 && p.borrowShares >= 0.0
    requires loan.price >= 0.0
    ensures var s := SnapshotsOf(positions, state, loan, collateral);
            && Total(s, SupplyUsdOf) <= Worth(Total(s, Supplied), loan)
            && Total(s, BorrowUsdOf) <= Worth(Total(s, Borrowed), loan)
  {
    hide ToAssets, Usd, Worth, Total;
    WorthAdds(0.0, 0.0, loan);
    var s := SnapshotsOf(positions, state, loan, collateral);
    if positions == [] {
      NoTotal<Snapshot>();
    } else {
      var front, last := positions[..|positions| - 1], positions[|positions| - 1];
      var t, x := SnapshotsOf(front, state, loan, collateral), SnapshotOf(last, state, loan, collateral);
      assert last in positions;
      UsdWithinWorth(front, state, loan, collateral);
      assert s == t + [x];
      TotalOneMore(t, x, SupplyUsdOf);
      TotalOneMore(t, x, Supplied);
      TotalOneMore(t, x, BorrowUsdOf);
      TotalOneMore(t, x, Borrowed);
      ToAssetsNonNegative(last.supplyShares, state.supplyAssets, state.supplyShares);
      ToAssetsNonNegative(last.borrowShares, state.borrowAssets, state.borrowShares);
      UsdWithinCent(Supplied(x), loan);
      UsdWithinCent(Borrowed(x), loan);
      WorthAdds(Total(t, Supplied), Supplied(x), loan);
      WorthAdds(Total(t, Borrowed), Borrowed(x), loan);
    }
  }

  lemma ToAssetsNonNegative(shares: real, assets: nat, totalShares: nat)
    requires shares >= 0.0
    ensures ToAssets(shares, assets, totalShares) >= 0
  {
    ToAssetsMonotone(0.0, shares, assets, totalShares);
  }

  lemma NoTotal<T>()
    ensures forall f: T -> real :: Total<T>([], f) == 0.0
  {
  }

  /** Nor do the dollar values of all snapshots add up to more than the pool's assets are worth. */
  lemma UsdWithinPool(positions: seq<Position>, state: MarketState, loan: Token, collateral: Token)
    requires forall p :: p in positions ==> p.supplyShares >= 0.0 && p.borrowShares >= 0.0
    requires Total(positions, SupplySharesOf) <= state.supplyShares as real
    requires Total(positions, BorrowSharesOf) <= state.borrowShares as real
    requires loan.price >= 0.0
    ensures var s := SnapshotsOf(positions, state, loan, collateral);
            && Total(s, SupplyUsdOf) <= Worth(state.supplyAssets as real, loan)
            && Total(s, BorrowUsdOf) <= Worth(state.borrowAssets as real, loan)
  {
    hide *;
    var s := SnapshotsOf(positions, state, loan, collateral);
    SnapshotsWithinPool(positions, state, loan, collateral);
    UsdWithinWorth(positions, state, loan, collateral);
    WorthMonotone(Total(s, Supplied), state.supplyAssets as real, loan);
    WorthMonotone(Total(s, Borrowed), state.borrowAssets as real, loan);
  }

  lemma WorthMonotone(a: real, b: real, token: Token)
    requires a <= b && token.price >= 0.0
    ensures Worth(a, token) <= Worth(b, token)
  {
    WorthNonNegative(b - a, token);
    WorthAdds(b - a, a, token);
  }
}
