/** What a user's activity of a day shows, in the figures of the swaps, positions and referrals it was
    made from: volumes and points for swaps, points for positions, base points and referral points. */
module DayFigures {
  import opened DailyPoints
  import opened Lists
  import opened Numbers
  import opened Options
  import opened PointsService
  import opened StableSort
  import opened Sums
  import Sweep = LendingSweep

  // ----- swaps

  /** A value for every swap of a token with known decimals and price. */
  ghost predicate Values(value: LinxSwap -> real) {
    forall s: LinxSwap :: s.decimals.Some? && s.price.Some? ==>
      value(s) * Pow10(s.decimals.value) == s.amountIn * s.price.value
  }

  /** A user's swaps of known value. */
  ghost predicate IsOf(isOf: LinxSwap -> bool, a: string) {
    forall s: LinxSwap :: isOf(s) <==> s.address == a && s.decimals.Some? && s.price.Some?
  }

  lemma ValueIs(s: LinxSwap, value: LinxSwap -> real)
    requires Values(value)
    ensures SwapUsd(s).Some? <==> s.decimals.Some? && s.price.Some?
    ensures SwapUsd(s).Some? ==> SwapUsd(s).value == value(s)
  {
    if s.decimals.Some? && s.price.Some? {
      var p := Pow10(s.decimals.value);
      var v := value(s);
      assert v * p == s.amountIn * s.price.value;
      DividedTimes(s.amountIn, p, s.price.value, v);
    }
  }

  lemma DividedTimes(amount: real, p: real, price: real, v: real)
    requires p > 0.0 && v * p == amount * price
    ensures amount / p * price == v
  {
    var q := amount / p;
    assert q * p == amount;
    assert q * price * p == v * p;
    Factor(q * price, v, p);
    Factor(v, q * price, p);
  }

  /** A user's volume is the sum of the values of the user's swaps. */
  lemma {:induction false} VolumeIsTotal(swaps: seq<LinxSwap>, a: string, value: LinxSwap -> real,
                                         isOf: LinxSwap -> bool)
    requires Values(value) && IsOf(isOf, a)
    ensures (if a in SwapVolumes(swaps) then SwapVolumes(swaps)[a] else 0.0) == Total(Filter(swaps, isOf), value)
  {
    if swaps != [] {
      var front, last := swaps[..|swaps| - 1], swaps[|swaps| - 1];
      VolumeIsTotal(front, a, value, isOf);
      ValueIs(last, value);
      TotalOneMore(Filter(front, isOf), last, value);
      hide SwapUsd, Values;
      assert isOf(last) <==> last.address == a && SwapUsd(last).Some?;
    }
  }

  /** All users' volumes together are the sum of the values of all swaps of known value. */
  lemma {:induction false} VolumesConserve(swaps: seq<LinxSwap>, value: LinxSwap -> real, known: LinxSwap -> bool)
    requires Values(value) && forall s: LinxSwap :: known(s) <==> s.decimals.Some? && s.price.Some?
    ensures Sum(SwapVolumes(swaps)) == Total(Filter(swaps, known), value)
  {
    if swaps != [] {
      var front, last := swaps[..|swaps| - 1], swaps[|swaps| - 1];
      VolumesConserve(front, value, known);
      hide SwapUsd, Values, Sum, Total;
      ValueIs(last, value);
      TotalOneMore(Filter(front, known), last, value);
      assert known(last) <==> SwapUsd(last).Some?;
      if SwapUsd(last).Some? {
        SumBump(SwapVolumes(front), last.address, SwapUsd(last).value);
      }
    }
  }

  /** Which figures of an activity the later phases leave alone. */
  ghost predicate SameFigures(a: UserDailyActivity, b: UserDailyActivity) {
    && a.swapPoints == b.swapPoints && a.supplyPoints == b.supplyPoints && a.borrowPoints == b.borrowPoints
    && a.swapVolumeUsd == b.swapVolumeUsd && a.supplyVolumeUsd == b.supplyVolumeUsd
    && a.borrowVolumeUsd == b.borrowVolumeUsd
  }

  lemma LaterPhasesKeepFigures(w: World, c: Config, date: int, a: string)
    requires a in AfterLending(w, c, date)
    ensures a in DayActivities(w, c, date)
    ensures SameFigures(DayActivities(w, c, date)[a], AfterLending(w, c, date)[a])
  {
    hide AfterLending, Share, BestMultiplier, ReferredUsers, EarnedBy;
    assert a in AfterMultipliers(w, c, date);
  }

  lemma LendingKeepsSwaps(w: World, c: Config, date: int, a: string)
    requires a in AfterSwaps(w, c, date)
    ensures a in AfterLending(w, c, date)
    ensures AfterLending(w, c, date)[a].swapPoints == AfterSwaps(w, c, date)[a].swapPoints
    ensures AfterLending(w, c, date)[a].swapVolumeUsd == AfterSwaps(w, c, date)[a].swapVolumeUsd
  {
    hide AfterSwaps, TimePoints, DaySnapshots, Holders, DayTotals;
  }

  /** points is the least whole number that is not below exact, which does not go into 32 bits beyond these
      ends. */
  predicate RoundsUp(points: int, exact: real) {
    && (-2_147_483_649.0 < exact <= 2_147_483_647.0 ==> exact <= points as real < exact + 1.0)
    && (exact <= -2_147_483_649.0 || exact > 2_147_483_647.0 ==> points == 0)
  }

  lemma SwapPointsRoundUp(volume: real, rate: real, exact: real)
    requires exact == volume * rate
    ensures RoundsUp(SwapPoints(volume, rate), exact)
  {
    hide Ceiling, ToI32OrZero;
    CeilingInto32Bits(exact);
  }

  lemma SwapPhaseFigures(w: World, c: Config, date: int, a: string)
    requires c.pointsPerUsd.Some? && a in SwapVolumes(w.swapsOn(date))
    ensures a in AfterSwaps(w, c, date)
    ensures var act, volume := AfterSwaps(w, c, date)[a], SwapVolumes(w.swapsOn(date))[a];
            act.swapVolumeUsd == volume && act.swapPoints == SwapPoints(volume, c.pointsPerUsd.value)
  {
    hide SwapVolumes, SwapPoints;
  }

  /** A user with a swap of known value is stored with the sum of all their values, and with the least
      whole number of points that is not below the rate times that sum, unless it does not go into 32 bits. */
  lemma SwapPointsAreOfTotal(w: World, c: Config, date: int, a: string, value: LinxSwap -> real,
                             isOf: LinxSwap -> bool)
    returns (exact: real)
    requires c.pointsPerUsd.Some? && Values(value) && IsOf(isOf, a) && HasValuedSwap(w.swapsOn(date), a)
    ensures a in DayActivities(w, c, date)
    ensures var act, volume := DayActivities(w, c, date)[a], Total(Filter(w.swapsOn(date), isOf), value);
            && act.swapVolumeUsd == volume
            && exact == volume * c.pointsPerUsd.value && RoundsUp(act.swapPoints, exact)
  {
    hide AfterLending, DayActivities, SwapVolumes, HasValuedSwap, Values, IsOf, SwapPoints, RoundsUp;
    var swaps := w.swapsOn(date);
    VolumesAreOfSwappers(swaps, a);
    VolumeIsTotal(swaps, a, value, isOf);
    SwapPhaseFigures(w, c, date, a);
    LendingKeepsSwaps(w, c, date, a);
    LaterPhasesKeepFigures(w, c, date, a);
    hide AfterSwaps;
    var volume := Total(Filter(swaps, isOf), value);
    exact := volume * c.pointsPerUsd.value;
    SwapPointsRoundUp(volume, c.pointsPerUsd.value, exact);
    assert DayActivities(w, c, date)[a].swapPoints == SwapPoints(volume, c.pointsPerUsd.value);
  }

  // ----- positions

  /** A user's snapshots of the day, as the sweep goes through them. */
  ghost function OwnSnapshots(w: World, date: int, a: string): seq<Sweep.PositionSnapshot> {
    Sort(SnapshotsOf(DaySnapshots(w, date), a), Sweep.Timestamp)
  }

  /** Midnight after the day, in nanoseconds. */
  function DayEnd(date: int): int {
    (date + 1) * DAY_NANOS
  }

  /** Whether positions are rewarded, and at what daily rate a side is. */
  predicate LendingRewarded(c: Config) {
    c.supplyPerUsdPerDay.Some? && c.borrowPerUsdPerDay.Some?
  }

  function RateFor(c: Config, side: Sweep.Side): real
    requires LendingRewarded(c)
  {
    if side.Supply? then c.supplyPerUsdPerDay.value else c.borrowPerUsdPerDay.value
  }

  lemma LendingFigures(w: World, c: Config, date: int, a: string)
    requires LendingRewarded(c) && a in Holders(DaySnapshots(w, date))
    ensures a in DayActivities(w, c, date)
    ensures var act, own, end := DayActivities(w, c, date)[a], OwnSnapshots(w, date, a), DayEnd(date);
            && act.supplyPoints == TimePoints(Sweep.Swept(own, end, Sweep.Supply), RateFor(c, Sweep.Supply))
            && act.borrowPoints == TimePoints(Sweep.Swept(own, end, Sweep.Borrow), RateFor(c, Sweep.Borrow))
            && act.supplyVolumeUsd == Sweep.Volume(own, end, Sweep.Supply)
            && act.borrowVolumeUsd == Sweep.Volume(own, end, Sweep.Borrow)
  {
    hide TimePoints, DaySnapshots, Holders, SwapPoints, Sort, Sweep.Swept, Sweep.Volume, DayActivities;
    NoPointsForNothing(RateFor(c, Sweep.Supply));
    NoPointsForNothing(RateFor(c, Sweep.Borrow));
    var entry := Entry(AfterSwaps(w, c, date), a);
    assert entry.supplyPoints == 0 && entry.borrowPoints == 0;
    assert entry.supplyVolumeUsd == 0.0 && entry.borrowVolumeUsd == 0.0;
    LaterPhasesKeepFigures(w, c, date, a);
  }

  lemma NoPointsForNothing(rate: real)
    ensures TimePoints(0.0, rate) == 0
  {
    assert ExactPoints(0.0, rate) == 0.0;
  }

  /** What is within one half of some number of points, which does not go into 32 bits beyond these ends. */
  predicate Rounds(points: int, exact: real) {
    && (-2_147_483_648.0 <= exact <= 2_147_483_647.0 ==> exact - 0.5 <= points as real <= exact + 0.5)
    && (exact >= 2_147_483_648.0 || exact <= -2_147_483_649.0 ==> points == 0)
  }

  /** A daily rate for dollar-nanoseconds: there are 86400 seconds in a day and 10^9 nanoseconds in each. */
  predicate IsPay(exact: real, dollarNanos: real, dailyRate: real) {
    exact * 86_400_000_000_000.0 == dollarNanos * dailyRate
  }

  lemma TimePointsRound(dollarSeconds: real, dollarNanos: real, rate: real, exact: real)
    requires dollarSeconds * 1_000_000_000.0 == dollarNanos && IsPay(exact, dollarNanos, rate)
    ensures Rounds(TimePoints(dollarSeconds, rate), exact)
  {
    hide Round, ToI32OrZero;
    PayIs(dollarSeconds, dollarNanos, rate, exact);
    RoundedInto32Bits(exact);
  }

  lemma PayIs(dollarSeconds: real, dollarNanos: real, rate: real, exact: real)
    requires dollarSeconds * 1_000_000_000.0 == dollarNanos && IsPay(exact, dollarNanos, rate)
    ensures ExactPoints(dollarSeconds, rate) == exact
  {
    var perSecond := rate / 86400.0;
    assert perSecond * 86400.0 == rate;
    assert dollarSeconds * perSecond * 86400.0 == dollarSeconds * rate;
    assert dollarSeconds * 1_000_000_000.0 * rate == dollarSeconds * rate * 1_000_000_000.0;
  }

  lemma InSeconds(own: seq<Sweep.PositionSnapshot>, end: int, side: Sweep.Side)
    requires Sweep.WholeSeconds(own, end)
    ensures Sweep.Swept(own, end, side) * 1_000_000_000.0 == Sweep.Integral(own, end, side)
  {
    Sweep.SweepExactOnWholeSeconds(own, end, side);
  }

  /** With whole-second snapshots, the supply and the borrow points a user is stored with are the daily
      rate for the integral of the user's positions over the day, market by market, rounded. */
  lemma LendingPointsAreIntegral(w: World, c: Config, date: int, a: string, supply: real, borrow: real)
    requires c.supplyPerUsdPerDay.Some? && c.borrowPerUsdPerDay.Some? && HasSnapshot(DaySnapshots(w, date), a)
    requires Sweep.WholeSeconds(OwnSnapshots(w, date, a), DayEnd(date))
    requires IsPay(supply, Sweep.Integral(OwnSnapshots(w, date, a), DayEnd(date), Sweep.Supply),
                   c.supplyPerUsdPerDay.value)
    requires IsPay(borrow, Sweep.Integral(OwnSnapshots(w, date, a), DayEnd(date), Sweep.Borrow),
                   c.borrowPerUsdPerDay.value)
    ensures a in DayActivities(w, c, date)
    ensures var act := DayActivities(w, c, date)[a];
            Rounds(act.supplyPoints, supply) && Rounds(act.borrowPoints, borrow)
  {
    hide TimePoints, DayActivities, DaySnapshots, Holders, OwnSnapshots, HasSnapshot, Rounds, IsPay, DayEnd;
    HoldersHaveSnapshots(DaySnapshots(w, date), a);
    LendingFigures(w, c, date, a);
    var own, end := OwnSnapshots(w, date, a), DayEnd(date);
    InSeconds(own, end, Sweep.Supply);
    InSeconds(own, end, Sweep.Borrow);
    TimePointsRound(Sweep.Swept(own, end, Sweep.Supply), Sweep.Integral(own, end, Sweep.Supply),
                    c.supplyPerUsdPerDay.value, supply);
    TimePointsRound(Sweep.Swept(own, end, Sweep.Borrow), Sweep.Integral(own, end, Sweep.Borrow),
                    c.borrowPerUsdPerDay.value, borrow);
  }

  lemma OwnInOrder(w: World, date: int, a: string)
    ensures Sweep.InOrder(OwnSnapshots(w, date, a), DayEnd(date))
  {
    hide SnapshotsOf, Sort;
    var day, own := DaySnapshots(w, date), OwnSnapshots(w, date, a);
    SnapshotsOfWithin(day, a);
    SortSorted(SnapshotsOf(day, a), Sweep.Timestamp);
    SortMembers(SnapshotsOf(day, a), Sweep.Timestamp);
    forall i | 0 <= i < |own| ensures own[i].timestamp <= DayEnd(date) {
      assert own[i] in own;
    }
  }

  /** Dollar-nanoseconds within what is owed for less and for more. */
  lemma PayBetween(least: real, exact: real, most: real, less: real, nanos: real, more: real, rate: real)
    requires less <= nanos <= more && rate >= 0.0
    requires IsPay(least, less, rate) && IsPay(exact, nanos, rate) && IsPay(most, more, rate)
    ensures least <= exact <= most
  {
    MulMono(less, nanos, rate);
    MulMono(nanos, more, rate);
  }

  lemma Pay(dollarNanos: real, rate: real) returns (exact: real)
    ensures IsPay(exact, dollarNanos, rate)
  {
    exact := dollarNanos * rate / 86_400_000_000_000.0;
  }

  lemma RoundsBetween(points: int, least: real, exact: real, most: real)
    requires Rounds(points, exact) && least <= exact <= most
    ensures -2_147_483_648.0 <= least && most <= 2_147_483_647.0 ==> least - 0.5 <= points as real <= most + 0.5
  {
  }

  /** With any snapshots, non-negative amounts and a non-negative rate: the points are those for the
      integral or, for the truncated seconds, somewhat fewer, but no fewer than those for the integral less
      one second of every period's aggregate amount. */
  lemma LendingPointsBounds(w: World, c: Config, date: int, a: string, side: Sweep.Side)
    returns (least: real, most: real)
    requires c.supplyPerUsdPerDay.Some? && c.borrowPerUsdPerDay.Some? && HasSnapshot(DaySnapshots(w, date), a)
    requires c.supplyPerUsdPerDay.value >= 0.0 && c.borrowPerUsdPerDay.value >= 0.0
    requires Sweep.NonNegative(OwnSnapshots(w, date, a), side)
    ensures a in DayActivities(w, c, date)
    ensures var act, own, end := DayActivities(w, c, date)[a], OwnSnapshots(w, date, a), DayEnd(date);
            var rate := if side.Supply? then c.supplyPerUsdPerDay.value else c.borrowPerUsdPerDay.value;
            var points := if side.Supply? then act.supplyPoints else act.borrowPoints;
            var nanos, second := Sweep.Integral(own, end, side), Sweep.PeriodAmounts(own, end, side) * 1_000_000_000.0;
            && IsPay(least, nanos - second, rate) && IsPay(most, nanos, rate)
            && (-2_147_483_648.0 <= least && most <= 2_147_483_647.0 ==>
                  least - 0.5 <= points as real <= most + 0.5)
  {
    hide TimePoints, DayActivities, DaySnapshots, Holders, OwnSnapshots, HasSnapshot, Rounds, IsPay, DayEnd;
    HoldersHaveSnapshots(DaySnapshots(w, date), a);
    LendingFigures(w, c, date, a);
    OwnInOrder(w, date, a);
    var own, end, rate := OwnSnapshots(w, date, a), DayEnd(date), RateFor(c, side);
    Sweep.SweepBounds(own, end, side);
    var swept, nanos := Sweep.Swept(own, end, side), Sweep.Integral(own, end, side);
    var second := Sweep.PeriodAmounts(own, end, side) * 1_000_000_000.0;
    var sweptNanos := swept * 1_000_000_000.0;
    least := Pay(nanos - second, rate);
    most := Pay(nanos, rate);
    var exact := Pay(sweptNanos, rate);
    TimePointsRound(swept, sweptNanos, rate, exact);
    PayBetween(least, exact, most, nanos - second, sweptNanos, nanos, rate);
    RoundsBetween(TimePoints(swept, rate), least, exact, most);
  }

  // ----- one position

  lemma {:induction false} InPeriodConcat(a: seq<Sweep.PositionSnapshot>, b: seq<Sweep.PositionSnapshot>, lo: int,
                                          hi: int)
    ensures InPeriod(a + b, lo, hi) == InPeriod(a, lo, hi) + InPeriod(b, lo, hi)
  {
    if a == [] {
      assert a + b == b;
    } else {
      assert (a + b)[1..] == a[1..] + b;
      InPeriodConcat(a[1..], b, lo, hi);
    }
  }

  /** Nothing of the user's on that day, which starts that many nanoseconds after day 0. */
  ghost predicate NoneOfDay(snapshots: seq<Sweep.PositionSnapshot>, date: int, a: string) {
    forall x :: x in snapshots && x.address == a ==>
      !(date * 86_400_000_000_000 <= x.timestamp < (date + 1) * 86_400_000_000_000)
  }

  lemma NothingKept(snapshots: seq<Sweep.PositionSnapshot>, date: int, a: string)
    requires NoneOfDay(snapshots, date, a)
    ensures Filter(InPeriod(snapshots, date * DAY_NANOS, (date + 1) * DAY_NANOS), OfAddress(a)) == []
  {
    FilterMembers(InPeriod(snapshots, date * DAY_NANOS, (date + 1) * DAY_NANOS), OfAddress(a));
    NoMembers(Filter(InPeriod(snapshots, date * DAY_NANOS, (date + 1) * DAY_NANOS), OfAddress(a)));
  }

  lemma OneOwnSnapshot(w: World, date: int, before: seq<Sweep.PositionSnapshot>, snap: Sweep.PositionSnapshot,
                       after: seq<Sweep.PositionSnapshot>)
    requires w.snapshots == before + [snap] + after
    requires NoneOfDay(before, date, snap.address) && NoneOfDay(after, date, snap.address)
    requires date * 86_400_000_000_000 <= snap.timestamp < (date + 1) * 86_400_000_000_000
    ensures OwnSnapshots(w, date, snap.address) == [snap] && snap in DaySnapshots(w, date)
  {
    hide Filter;
    var lo, hi, a := date * DAY_NANOS, (date + 1) * DAY_NANOS, snap.address;
    NothingKept(before, date, a);
    NothingKept(after, date, a);
    InPeriodConcat(before + [snap], after, lo, hi);
    InPeriodConcat(before, [snap], lo, hi);
    var own, none := InPeriod([snap], lo, hi), InPeriod([snap], lo, hi)[..0];
    assert [snap][1..] == [] && own == [snap];
    FilterConcat(InPeriod(before + [snap], lo, hi), InPeriod(after, lo, hi), OfAddress(a));
    FilterConcat(InPeriod(before, lo, hi), own, OfAddress(a));
    FilterOneMore(none, snap, OfAddress(a));
    FilterOne(snap, a);
    SortOne(snap);
  }

  lemma FilterOne(snap: Sweep.PositionSnapshot, a: string)
    requires snap.address == a
    ensures Filter([snap], OfAddress(a)) == [snap]
  {
    assert [snap][..0] == [];
  }

  lemma SortOne(snap: Sweep.PositionSnapshot)
    ensures Sort([snap], Sweep.Timestamp) == [snap]
  {
    assert [snap][..0] == [];
  }

  lemma HeldAlone(snap: Sweep.PositionSnapshot, end: int, seconds: nat, side: Sweep.Side)
    requires end - snap.timestamp == seconds * 1_000_000_000 && seconds > 0
    ensures var amount := if side.Supply? then snap.supplyUsd else snap.borrowUsd;
            && Sweep.Swept([snap], end, side) == amount * seconds as real
            && Sweep.Volume([snap], end, side) == amount
  {
    var amount, none := if side.Supply? then snap.supplyUsd else snap.borrowUsd, [snap][..0];
    assert none == [];
    assert Sweep.Latest([snap]) == map[snap.market := snap] by {
      assert Sweep.Latest(none) == map[];
    }
    var one: map<string, real> := map[];
    assert Sweep.Amounts(Sweep.Latest([snap]), side) == one[snap.market := amount];
    SumInsert(one, snap.market, amount);
    assert one - {snap.market} == one;
    assert Sweep.Held([snap], side) == amount;
    assert Sweep.NumSeconds(end - snap.timestamp) == seconds;
    assert Sweep.Swept(none, snap.timestamp, side) == 0.0 && Sweep.Volume(none, snap.timestamp, side) == 0.0;
    hide Sweep.Held, Sweep.NumSeconds, Sum;
    assert Sweep.Swept([snap], end, side) == 0.0 + Sweep.Weigh(amount, seconds);
  }

  /** A position held for a number of whole seconds until midnight is paid the daily rate for these seconds of
      the day's 86400, rounded, and counts as volume once: the amount for the full rate if held all day. */
  lemma OnePosition(w: World, c: Config, date: int, before: seq<Sweep.PositionSnapshot>, snap: Sweep.PositionSnapshot,
                    after: seq<Sweep.PositionSnapshot>, seconds: nat, supply: real, borrow: real)
    requires c.supplyPerUsdPerDay.Some? && c.borrowPerUsdPerDay.Some?
    requires w.snapshots == before + [snap] + after
    requires NoneOfDay(before, date, snap.address) && NoneOfDay(after, date, snap.address)
    requires 0 < seconds <= 86400
    requires snap.timestamp == (date + 1) * 86_400_000_000_000 - seconds * 1_000_000_000
    requires supply * 86400.0 == snap.supplyUsd * seconds as real * c.supplyPerUsdPerDay.value
    requires borrow * 86400.0 == snap.borrowUsd * seconds as real * c.borrowPerUsdPerDay.value
    ensures snap.address in DayActivities(w, c, date)
    ensures var act := DayActivities(w, c, date)[snap.address];
            && Rounds(act.supplyPoints, supply) && Rounds(act.borrowPoints, borrow)
            && act.supplyVolumeUsd == snap.supplyUsd && act.borrowVolumeUsd == snap.borrowUsd
  {
    hide DayActivities, DaySnapshots, OwnSnapshots, TimePoints, Rounds, Holders, HasSnapshot, NoneOfDay;
    OneOwnSnapshot(w, date, before, snap, after);
    var i :| 0 <= i < |DaySnapshots(w, date)| && DaySnapshots(w, date)[i] == snap;
    ShownOnDay(w, date, i, snap.address);
    LendingFigures(w, c, date, snap.address);
    HeldAlone(snap, DayEnd(date), seconds, Sweep.Supply);
    HeldAlone(snap, DayEnd(date), seconds, Sweep.Borrow);
    var own, end := [snap], DayEnd(date);
    PointsForSeconds(Sweep.Swept(own, end, Sweep.Supply), snap.supplyUsd, seconds, c.supplyPerUsdPerDay.value, supply);
    PointsForSeconds(Sweep.Swept(own, end, Sweep.Borrow), snap.borrowUsd, seconds, c.borrowPerUsdPerDay.value, borrow);
  }

  lemma ShownOnDay(w: World, date: int, i: nat, a: string)
    requires i < |DaySnapshots(w, date)| && DaySnapshots(w, date)[i].address == a
    ensures a in Holders(DaySnapshots(w, date))
  {
    hide DaySnapshots, Holders;
    HoldersHaveSnapshots(DaySnapshots(w, date), a);
  }

  lemma PointsForSeconds(dollarSeconds: real, amount: real, seconds: nat, rate: real, exact: real)
    requires dollarSeconds == amount * seconds as real && exact * 86400.0 == amount * seconds as real * rate
    ensures Rounds(TimePoints(dollarSeconds, rate), exact)
  {
    hide TimePoints, Rounds;
    TimesBillion(dollarSeconds, rate, exact);
    TimePointsRound(dollarSeconds, dollarSeconds * 1_000_000_000.0, rate, exact);
  }

  lemma TimesBillion(dollarSeconds: real, rate: real, exact: real)
    requires exact * 86400.0 == dollarSeconds * rate
    ensures IsPay(exact, dollarSeconds * 1_000_000_000.0, rate)
  {
    assert dollarSeconds * 1_000_000_000.0 * rate == dollarSeconds * rate * 1_000_000_000.0;
  }

  /** 1000 dollars supplied from five past midnight on, at 10 points a dollar and day: 9965 points. */
  lemma FivePastMidnight(w: World, c: Config, snap: Sweep.PositionSnapshot)
    requires c.supplyPerUsdPerDay == Some(10.0) && c.borrowPerUsdPerDay == Some(5.0)
    requires snap == Sweep.PositionSnapshot("a", "m", 1000.0, 0.0, 300_000_000_000) && w.snapshots == [snap]
    ensures "a" in DayActivities(w, c, 0)
    ensures DayActivities(w, c, 0)["a"].supplyPoints == 9965 && DayActivities(w, c, 0)["a"].borrowPoints == 0
  {
    hide DayActivities;
    assert w.snapshots == [] + [snap] + [];
    OnePosition(w, c, 0, [], snap, [], 86100, 861_000_000.0 / 86400.0, 0.0);
  }

  // ----- base points

  lemma FiguresAfterMultipliers(w: World, c: Config, date: int, a: string)
    requires a in AfterLending(w, c, date)
    ensures a in DayActivities(w, c, date)
    ensures var act, lent := DayActivities(w, c, date)[a], AfterLending(w, c, date)[a];
            && SameFigures(act, lent)
            && act.basePointsTotal == Boosted(Finalized(lent), c.multipliers).basePointsTotal
            && act.totalVolumeUsd == Finalized(lent).totalVolumeUsd
  {
    hide AfterLending, Share, BestMultiplier, ReferredUsers, EarnedBy;
    assert a in AfterMultipliers(w, c, date);
  }

  /** A multiplier of a list that the volume reaches, with the highest threshold of those. */
  ghost predicate Applies(m: PointsMultiplier, multipliers: seq<PointsMultiplier>, volume: real) {
    && m in multipliers && m.thresholdValue <= volume
    && forall n :: n in multipliers && n.thresholdValue <= volume ==> n.thresholdValue <= m.thresholdValue
  }

  /** The volume of an activity is that of its swaps, supplies and borrows, and its base points are those for
      the three and, if the volume reaches a threshold, the rounded share for a multiplier of the highest one. */
  lemma BasePointsAre(w: World, c: Config, date: int, a: string) returns (m: PointsMultiplier, share: real)
    requires a in DayActivities(w, c, date)
    ensures var act := DayActivities(w, c, date)[a];
            var own := act.swapPoints + act.supplyPoints + act.borrowPoints;
            && act.totalVolumeUsd == act.swapVolumeUsd + act.supplyVolumeUsd + act.borrowVolumeUsd
            && if forall n :: n in c.multipliers ==> n.thresholdValue > act.totalVolumeUsd
               then act.basePointsTotal == own
               else Applies(m, c.multipliers, act.totalVolumeUsd) && share == own as real * m.multiplier
                    && Rounds(act.basePointsTotal - own, share)
  {
    hide AfterLending, DayActivities, BestMultiplier, Share, Rounds;
    var act := DayActivities(w, c, date)[a];
    BestMultiplierIsHighest(c.multipliers, act.totalVolumeUsd);
    var best := BestMultiplier(c.multipliers, act.totalVolumeUsd);
    m, share := PointsMultiplier(0.0, 0.0), 0.0;
    if best.Some? {
      m := best.value;
      var own := act.swapPoints + act.supplyPoints + act.borrowPoints;
      share := own as real * m.multiplier;
      ShareRounds(own, m.multiplier, share);
    }
    if a in AfterLending(w, c, date) {
      FiguresAfterMultipliers(w, c, date, a);
    } else {
      OnlyReferrer(w, c, date, a);
      if best.Some? {
        ShareOfNothing(m.multiplier);
      }
    }
  }

  lemma OnlyReferrer(w: World, c: Config, date: int, a: string)
    requires a in DayActivities(w, c, date) && a !in AfterLending(w, c, date)
    ensures var act := DayActivities(w, c, date)[a];
            act == NewActivity(a).(referralPoints := act.referralPoints)
  {
    hide AfterLending, Share, BestMultiplier, ReferredUsers, EarnedBy, Referrers;
  }

  lemma ShareOfNothing(rate: real)
    ensures Share(0, rate) == 0
  {
    assert 0 as real * rate == 0.0;
  }

  // ----- referral points

  lemma {:induction false} EarnedIsTotal(acts: Activities, referrals: seq<UserReferral>, r: string,
                                         points: UserReferral -> real)
    requires forall x: UserReferral :: points(x) == ReferredPoints(acts, x, r)
    ensures EarnedBy(acts, ReferredUsers(referrals, r)) as real == Total(referrals, points)
  {
    if referrals != [] {
      var front, last := referrals[..|referrals| - 1], referrals[|referrals| - 1];
      EarnedIsTotal(acts, front, r, points);
      var users := ReferredUsers(front, r);
      assert (users + [last.userAddress])[..|users|] == users;
    }
  }

  /** What a referral brings r: the base points of a user that r referred and that has points of its own. */
  function ReferredPoints(acts: Activities, x: UserReferral, r: string): real {
    if x.referredByAddress == r && x.userAddress in acts
       && (acts[x.userAddress].swapPoints > 0 || acts[x.userAddress].supplyPoints > 0
           || acts[x.userAddress].borrowPoints > 0)
    then acts[x.userAddress].basePointsTotal as real else 0.0
  }

  /** Without referral points so far. */
  ghost predicate Unreferred(acts: Activities) {
    forall a :: a in acts ==> acts[a].referralPoints == 0
  }

  lemma NotReferredYet(w: World, c: Config, date: int)
    ensures Unreferred(AfterMultipliers(w, c, date))
  {
    hide SwapVolumes, Holders, TimePoints, Share, BestMultiplier, DaySnapshots, DayTotals, SwapPoints;
    assert Unreferred(AfterSwaps(w, c, date));
    assert Unreferred(AfterLending(w, c, date));
  }

  lemma SameReferredPoints(before: Activities, after: Activities, x: UserReferral, r: string)
    requires SameButReferral(before, after)
    ensures ReferredPoints(after, x, r) == ReferredPoints(before, x, r)
  {
  }

  /** A referrer's referral points are the percentage, rounded, of the base points of all the users referred
      that have swap, supply or borrow points, as the day's own activities show them; others have none. */
  lemma ReferralPointsAre(w: World, c: Config, date: int, r: string, points: UserReferral -> real)
    returns (exact: real)
    requires forall x: UserReferral :: points(x) == ReferredPoints(DayActivities(w, c, date), x, r)
    ensures Refers(w.referrals, r) ==> r in DayActivities(w, c, date)
    ensures exact == Total(w.referrals, points) * c.referralPercentage
    ensures r in DayActivities(w, c, date) ==>
              var earned := DayActivities(w, c, date)[r].referralPoints;
              if Refers(w.referrals, r) then Rounds(earned, exact) else earned == 0
  {
    hide AfterMultipliers, Refers, Round, ToI32OrZero, ReferredUsers, Rounds;
    var before := AfterMultipliers(w, c, date);
    NotReferredYet(w, c, date);
    ReferralsOnlyTouchReferralPoints(before, w.referrals, c.referralPercentage);
    forall x: UserReferral ensures points(x) == ReferredPoints(before, x, r) {
      SameReferredPoints(before, DayActivities(w, c, date), x, r);
    }
    EarnedIsTotal(before, w.referrals, r, points);
    ReferrersRefer(w.referrals, r);
    exact := Total(w.referrals, points) * c.referralPercentage;
    ShareRounds(EarnedBy(before, ReferredUsers(w.referrals, r)), c.referralPercentage, exact);
  }

  lemma ShareRounds(points: int, rate: real, exact: real)
    requires exact == points as real * rate
    ensures Rounds(Share(points, rate), exact)
  {
    hide Round, ToI32OrZero;
    RoundedInto32Bits(exact);
  }
}
