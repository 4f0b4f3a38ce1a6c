/** The phases of one day's points run over the shared map of user activities. Every loop
    over a hash map picks its keys in an arbitrary order; the contracts say that the
    outcome is a function of the inputs alone. */
module DailyPoints {
  import opened Lists
  import opened Numbers
  import opened Options
  import opened StableSort
  import opened Sums
  import Sweep = LendingSweep

  datatype UserDailyActivity = UserDailyActivity(
    address: string, swapPoints: int, swapVolumeUsd: real, supplyPoints: int, supplyVolumeUsd: real,
    borrowPoints: int, borrowVolumeUsd: real, basePointsTotal: int, referralPoints: int, totalVolumeUsd: real)

  type Activities = map<string, UserDailyActivity>

  /** A Linx swap with what the price service says about its input token (None: the lookup failed). */
  datatype LinxSwap = LinxSwap(address: string, amountIn: real, decimals: Option<nat>, price: Option<real>)

  datatype PointsMultiplier = PointsMultiplier(thresholdValue: real, multiplier: real)

  datatype UserReferral = UserReferral(userAddress: string, referredByAddress: string)

  function NewActivity(address: string): UserDailyActivity {
    UserDailyActivity(address, 0, 0.0, 0, 0.0, 0, 0.0, 0, 0, 0.0)
  }

  /** `entry(address).or_insert_with(new)`. */
  function Entry(acts: Activities, address: string): UserDailyActivity {
    if address in acts then acts[address] else NewActivity(address)
  }

  /** Every activity carries the address it is filed under. */
  ghost predicate WellKeyed(acts: Activities) {
    forall a :: a in acts ==> acts[a].address == a
  }

  // ----- swaps

  /** The USD value of a swap; None if the token or its price is unknown. */
  function SwapUsd(swap: LinxSwap): Option<real> {
    if swap.decimals.None? || swap.price.None? then None
    else Some(swap.amountIn / Pow10(swap.decimals.value) * swap.price.value)
  }

  function SwapVolumes(swaps: seq<LinxSwap>): map<string, real> {
    if swaps == [] then map[] else
      var volumes, swap := SwapVolumes(swaps[..|swaps| - 1]), swaps[|swaps| - 1];
      match SwapUsd(swap)
      case None => volumes
      case Some(usd) => volumes[swap.address := (if swap.address in volumes then volumes[swap.address] else 0.0) + usd]
  }

  function SwapPoints(volume: real, pointsPerUsd: real): int {
    ToI32OrZero(Ceiling(volume * pointsPerUsd))
  }

  ghost function WithSwaps(acts: Activities, swaps: seq<LinxSwap>, pointsPerUsd: real): Activities {
    var volumes := SwapVolumes(swaps);
    map a | a in acts.Keys + volumes.Keys ::
      if a in volumes
      then Entry(acts, a).(swapPoints := SwapPoints(volumes[a], pointsPerUsd), swapVolumeUsd := volumes[a])
      else acts[a]
  }

  // ----- lending

  function OfAddress(address: string): Sweep.PositionSnapshot -> bool {
    (x: Sweep.PositionSnapshot) => x.address == address
  }

  /** One user's snapshots, in the order of the query result. */
  function SnapshotsOf(snapshots: seq<Sweep.PositionSnapshot>, address: string): seq<Sweep.PositionSnapshot> {
    Filter(snapshots, OfAddress(address))
  }

  function Holders(snapshots: seq<Sweep.PositionSnapshot>): set<string> {
    if snapshots == [] then {} else Holders(snapshots[..|snapshots| - 1]) + {snapshots[|snapshots| - 1].address}
  }

  const SECONDS_PER_DAY: int := 86400

  function ExactPoints(dollarSeconds: real, pointsPerUsdPerDay: real): real {
    dollarSeconds * (pointsPerUsdPerDay / SECONDS_PER_DAY as real)
  }

  function TimePoints(dollarSeconds: real, pointsPerUsdPerDay: real): int {
    ToI32OrZero(Round(ExactPoints(dollarSeconds, pointsPerUsdPerDay)))
  }

  /** What the sweep's totals do to an activity; points are only written for a non-zero total. */
  function Lent(activity: UserDailyActivity, t: Sweep.Totals, supplyRate: real, borrowRate: real): UserDailyActivity {
    activity.(
      supplyPoints := if t.supplySeconds != 0.0 then TimePoints(t.supplySeconds, supplyRate) else activity.supplyPoints,
      borrowPoints := if t.borrowSeconds != 0.0 then TimePoints(t.borrowSeconds, borrowRate) else activity.borrowPoints,
      supplyVolumeUsd := activity.supplyVolumeUsd + t.supplyVolume,
      borrowVolumeUsd := activity.borrowVolumeUsd + t.borrowVolume)
  }

  ghost function DayTotals(snapshots: seq<Sweep.PositionSnapshot>, address: string, dayEnd: int): Sweep.Totals {
    Sweep.TotalsOf(Sort(SnapshotsOf(snapshots, address), Sweep.Timestamp), dayEnd)
  }

  ghost function WithLending(acts: Activities, snapshots: seq<Sweep.PositionSnapshot>, dayEnd: int,
                             supplyRate: real, borrowRate: real): Activities
  {
    var holders := Holders(snapshots);
    map a | a in acts.Keys + holders ::
      if a in holders then Lent(Entry(acts, a), DayTotals(snapshots, a, dayEnd), supplyRate, borrowRate)
      else acts[a]
  }

  lemma SnapshotsOfWithin(snapshots: seq<Sweep.PositionSnapshot>, address: string)
    ensures forall x :: x in SnapshotsOf(snapshots, address) <==> x in snapshots && x.address == address
  {
    FilterMembers(snapshots, OfAddress(address));
  }

  lemma WithLendingAt(acts: Activities, snapshots: seq<Sweep.PositionSnapshot>, dayEnd: int, supplyRate: real,
                      borrowRate: real)
    ensures var after := WithLending(acts, snapshots, dayEnd, supplyRate, borrowRate);
            && after.Keys == acts.Keys + Holders(snapshots)
            && (forall a :: a in after && a in Holders(snapshots) ==>
                  after[a] == Lent(Entry(acts, a), DayTotals(snapshots, a, dayEnd), supplyRate, borrowRate))
            && (forall a :: a in after && a !in Holders(snapshots) ==> after[a] == acts[a])
  {
  }

  // ----- finalize and multipliers

  function Finalized(a: UserDailyActivity): UserDailyActivity {
    a.(basePointsTotal := a.swapPoints + a.supplyPoints + a.borrowPoints,
       totalVolumeUsd := a.swapVolumeUsd + a.supplyVolumeUsd + a.borrowVolumeUsd)
  }

  /** The scan keeps its first candidate unless a later one has a strictly higher threshold. */
  function BestMultiplier(multipliers: seq<PointsMultiplier>, volume: real): Option<PointsMultiplier> {
    if multipliers == [] then None else
      var best, m := BestMultiplier(multipliers[..|multipliers| - 1], volume), multipliers[|multipliers| - 1];
      if volume >= m.thresholdValue && (best.None? || m.thresholdValue > best.value.thresholdValue) then Some(m)
      else best
  }

  /** The multiplier applied is the first one among those with the highest threshold reached. */
  lemma {:induction false} BestMultiplierIsHighest(multipliers: seq<PointsMultiplier>, volume: real)
    ensures BestMultiplier(multipliers, volume).None?
            <==> forall m :: m in multipliers ==> m.thresholdValue > volume
    ensures BestMultiplier(multipliers, volume).Some? ==>
              var best := BestMultiplier(multipliers, volume).value;
              exists i :: 0 <= i < |multipliers| && multipliers[i] == best && best.thresholdValue <= volume
                && (forall j :: 0 <= j < |multipliers| && multipliers[j].thresholdValue <= volume ==>
                      multipliers[j].thresholdValue <= best.thresholdValue)
                && (forall j :: 0 <= j < i && multipliers[j].thresholdValue <= volume ==>
                      multipliers[j].thresholdValue < best.thresholdValue)
  {
    if multipliers != [] {
      var n := |multipliers| - 1;
      var front, m := multipliers[..n], multipliers[n];
      BestMultiplierIsHighest(front, volume);
      assert multipliers == front + [m];
      var best := BestMultiplier(multipliers, volume);
      if best.Some? {
        if volume >= m.thresholdValue && best == Some(m)
           && (BestMultiplier(front, volume).None? ||
               m.thresholdValue > BestMultiplier(front, volume).value.thresholdValue) {
          assert multipliers[n] == best.value;
        } else {
          var i :| 0 <= i < n && front[i] == best.value
                   && (forall j :: 0 <= j < i && front[j].thresholdValue <= volume ==>
                         front[j].thresholdValue < best.value.thresholdValue);
          assert multipliers[i] == best.value;
        }
      }
    }
  }

  /** A rate applied to a number of points, rounded. */
  function Share(points: int, rate: real): int {
    ToI32OrZero(Round(points as real * rate))
  }

  function Boosted(a: UserDailyActivity, multipliers: seq<PointsMultiplier>): UserDailyActivity {
    match BestMultiplier(multipliers, a.totalVolumeUsd)
    case None => a
    case Some(m) => a.(basePointsTotal := a.basePointsTotal + Share(a.basePointsTotal, m.multiplier))
  }

  // ----- referrals

  /** Only users with some activity of their own count for their referrer. */
  predicate HasActivity(a: UserDailyActivity) {
    a.swapPoints > 0 || a.supplyPoints > 0 || a.borrowPoints > 0
  }

  function Earned(acts: Activities, user: string): int {
    if user in acts && HasActivity(acts[user]) then acts[user].basePointsTotal else 0
  }

  function EarnedBy(acts: Activities, users: seq<string>): int {
    if users == [] then 0 else EarnedBy(acts, users[..|users| - 1]) + Earned(acts, users[|users| - 1])
  }

  function ReferredUsers(referrals: seq<UserReferral>, referrer: string): seq<string> {
    if referrals == [] then [] else
      var rest, last := ReferredUsers(referrals[..|referrals| - 1], referrer), referrals[|referrals| - 1];
      if last.referredByAddress == referrer then rest + [last.userAddress] else rest
  }

  function Referrers(referrals: seq<UserReferral>): set<string> {
    if referrals == [] then {} else
      Referrers(referrals[..|referrals| - 1]) + {referrals[|referrals| - 1].referredByAddress}
  }

  function Award(acts: Activities, users: seq<string>, percentage: real): int {
    Share(EarnedBy(acts, users), percentage)
  }

  function Credited(acts: Activities, referrals: seq<UserReferral>, referrer: string, percentage: real)
    : UserDailyActivity
  {
    var entry := Entry(acts, referrer);
    entry.(referralPoints := entry.referralPoints + Award(acts, ReferredUsers(referrals, referrer), percentage))
  }

  ghost function WithReferrals(acts: Activities, referrals: seq<UserReferral>, percentage: real): Activities {
    var referrers := Referrers(referrals);
    map a | a in acts.Keys + referrers ::
      if a in referrers then Credited(acts, referrals, a, percentage) else acts[a]
  }

  /** What the referral phase leaves alone. */
  ghost predicate SameButReferral(before: Activities, after: Activities) {
    && before.Keys <= after.Keys
    && (forall a :: a in before ==> after[a] == before[a].(referralPoints := after[a].referralPoints))
    && (forall a :: a in after && a !in before ==>
          after[a] == NewActivity(a).(referralPoints := after[a].referralPoints))
  }

  lemma ReferralsOnlyTouchReferralPoints(acts: Activities, referrals: seq<UserReferral>, percentage: real)
    ensures SameButReferral(acts, WithReferrals(acts, referrals, percentage))
  {
  }

  /** So the map can be read while it is being written: nobody's earnings move. */
  lemma {:induction false} EarnedStable(before: Activities, after: Activities, users: seq<string>)
    requires SameButReferral(before, after)
    ensures EarnedBy(after, users) == EarnedBy(before, users)
  {
    if users != [] {
      EarnedStable(before, after, users[..|users| - 1]);
      var u := users[|users| - 1];
      assert Earned(after, u) == Earned(before, u);
    }
  }

  // ----- how many referral points a day can produce

  ghost predicate ReferredOnce(referrals: seq<UserReferral>) {
    forall i, j :: 0 <= i < j < |referrals| ==> referrals[i].userAddress != referrals[j].userAddress
  }

  ghost function BasePoints(acts: Activities): map<string, real> {
    map a | a in acts :: acts[a].basePointsTotal as real
  }

  ghost predicate BaseNonNegative(acts: Activities) {
    forall a :: a in acts ==> acts[a].basePointsTotal >= 0
  }

  function EarnedByAll(acts: Activities, referrals: seq<UserReferral>): int {
    if referrals == [] then 0 else
      EarnedByAll(acts, referrals[..|referrals| - 1]) + Earned(acts, referrals[|referrals| - 1].userAddress)
  }

  /** The referred users' points, filed under their referrers one referral at a time. */
  ghost function EarnedPerReferrer(acts: Activities, referrals: seq<UserReferral>): map<string, real> {
    if referrals == [] then map[] else
      var before, last := EarnedPerReferrer(acts, referrals[..|referrals| - 1]), referrals[|referrals| - 1];
      var r := last.referredByAddress;
      before[r := (if r in before then before[r] else 0.0) + Earned(acts, last.userAddress) as real]
  }

  lemma {:induction false} NoReferrals(referrals: seq<UserReferral>, r: string)
    requires r !in Referrers(referrals)
    ensures ReferredUsers(referrals, r) == []
  {
    if referrals != [] {
      NoReferrals(referrals[..|referrals| - 1], r);
    }
  }

  lemma {:induction false} EarnedPerReferrerAt(acts: Activities, referrals: seq<UserReferral>, r: string)
    ensures r in EarnedPerReferrer(acts, referrals) <==> r in Referrers(referrals)
    ensures r in Referrers(referrals) ==>
              EarnedPerReferrer(acts, referrals)[r] == EarnedBy(acts, ReferredUsers(referrals, r)) as real
  {
    if referrals != [] {
      hide Earned;
      var n := |referrals| - 1;
      EarnedPerReferrerAt(acts, referrals[..n], r);
      if r !in Referrers(referrals[..n]) {
        NoReferrals(referrals[..n], r);
      }
      var users := ReferredUsers(referrals[..n], r);
      assert (users + [referrals[n].userAddress])[..|users|] == users;
    }
  }

  /** Grouping by referrer neither loses nor repeats a referred user's points. */
  lemma {:induction false} GroupingConserves(acts: Activities, referrals: seq<UserReferral>)
    ensures Sum(EarnedPerReferrer(acts, referrals)) == EarnedByAll(acts, referrals) as real
  {
    if referrals != [] {
      hide Earned, Sum;
      var n := |referrals| - 1;
      GroupingConserves(acts, referrals[..n]);
      SumBump(EarnedPerReferrer(acts, referrals[..n]), referrals[n].referredByAddress,
              Earned(acts, referrals[n].userAddress) as real);
    }
  }

  /** Users who are referred at most once earn their referrers no more than everyone's base points. */
  lemma {:induction false} ReferredAtMostBase(acts: Activities, referrals: seq<UserReferral>)
    requires ReferredOnce(referrals) && BaseNonNegative(acts)
    ensures EarnedByAll(acts, referrals) as real <= Sum(BasePoints(acts))
    decreases |referrals|
  {
    if referrals == [] {
      SumNonNegative(BasePoints(acts));
    } else {
      var n := |referrals| - 1;
      var u := referrals[n].userAddress;
      var fewer := acts - {u};
      ReferredAtMostBase(fewer, referrals[..n]);
      EarnedWithout(acts, referrals[..n], u);
      assert BasePoints(acts) - {u} == BasePoints(fewer);
      if u in acts {
        SumOut(BasePoints(acts), u);
      } else {
        assert fewer == acts;
      }
    }
  }

  lemma {:induction false} EarnedWithout(acts: Activities, referrals: seq<UserReferral>, u: string)
    requires forall i :: 0 <= i < |referrals| ==> referrals[i].userAddress != u
    ensures EarnedByAll(acts - {u}, referrals) == EarnedByAll(acts, referrals)
  {
    if referrals != [] {
      EarnedWithout(acts, referrals[..|referrals| - 1], u);
    }
  }

  ghost function Awards(acts: Activities, referrals: seq<UserReferral>, percentage: real): map<string, real> {
    map r | r in Referrers(referrals) :: Award(acts, ReferredUsers(referrals, r), percentage) as real
  }

  lemma {:induction false} EarnedByNonNegative(acts: Activities, users: seq<string>)
    requires BaseNonNegative(acts)
    ensures EarnedBy(acts, users) >= 0
  {
    if users != [] {
      EarnedByNonNegative(acts, users[..|users| - 1]);
    }
  }

  lemma RoundedBound(x: real)
    requires x >= 0.0
    ensures ToI32OrZero(Round(x)) as real <= x + 0.5
  {
  }

  lemma AwardBound(acts: Activities, users: seq<string>, percentage: real)
    requires BaseNonNegative(acts) && percentage >= 0.0
    ensures Award(acts, users, percentage) as real <= Times(percentage)(EarnedBy(acts, users) as real) + 0.5
  {
    hide EarnedBy, Earned, Round, ToI32OrZero;
    EarnedByNonNegative(acts, users);
    var x := EarnedBy(acts, users) as real * percentage;
    assert x >= 0.0 by {
      MulMono(0.0, EarnedBy(acts, users) as real, percentage);
    }
    RoundedBound(x);
  }

  lemma {:induction false} SumPlusHalf(a: map<string, real>, b: map<string, real>)
    requires a.Keys == b.Keys
    requires forall k :: k in a ==> b[k] == a[k] + 0.5
    ensures Sum(b) == Sum(a) + 0.5 * |a| as real
    decreases |a|
  {
    if a == map[] {
      assert b == map[];
    } else {
      var k :| k in a;
      SumOut(a, k);
      SumOut(b, k);
      SumPlusHalf(a - {k}, b - {k});
      assert (a - {k}).Keys == a.Keys - {k};
    }
  }

  lemma AwardsWithinShares(acts: Activities, referrals: seq<UserReferral>, percentage: real)
    requires BaseNonNegative(acts) && percentage >= 0.0
    ensures Sum(Awards(acts, referrals, percentage))
         <= Times(percentage)(Sum(EarnedPerReferrer(acts, referrals))) + 0.5 * |Referrers(referrals)| as real
  {
    hide Times, EarnedPerReferrer, Award;
    var earned, awards := EarnedPerReferrer(acts, referrals), Awards(acts, referrals, percentage);
    var shares := Mapped(earned, Times(percentage));
    var limits := map r | r in shares :: shares[r] + 0.5;
    forall r ensures r in earned <==> r in awards
      ensures r in awards ==> awards[r] <= limits[r]
    {
      EarnedPerReferrerAt(acts, referrals, r);
      AwardBound(acts, ReferredUsers(referrals, r), percentage);
    }
    SumMono(awards, limits);
    SumPlusHalf(shares, limits);
    SumScale(earned, percentage);
    assert shares.Keys == Referrers(referrals) && |shares| == |shares.Keys|;
  }

  ghost function ReferralPoints(acts: Activities): map<string, real> {
    map a | a in acts :: acts[a].referralPoints as real
  }

  /** The phase adds the awards to the referral points in the map, and nothing else. */
  lemma ReferralsRiseByAwards(acts: Activities, referrals: seq<UserReferral>, percentage: real)
    ensures Sum(ReferralPoints(WithReferrals(acts, referrals, percentage)))
         == Sum(ReferralPoints(acts)) + Sum(Awards(acts, referrals, percentage))
  {
    hide Sum, Award, ReferredUsers, Referrers;
    var before, awards := ReferralPoints(acts), Awards(acts, referrals, percentage);
    var after := ReferralPoints(WithReferrals(acts, referrals, percentage));
    var before' := map a | a in after :: if a in before then before[a] else 0.0;
    var awards' := map a | a in after :: if a in awards then awards[a] else 0.0;
    SumPad(before, before');
    SumPad(awards, awards');
    SumAdd(before', awards', after);
  }

  /** All referral points of a day together: at most the percentage of all base points, plus half
      a point of rounding per referrer. By so much at most they rise in the map. */
  lemma ReferralBudget(acts: Activities, referrals: seq<UserReferral>, percentage: real)
    requires ReferredOnce(referrals) && BaseNonNegative(acts) && percentage >= 0.0
    ensures Sum(Awards(acts, referrals, percentage))
         <= Sum(BasePoints(acts)) * percentage + 0.5 * |Referrers(referrals)| as real
    ensures Sum(ReferralPoints(WithReferrals(acts, referrals, percentage))) - Sum(ReferralPoints(acts))
         <= Sum(BasePoints(acts)) * percentage + 0.5 * |Referrers(referrals)| as real
  {
    hide EarnedByAll, EarnedPerReferrer, BasePoints, Awards, Sum, Referrers, ReferralPoints, WithReferrals;
    AwardsWithinShares(acts, referrals, percentage);
    GroupingConserves(acts, referrals);
    ReferredAtMostBase(acts, referrals);
    MulMono(EarnedByAll(acts, referrals) as real, Sum(BasePoints(acts)), percentage);
    ReferralsRiseByAwards(acts, referrals, percentage);
  }

  // ----- the phases as the source runs them

  /** A phase part way: the users in done have their new activity, the others their old one. */
  ghost predicate PartWay(before: Activities, goal: Activities, now: Activities, done: set<string>) {
    && done <= goal.Keys
    && now.Keys == before.Keys + done
    && forall a :: a in now ==> now[a] == if a in done then goal[a] else before[a]
  }

  lemma PartWayStart(before: Activities, goal: Activities)
    ensures PartWay(before, goal, before, {})
  {
  }

  lemma PartWayStep(before: Activities, goal: Activities, now: Activities, done: set<string>, a: string)
    requires PartWay(before, goal, now, done) && a in goal
    ensures PartWay(before, goal, now[a := goal[a]], done + {a})
    ensures a !in done ==> Entry(now, a) == Entry(before, a)
    ensures a !in done ==> (a in now <==> a in before)
  {
  }

  lemma PartWayEnd(before: Activities, goal: Activities, now: Activities, done: set<string>)
    requires PartWay(before, goal, now, done)
    requires goal.Keys == before.Keys + done
    requires forall a :: a in goal && a !in done ==> goal[a] == before[a]
    ensures now == goal
  {
  }

  /** The `user_activities` map that every phase of a day's run updates in place. */
  class ActivityTable {
    var activities: Activities

    constructor ()
      ensures activities == map[]
    {
      activities := map[];
    }

    /** Swap phase; None stands for a missing swap rule or rate, which skips the phase. */
    method CalculateSwapPoints(swaps: seq<LinxSwap>, pointsPerUsd: Option<real>)
      modifies this
      ensures activities == if pointsPerUsd.None? then old(activities)
                            else WithSwaps(old(activities), swaps, pointsPerUsd.value)
    {
      if pointsPerUsd.None? {
        return;
      }
      var rate := pointsPerUsd.value;
      var volumes: map<string, real> := map[];
      for i := 0 to |swaps|
        invariant volumes == SwapVolumes(swaps[..i])
      {
        assert swaps[..i + 1][..i] == swaps[..i];
        match SwapUsd(swaps[i]) {
          case None =>
          case Some(usd) =>
            var address := swaps[i].address;
            volumes := volumes[address := (if address in volumes then volumes[address] else 0.0) + usd];
        }
      }
      assert swaps[..|swaps|] == swaps;
      ghost var before, goal := activities, WithSwaps(activities, swaps, rate);
      var todo := volumes.Keys;
      PartWayStart(before, goal);
      while todo != {}
        invariant todo <= volumes.Keys && volumes.Keys <= goal.Keys
        invariant PartWay(before, goal, activities, volumes.Keys - todo)
      {
        hide PartWay, SwapPoints;
        var address :| address in todo;
        PartWayStep(before, goal, activities, volumes.Keys - todo, address);
        assert volumes.Keys - (todo - {address}) == volumes.Keys - todo + {address};
        todo := todo - {address};
        var activity := Entry(activities, address);
        activities := activities[address := activity.(swapPoints := SwapPoints(volumes[address], rate),
                                                      swapVolumeUsd := volumes[address])];
      }
      PartWayEnd(before, goal, activities, volumes.Keys - todo);
    }

    /** Supply and borrow phase, run only if both daily rates are configured. */
    method CalculateLendingPoints(snapshots: seq<Sweep.PositionSnapshot>, dayEnd: int,
                                  supplyRate: Option<real>, borrowRate: Option<real>)
      requires forall i :: 0 <= i < |snapshots| ==> snapshots[i].timestamp < dayEnd
      modifies this
      ensures activities == if supplyRate.None? || borrowRate.None? then old(activities)
                            else WithLending(old(activities), snapshots, dayEnd, supplyRate.value, borrowRate.value)
    {
      if supplyRate.None? || borrowRate.None? {
        return;
      }
      hide Lent, DayTotals, SnapshotsOf, Holders, WithLending, Entry;
      var groups := GroupByAddress(snapshots);
      ghost var before := activities;
      WithLendingAt(before, snapshots, dayEnd, supplyRate.value, borrowRate.value);
      ghost var goal := WithLending(before, snapshots, dayEnd, supplyRate.value, borrowRate.value);
      var todo := groups.Keys;
      PartWayStart(before, goal);
      while todo != {}
        invariant todo <= groups.Keys && groups.Keys <= goal.Keys
        invariant PartWay(before, goal, activities, groups.Keys - todo)
      {
        hide PartWay, SnapshotsOf, Holders;
        var address :| address in todo;
        PartWayStep(before, goal, activities, groups.Keys - todo, address);
        assert groups.Keys - (todo - {address}) == groups.Keys - todo + {address};
        todo := todo - {address};
        var totals := SweepHolder(groups[address], snapshots, address, dayEnd);
        activities := activities[address :=
          Lent(Entry(activities, address), totals, supplyRate.value, borrowRate.value)];
      }
      PartWayEnd(before, goal, activities, groups.Keys - todo);
    }

    method Finalize()
      modifies this
      ensures activities == map a | a in old(activities) :: Finalized(old(activities)[a])
    {
      var todo := activities.Keys;
      while todo != {}
        invariant todo <= activities.Keys == old(activities).Keys
        invariant forall a :: a in activities ==>
                    activities[a] == if a in todo then old(activities)[a] else Finalized(old(activities)[a])
      {
        var a :| a in todo;
        todo := todo - {a};
        activities := activities[a := Finalized(activities[a])];
      }
    }

    method ApplyMultipliers(multipliers: seq<PointsMultiplier>)
      modifies this
      ensures activities == map a | a in old(activities) :: Boosted(old(activities)[a], multipliers)
    {
      hide Share, BestMultiplier;
      var todo := activities.Keys;
      while todo != {}
        invariant todo <= activities.Keys == old(activities).Keys
        invariant forall a :: a in activities ==>
                    activities[a] == if a in todo then old(activities)[a] else Boosted(old(activities)[a], multipliers)
      {
        var a :| a in todo;
        todo := todo - {a};
        var activity := activities[a];
        var best := FindBest(multipliers, activity.totalVolumeUsd);
        if best.Some? {
          var extra := Share(activity.basePointsTotal, best.value.multiplier);
          activities := activities[a := activity.(basePointsTotal := activity.basePointsTotal + extra)];
        }
      }
    }

    /** Referral phase: reads the map it inserts into, in any order of referrers. */
    method CalculateReferralPoints(referrals: seq<UserReferral>, percentage: real)
      modifies this
      ensures activities == WithReferrals(old(activities), referrals, percentage)
    {
      hide EarnedBy, Share, Credited;
      var groups := GroupByReferrer(referrals);
      ghost var before, goal := activities, WithReferrals(activities, referrals, percentage);
      var todo := groups.Keys;
      PartWayStart(before, goal);
      while todo != {}
        invariant todo <= groups.Keys && groups.Keys <= goal.Keys
        invariant PartWay(before, goal, activities, groups.Keys - todo)
      {
        hide PartWay;
        var referrer :| referrer in todo;
        ghost var done := groups.Keys - todo;
        CreditReferrer(referrer, groups[referrer], referrals, percentage, before, done);
        assert groups.Keys - (todo - {referrer}) == done + {referrer};
        todo := todo - {referrer};
      }
      PartWayEnd(before, goal, activities, groups.Keys - todo);
    }

    /** One referrer; the referred users are read from the half-updated map. */
    method CreditReferrer(referrer: string, users: seq<string>, ghost referrals: seq<UserReferral>, percentage: real,
                          ghost before: Activities, ghost done: set<string>)
      requires PartWay(before, WithReferrals(before, referrals, percentage), activities, done)
      requires done <= Referrers(referrals) && referrer in Referrers(referrals) - done
      requires users == ReferredUsers(referrals, referrer)
      modifies this
      ensures PartWay(before, WithReferrals(before, referrals, percentage), activities, done + {referrer})
    {
      hide EarnedBy, Share;
      ghost var goal := WithReferrals(before, referrals, percentage);
      EarnedStable(before, activities, users);
      var points := TotalReferredPoints(activities, users);
      PartWayStep(before, goal, activities, done, referrer);
      var entry := Entry(activities, referrer);
      activities := activities[referrer := entry.(referralPoints := entry.referralPoints + Share(points, percentage))];
    }
  }

  /** The scan for the highest threshold reached. */
  method FindBest(multipliers: seq<PointsMultiplier>, volume: real) returns (best: Option<PointsMultiplier>)
    ensures best == BestMultiplier(multipliers, volume)
  {
    best := None;
    for i := 0 to |multipliers|
      invariant best == BestMultiplier(multipliers[..i], volume)
    {
      assert multipliers[..i + 1][..i] == multipliers[..i];
      if volume >= multipliers[i].thresholdValue {
        if best.None? || multipliers[i].thresholdValue > best.value.thresholdValue {
          best := Some(multipliers[i]);
        }
      }
    }
    assert multipliers[..|multipliers|] == multipliers;
  }

  method TotalReferredPoints(acts: Activities, users: seq<string>) returns (points: int)
    ensures points == EarnedBy(acts, users)
  {
    points := 0;
    for i := 0 to |users|
      invariant points == EarnedBy(acts, users[..i])
    {
      assert users[..i + 1][..i] == users[..i];
      if users[i] in acts {
        var referred := acts[users[i]];
        if HasActivity(referred) {
          points := points + referred.basePointsTotal;
        }
      }
    }
    assert users[..|users|] == users;
  }

  method SweepHolder(own: seq<Sweep.PositionSnapshot>, ghost snapshots: seq<Sweep.PositionSnapshot>,
                     ghost address: string, dayEnd: int)
    returns (totals: Sweep.Totals)
    requires own == SnapshotsOf(snapshots, address)
    requires forall i :: 0 <= i < |snapshots| ==> snapshots[i].timestamp < dayEnd
    ensures totals == DayTotals(snapshots, address, dayEnd)
  {
    SnapshotsOfWithin(snapshots, address);
    assert forall i :: 0 <= i < |own| ==> own[i] in snapshots;
    totals := Sweep.SweepUser(own, dayEnd);
  }

  method GroupByAddress(snapshots: seq<Sweep.PositionSnapshot>)
    returns (groups: map<string, seq<Sweep.PositionSnapshot>>)
    ensures groups.Keys == Holders(snapshots)
    ensures forall a :: a in groups ==> groups[a] == SnapshotsOf(snapshots, a)
  {
    groups := map[];
    for i := 0 to |snapshots|
      invariant groups.Keys == Holders(snapshots[..i])
      invariant forall a :: a in groups ==> groups[a] == SnapshotsOf(snapshots[..i], a)
      invariant forall a :: a !in groups ==> SnapshotsOf(snapshots[..i], a) == []
    {
      assert snapshots[..i + 1][..i] == snapshots[..i];
      var a := snapshots[i].address;
      groups := groups[a := (if a in groups then groups[a] else []) + [snapshots[i]]];
    }
    assert snapshots[..|snapshots|] == snapshots;
  }

  method GroupByReferrer(referrals: seq<UserReferral>) returns (groups: map<string, seq<string>>)
    ensures groups.Keys == Referrers(referrals)
    ensures forall r :: r in groups ==> groups[r] == ReferredUsers(referrals, r)
  {
    groups := map[];
    for i := 0 to |referrals|
      invariant groups.Keys == Referrers(referrals[..i])
      invariant forall r :: r in groups ==> groups[r] == ReferredUsers(referrals[..i], r)
      invariant forall r :: r !in groups ==> ReferredUsers(referrals[..i], r) == []
    {
      assert referrals[..i + 1][..i] == referrals[..i];
      var r := referrals[i].referredByAddress;
      groups := groups[r := (if r in groups then groups[r] else []) + [referrals[i].userAddress]];
    }
    assert referrals[..|referrals|] == referrals;
  }
}
