/** The time-weighted sweep over one user's position snapshots of one day.

    The source walks the distinct snapshot times of all markets together, keeps the latest
    amounts per market and adds up `aggregate amount x whole seconds` per period. The
    reference definition, Integral, never looks at periods: it adds up, snapshot by
    snapshot, `amount x time until that market's next snapshot (or day end)`. */
module LendingSweep {
  import opened Lists
  import opened Numbers
  import opened Sums
  import opened StableSort

  /** Timestamps count nanoseconds. */
  const NANOS: int := 1_000_000_000

  datatype PositionSnapshot = PositionSnapshot(
    address: string, market: string, supplyUsd: real, borrowUsd: real, timestamp: int)

  datatype Side = Supply | Borrow

  function Amount(snap: PositionSnapshot, side: Side): real {
    match side
    case Supply => snap.supplyUsd
    case Borrow => snap.borrowUsd
  }

  function Timestamp(snap: PositionSnapshot): int {
    snap.timestamp
  }

  /** chrono's `num_seconds`. */
  function NumSeconds(nanos: int): int {
    TruncDiv(nanos, NANOS)
  }

  // ----- what the sweep holds at a moment

  /** Per market, the snapshot that was written last. */
  ghost function Latest(s: seq<PositionSnapshot>): map<string, PositionSnapshot> {
    if s == [] then map[] else Latest(s[..|s| - 1])[s[|s| - 1].market := s[|s| - 1]]
  }

  ghost function Amounts(latest: map<string, PositionSnapshot>, side: Side): (m: map<string, real>)
    ensures m.Keys == latest.Keys
  {
    map k | k in latest :: Amount(latest[k], side)
  }

  /** The aggregate amount over all markets once the snapshots s have been applied. */
  ghost function Held(s: seq<PositionSnapshot>, side: Side): real {
    Sum(Amounts(Latest(s), side))
  }

  /** An amount held for a time. */
  function Weigh(amount: real, time: int): real {
    amount * time as real
  }

  // ----- what the sweep computes

  /** Dollar-seconds gathered by the sweep up to the moment end. */
  ghost function Swept(s: seq<PositionSnapshot>, end: int, side: Side): real {
    if s == [] then 0.0 else
      var last := s[|s| - 1].timestamp;
      Swept(s[..|s| - 1], last, side) + Weigh(Held(s, side), NumSeconds(end - last))
  }

  /** The un-weighted volume counter: each period of at least one second counts its aggregate once. */
  ghost function Volume(s: seq<PositionSnapshot>, end: int, side: Side): real {
    if s == [] then 0.0 else
      var last := s[|s| - 1].timestamp;
      Volume(s[..|s| - 1], last, side) + if NumSeconds(end - last) > 0 then Held(s, side) else 0.0
  }

  // ----- the reference definition

  /** When the market's next snapshot in s is due; end if there is none. */
  ghost function NextTime(market: string, s: seq<PositionSnapshot>, end: int): int {
    if s == [] then end
    else if s[0].market == market then s[0].timestamp
    else NextTime(market, s[1..], end)
  }

  /** Dollar-nanoseconds: every snapshot's amount, held until the market's next snapshot. */
  ghost function Integral(s: seq<PositionSnapshot>, end: int, side: Side): real {
    if s == [] then 0.0 else
      Weigh(Amount(s[0], side), NextTime(s[0].market, s[1..], end) - s[0].timestamp)
      + Integral(s[1..], end, side)
  }

  /** The sweep with exact durations, in dollar-nanoseconds. */
  ghost function ExactSwept(s: seq<PositionSnapshot>, end: int, side: Side): real {
    if s == [] then 0.0 else
      var last := s[|s| - 1].timestamp;
      ExactSwept(s[..|s| - 1], last, side) + Weigh(Held(s, side), end - last)
  }

  // ----- Latest, read from the front

  lemma {:induction false} LatestCons(s: seq<PositionSnapshot>)
    requires s != []
    ensures Latest(s) == map[s[0].market := s[0]] + Latest(s[1..])
  {
    if |s| > 1 {
      var n := |s| - 1;
      LatestCons(s[..n]);
      assert s[..n][1..] == s[1..][..n - 1];
      assert s[1..][n - 1] == s[n];
    }
  }

  lemma {:induction false} NextTimeOf(market: string, s: seq<PositionSnapshot>, e: int, f: int)
    ensures market in Latest(s) ==> NextTime(market, s, e) == NextTime(market, s, f)
    ensures market !in Latest(s) ==> NextTime(market, s, e) == e
  {
    if s != [] {
      LatestCons(s);
      NextTimeOf(market, s[1..], e, f);
    }
  }

  lemma HeldCons(s: seq<PositionSnapshot>, side: Side)
    requires s != []
    ensures Held(s, side) == Held(s[1..], side)
                             + if s[0].market in Latest(s[1..]) then 0.0 else Amount(s[0], side)
  {
    LatestCons(s);
    var rest := Amounts(Latest(s[1..]), side);
    if s[0].market in rest {
      assert Amounts(Latest(s), side) == rest;
    } else {
      assert Amounts(Latest(s), side) == rest[s[0].market := Amount(s[0], side)];
      SumInsert(rest, s[0].market, Amount(s[0], side));
      assert rest - {s[0].market} == rest;
    }
  }

  // ----- the sweep integrates

  lemma WeighLonger(a: real, x: int, y: int)
    ensures Weigh(a, x + y) == Weigh(a, x) + Weigh(a, y)
  {
    Distribute(x as real, y as real, a);
    assert (x + y) as real == x as real + y as real;
  }

  lemma WeighMore(a: real, b: real, x: int)
    ensures Weigh(a + b, x) == Weigh(a, x) + Weigh(b, x)
  {
    Distribute(a, b, x as real);
  }

  /** Moving the end of the day adds the held amount times the move. */
  lemma {:induction false} MoveEnd(s: seq<PositionSnapshot>, e: int, f: int, side: Side)
    ensures Integral(s, f, side) == Integral(s, e, side) + Weigh(Held(s, side), f - e)
  {
    if s == [] {
      assert Latest(s) == map[];
      assert Amounts(Latest(s), side) == map[];
    } else {
      hide Weigh;
      var a, m, t := Amount(s[0], side), s[0].market, s[0].timestamp;
      MoveEnd(s[1..], e, f, side);
      HeldCons(s, side);
      NextTimeOf(m, s[1..], e, f);
      NextTimeOf(m, s[1..], f, e);
      if m !in Latest(s[1..]) {
        WeighLonger(a, e - t, f - e);
        WeighMore(Held(s[1..], side), a, f - e);
      }
    }
  }

  /** A snapshot taken at the very end changes nothing. */
  lemma {:induction false} AppendAtEnd(s: seq<PositionSnapshot>, x: PositionSnapshot, side: Side)
    ensures Integral(s + [x], x.timestamp, side) == Integral(s, x.timestamp, side)
  {
    if s == [] {
      assert s + [x] == [x] && [x][1..] == [];
    } else {
      assert (s + [x])[1..] == s[1..] + [x];
      AppendAtEnd(s[1..], x, side);
      NextTimeAppend(s[0].market, s[1..], x);
    }
  }

  lemma {:induction false} NextTimeAppend(market: string, s: seq<PositionSnapshot>, x: PositionSnapshot)
    ensures NextTime(market, s + [x], x.timestamp) == NextTime(market, s, x.timestamp)
  {
    if s == [] {
      assert s + [x] == [x] && [x][1..] == [];
    } else {
      assert (s + [x])[1..] == s[1..] + [x];
      NextTimeAppend(market, s[1..], x);
    }
  }

  /** With exact durations, the multi-market sweep is the per-snapshot integral. */
  lemma {:induction false} ExactSweepIsIntegral(s: seq<PositionSnapshot>, end: int, side: Side)
    ensures ExactSwept(s, end, side) == Integral(s, end, side)
  {
    hide Weigh;
    if s != [] {
      var front, x := s[..|s| - 1], s[|s| - 1];
      assert s == front + [x];
      ExactSweepIsIntegral(front, x.timestamp, side);
      AppendAtEnd(front, x, side);
      MoveEnd(s, x.timestamp, end, side);
    }
  }

  // ----- whole-second timestamps: the sweep is exact

  ghost predicate WholeSeconds(s: seq<PositionSnapshot>, end: int) {
    end % NANOS == 0 && forall i :: 0 <= i < |s| ==> s[i].timestamp % NANOS == 0
  }

  lemma WholeSecondsExact(d: int)
    requires d % NANOS == 0
    ensures NumSeconds(d) * NANOS == d
  {
  }

  /** Dollar-seconds, counted in dollar-nanoseconds. */
  function InNanos(dollarSeconds: real): real {
    dollarSeconds * NANOS as real
  }

  lemma InNanosAdd(a: real, b: real)
    ensures InNanos(a + b) == InNanos(a) + InNanos(b)
  {
    Distribute(a, b, NANOS as real);
  }

  lemma InNanosWeigh(h: real, secs: int)
    ensures InNanos(Weigh(h, secs)) == Weigh(h, secs * NANOS)
  {
    assert (secs * NANOS) as real == secs as real * NANOS as real;
    assert h * (secs as real * NANOS as real) == h * secs as real * NANOS as real;
  }

  lemma SweepExactOnWholeSeconds(s: seq<PositionSnapshot>, end: int, side: Side)
    requires WholeSeconds(s, end)
    ensures InNanos(Swept(s, end, side)) == Integral(s, end, side)
  {
    ExactSweepIsIntegral(s, end, side);
    SweptWholeSeconds(s, end, side);
  }

  lemma {:induction false} SweptWholeSeconds(s: seq<PositionSnapshot>, end: int, side: Side)
    requires WholeSeconds(s, end)
    ensures InNanos(Swept(s, end, side)) == ExactSwept(s, end, side)
  {
    if s != [] {
      hide Weigh, InNanos;
      var n := |s| - 1;
      var last := s[n].timestamp;
      SweptWholeSeconds(s[..n], last, side);
      WholeSecondsExact(end - last);
      InNanosAdd(Swept(s[..n], last, side), Weigh(Held(s, side), NumSeconds(end - last)));
      InNanosWeigh(Held(s, side), NumSeconds(end - last));
    }
  }

  // ----- any timestamps: the sweep stays below the integral, by less than a second per period

  ghost predicate NonNegative(s: seq<PositionSnapshot>, side: Side) {
    forall i :: 0 <= i < |s| ==> Amount(s[i], side) >= 0.0
  }

  ghost predicate InOrder(s: seq<PositionSnapshot>, end: int) {
    && Sorted(s, Timestamp)
    && forall i :: 0 <= i < |s| ==> s[i].timestamp <= end
  }

  /** The aggregate amounts of the periods of positive length, added up. */
  ghost function PeriodAmounts(s: seq<PositionSnapshot>, end: int, side: Side): real {
    if s == [] then 0.0 else
      var last := s[|s| - 1].timestamp;
      PeriodAmounts(s[..|s| - 1], last, side) + if end > last then Held(s, side) else 0.0
  }

  lemma {:induction false} LatestNonNegative(s: seq<PositionSnapshot>, side: Side)
    requires NonNegative(s, side)
    ensures forall k :: k in Latest(s) ==> Amount(Latest(s)[k], side) >= 0.0
  {
    if s != [] {
      LatestNonNegative(s[..|s| - 1], side);
    }
  }

  lemma HeldNonNegative(s: seq<PositionSnapshot>, side: Side)
    requires NonNegative(s, side)
    ensures Held(s, side) >= 0.0
  {
    LatestNonNegative(s, side);
    SumNonNegative(Amounts(Latest(s), side));
  }

  /** w dollar-seconds are at most the exact dollar-nanoseconds, which are at most w + p. */
  ghost predicate Within(w: real, exact: real, p: real) {
    InNanos(w) <= exact <= InNanos(w) + InNanos(p)
  }

  lemma WithinAdd(w: real, exact: real, p: real, w1: real, exact1: real, p1: real)
    requires Within(w, exact, p) && Within(w1, exact1, p1)
    ensures Within(w + w1, exact + exact1, p + p1)
  {
    hide InNanos;
    InNanosAdd(w, w1);
    InNanosAdd(p, p1);
  }

  lemma WeighMono(h: real, s: int, t: int)
    requires h >= 0.0 && s <= t
    ensures Weigh(h, s) <= Weigh(h, t)
  {
    MulMono(s as real, t as real, h);
  }

  /** One period: truncating its length loses less than one second of the aggregate. */
  lemma PeriodWithin(h: real, nanos: int)
    requires h >= 0.0 && nanos >= 0
    ensures Within(Weigh(h, NumSeconds(nanos)), Weigh(h, nanos), if nanos > 0 then h else 0.0)
  {
    var secs := NumSeconds(nanos);
    InNanosWeigh(h, secs);
    WeighMono(h, secs * NANOS, nanos);
    if nanos > 0 {
      WeighMono(h, nanos, secs * NANOS + NANOS);
      WeighLonger(h, secs * NANOS, NANOS);
    }
  }

  lemma {:induction false} SweptWithin(s: seq<PositionSnapshot>, end: int, side: Side)
    requires NonNegative(s, side) && InOrder(s, end)
    ensures Within(Swept(s, end, side), ExactSwept(s, end, side), PeriodAmounts(s, end, side))
  {
    if s != [] {
      hide Weigh, Within;
      var n := |s| - 1;
      var last, h := s[n].timestamp, Held(s, side);
      assert InOrder(s[..n], last);
      SweptWithin(s[..n], last, side);
      HeldNonNegative(s, side);
      PeriodWithin(h, end - last);
      WithinAdd(Swept(s[..n], last, side), ExactSwept(s[..n], last, side), PeriodAmounts(s[..n], last, side),
                Weigh(h, NumSeconds(end - last)), Weigh(h, end - last), if end > last then h else 0.0);
    }
  }

  /** On any timestamps and non-negative amounts the sweep never exceeds the integral, and
      falls short of it by at most one second of each period's aggregate. */
  lemma SweepBounds(s: seq<PositionSnapshot>, end: int, side: Side)
    requires NonNegative(s, side) && InOrder(s, end)
    ensures Within(Swept(s, end, side), Integral(s, end, side), PeriodAmounts(s, end, side))
  {
    ExactSweepIsIntegral(s, end, side);
    SweptWithin(s, end, side);
  }

  // ----- the loop

  /** `dedup`: drop consecutive repetitions. */
  function Dedup(s: seq<int>): seq<int> {
    if |s| <= 1 then s
    else if s[0] == s[1] then Dedup(s[1..])
    else [s[0]] + Dedup(s[1..])
  }

  lemma {:induction false} DedupFacts(s: seq<int>)
    requires Sorted(s, Identity)
    ensures forall x :: x in Dedup(s) <==> x in s
    ensures Increasing(Dedup(s))
  {
    if |s| > 1 {
      assert Sorted(s[1..], Identity);
      DedupFacts(s[1..]);
      assert s == [s[0]] + s[1..];
      if s[0] != s[1] {
        var r := Dedup(s[1..]);
        forall j | 0 <= j < |r| ensures s[0] < r[j] {
          assert r[j] in r;
          var i :| 0 <= i < |s[1..]| && s[1..][i] == r[j];
          assert Identity(s[0]) <= Identity(s[1]) && Identity(s[1]) <= Identity(s[i + 1]);
        }
      }
    }
  }

  /** The distinct snapshot times in ascending order. */
  function Moments(s: seq<PositionSnapshot>): seq<int> {
    Dedup(Sort(seq(|s|, i requires 0 <= i < |s| => s[i].timestamp), Identity))
  }

  lemma MomentsFacts(s: seq<PositionSnapshot>)
    ensures Increasing(Moments(s))
    ensures forall t :: t in Moments(s) <==> exists i :: 0 <= i < |s| && s[i].timestamp == t
  {
    var all := seq(|s|, i requires 0 <= i < |s| => s[i].timestamp);
    SortFacts(all, Identity);
    SortMembers(all, Identity);
    DedupFacts(Sort(all, Identity));
    forall t ensures t in Moments(s) <==> exists i :: 0 <= i < |s| && s[i].timestamp == t {
      assert t in Moments(s) <==> t in all;
      if i :| 0 <= i < |s| && s[i].timestamp == t {
        assert all[i] == t;
      }
    }
  }

  /** The market_states map of the source stores the pair of amounts of the latest snapshot. */
  ghost predicate Tracks(states: map<string, (real, real)>, s: seq<PositionSnapshot>) {
    && states.Keys == Latest(s).Keys
    && forall k :: k in states ==> states[k] == (Latest(s)[k].supplyUsd, Latest(s)[k].borrowUsd)
  }

  /** The aggregate over all markets, the map's values being visited in any order. */
  method Aggregate(states: map<string, (real, real)>, ghost s: seq<PositionSnapshot>)
    returns (supply: real, borrow: real)
    requires Tracks(states, s)
    ensures supply == Held(s, Supply) && borrow == Held(s, Borrow)
  {
    supply, borrow := 0.0, 0.0;
    var rest := states;
    ghost var supplies, borrows := Amounts(Latest(s), Supply), Amounts(Latest(s), Borrow);
    while rest != map[]
      invariant supplies.Keys == borrows.Keys == rest.Keys
      invariant forall k :: k in rest ==> rest[k] == (supplies[k], borrows[k])
      invariant supply + Sum(supplies) == Held(s, Supply)
      invariant borrow + Sum(borrows) == Held(s, Borrow)
      decreases |rest|
    {
      var k :| k in rest;
      SumOut(supplies, k);
      SumOut(borrows, k);
      supply, borrow := supply + rest[k].0, borrow + rest[k].1;
      rest, supplies, borrows := rest - {k}, supplies - {k}, borrows - {k};
    }
  }

  /** Applying one more snapshot at the moment the sweep has reached adds nothing yet. */
  lemma ApplyOne(s: seq<PositionSnapshot>, idx: nat, side: Side)
    requires idx < |s|
    ensures Swept(s[..idx + 1], s[idx].timestamp, side) == Swept(s[..idx], s[idx].timestamp, side)
    ensures Volume(s[..idx + 1], s[idx].timestamp, side) == Volume(s[..idx], s[idx].timestamp, side)
    ensures Latest(s[..idx + 1]) == Latest(s[..idx])[s[idx].market := s[idx]]
  {
    assert s[..idx + 1][..idx] == s[..idx];
    assert NumSeconds(0) == 0;
  }

  /** Moving on to the end of the period adds the period. */
  lemma EndPeriod(s: seq<PositionSnapshot>, idx: nat, end: int, side: Side)
    requires 0 < idx <= |s|
    ensures var start := s[idx - 1].timestamp; var secs := NumSeconds(end - start);
            && Swept(s[..idx], end, side) == Swept(s[..idx], start, side) + Weigh(Held(s[..idx], side), secs)
            && Volume(s[..idx], end, side)
               == Volume(s[..idx], start, side) + if secs > 0 then Held(s[..idx], side) else 0.0
  {
    assert NumSeconds(0) == 0;
  }

  datatype Totals = Totals(supplySeconds: real, borrowSeconds: real, supplyVolume: real, borrowVolume: real)

  ghost function TotalsOf(s: seq<PositionSnapshot>, end: int): Totals {
    Totals(Swept(s, end, Supply), Swept(s, end, Borrow), Volume(s, end, Supply), Volume(s, end, Borrow))
  }

  /** `while snapshot_idx < len && snapshots[snapshot_idx].timestamp == period_start`: write the
      amounts of every snapshot taken at that moment, later ones over earlier ones. */
  method ApplySnapshots(s: seq<PositionSnapshot>, start: int, states: map<string, (real, real)>, idx: nat)
    returns (states': map<string, (real, real)>, idx': nat)
    requires idx <= |s| && Tracks(states, s[..idx])
    ensures idx <= idx' <= |s| && Tracks(states', s[..idx'])
    ensures forall k :: idx <= k < idx' ==> s[k].timestamp == start
    ensures idx' < |s| ==> s[idx'].timestamp != start
    ensures TotalsOf(s[..idx'], start) == TotalsOf(s[..idx], start)
  {
    hide Swept, Volume;
    states', idx' := states, idx;
    while idx' < |s| && s[idx'].timestamp == start
      invariant idx <= idx' <= |s| && Tracks(states', s[..idx'])
      invariant forall k :: idx <= k < idx' ==> s[k].timestamp == start
      invariant TotalsOf(s[..idx'], start) == TotalsOf(s[..idx], start)
    {
      ApplyOne(s, idx', Supply);
      ApplyOne(s, idx', Borrow);
      var snap := s[idx'];
      states' := states'[snap.market := (snap.supplyUsd, snap.borrowUsd)];
      idx' := idx' + 1;
    }
  }

  /** Every period applies at least one snapshot, and all that are due. */
  lemma NextPeriod(s: seq<PositionSnapshot>, timestamps: seq<int>, i: nat, first: nat, idx: nat, dayEnd: int)
    requires Sorted(s, Timestamp) && first <= idx <= |s| && i < |timestamps| - 1
    requires timestamps == Moments(s) + [dayEnd] && Increasing(timestamps)
    requires forall k :: 0 <= k < |s| ==> s[k].timestamp < dayEnd
    requires forall k :: 0 <= k < first ==> s[k].timestamp < timestamps[i]
    requires forall k :: first <= k < |s| ==> s[k].timestamp >= timestamps[i]
    requires forall k :: first <= k < idx ==> s[k].timestamp == timestamps[i]
    requires idx < |s| ==> s[idx].timestamp != timestamps[i]
    ensures first < idx && s[idx - 1].timestamp == timestamps[i]
    ensures forall k :: 0 <= k < idx ==> s[k].timestamp < timestamps[i + 1]
    ensures forall k :: idx <= k < |s| ==> s[k].timestamp >= timestamps[i + 1]
  {
    MomentsFacts(s);
    assert timestamps[i] in Moments(s);
    var j :| 0 <= j < |s| && s[j].timestamp == timestamps[i];
    assert first <= j;
    assert Timestamp(s[first]) <= Timestamp(s[j]);
    forall k | idx <= k < |s| ensures s[k].timestamp >= timestamps[i + 1] {
      assert Timestamp(s[idx]) <= Timestamp(s[k]);
      assert s[k].timestamp in Moments(s);
      var l :| 0 <= l < |Moments(s)| && Moments(s)[l] == s[k].timestamp;
      assert timestamps[l] > timestamps[i];
    }
  }

  lemma WeighZero(a: real)
    ensures Weigh(a, 0) == 0.0
  {
  }

  /** What is true when the sweep has reached timestamps[i] with the first idx snapshots applied. */
  ghost predicate Reached(s: seq<PositionSnapshot>, timestamps: seq<int>, i: nat,
                          states: map<string, (real, real)>, idx: nat, totals: Totals)
  {
    && i < |timestamps| && idx <= |s|
    && Tracks(states, s[..idx])
    && (forall k :: 0 <= k < idx ==> s[k].timestamp < timestamps[i])
    && (forall k :: idx <= k < |s| ==> s[k].timestamp >= timestamps[i])
    && totals == TotalsOf(s[..idx], timestamps[i])
  }

  ghost predicate Boundaries(s: seq<PositionSnapshot>, timestamps: seq<int>, dayEnd: int) {
    && Sorted(s, Timestamp)
    && (forall k :: 0 <= k < |s| ==> s[k].timestamp < dayEnd)
    && timestamps == Moments(s) + [dayEnd] && Increasing(timestamps)
  }

  /** One period of the loop: apply what is due, aggregate, weigh by the whole seconds. */
  method SweepPeriod(s: seq<PositionSnapshot>, timestamps: seq<int>, i: nat, ghost dayEnd: int,
                     states: map<string, (real, real)>, idx: nat, totals: Totals)
    returns (states': map<string, (real, real)>, idx': nat, totals': Totals)
    requires Boundaries(s, timestamps, dayEnd) && i < |timestamps| - 1
    requires Reached(s, timestamps, i, states, idx, totals)
    ensures Reached(s, timestamps, i + 1, states', idx', totals')
  {
    hide Weigh;
    var start, end := timestamps[i], timestamps[i + 1];
    states', idx' := ApplySnapshots(s, start, states, idx);
    NextPeriod(s, timestamps, i, idx, idx', dayEnd);
    var supply, borrow := Aggregate(states', s[..idx']);
    var secs := NumSeconds(end - start);
    EndPeriod(s, idx', end, Supply);
    EndPeriod(s, idx', end, Borrow);
    WeighZero(supply);
    WeighZero(borrow);
    totals' := totals;
    if secs > 0 {
      totals' := Totals(totals.supplySeconds + Weigh(supply, secs), totals.borrowSeconds + Weigh(borrow, secs),
                        totals.supplyVolume + supply, totals.borrowVolume + borrow);
    }
  }

  lemma FirstBoundary(s: seq<PositionSnapshot>, timestamps: seq<int>, dayEnd: int)
    requires Sorted(s, Timestamp)
    requires forall k :: 0 <= k < |s| ==> s[k].timestamp < dayEnd
    requires timestamps == Moments(s) + [dayEnd]
    ensures Boundaries(s, timestamps, dayEnd)
    ensures Reached(s, timestamps, 0, map[], 0, Totals(0.0, 0.0, 0.0, 0.0))
  {
    MomentsFacts(s);
    forall k | 0 <= k < |Moments(s)| ensures Moments(s)[k] < dayEnd {
      assert Moments(s)[k] in Moments(s);
    }
    forall k | 0 <= k < |s| ensures s[k].timestamp >= timestamps[0] {
      assert s[k].timestamp in Moments(s);
      var l :| 0 <= l < |Moments(s)| && Moments(s)[l] == s[k].timestamp;
    }
    assert s[..0] == [];
  }

  /** The snapshots of one user, swept as the source does it. `dayEnd` is after all of them
      because the query asks for the half-open day. */
  method SweepUser(snapshots: seq<PositionSnapshot>, dayEnd: int) returns (totals: Totals)
    requires forall i :: 0 <= i < |snapshots| ==> snapshots[i].timestamp < dayEnd
    ensures totals == TotalsOf(Sort(snapshots, Timestamp), dayEnd)
  {
    var s := Sort(snapshots, Timestamp);
    SortFacts(snapshots, Timestamp);
    SortMembers(snapshots, Timestamp);
    forall k | 0 <= k < |s| ensures s[k].timestamp < dayEnd {
      assert s[k] in snapshots;
    }
    var timestamps := Moments(s) + [dayEnd];
    FirstBoundary(s, timestamps, dayEnd);
    var states: map<string, (real, real)> := map[];
    var idx: nat, i: nat := 0, 0;
    totals := Totals(0.0, 0.0, 0.0, 0.0);
    while i < |timestamps| - 1
      invariant 0 <= i < |timestamps|
      invariant Reached(s, timestamps, i, states, idx, totals)
    {
      states, idx, totals := SweepPeriod(s, timestamps, i, dayEnd, states, idx, totals);
      i := i + 1;
    }
    assert timestamps[i] == dayEnd;
    assert s[..idx] == s;
  }
}
