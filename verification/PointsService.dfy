/** The daily run over the repository: the activities of a day, phase by phase, and the writes. */
module PointsService {
  import opened DailyPoints
  import opened Options
  import opened PointsLedger
  import Sweep = LendingSweep

  // ----- the day's activities, phase by phase

  datatype Config = Config(
    pointsPerUsd: Option<real>, supplyPerUsdPerDay: Option<real>, borrowPerUsdPerDay: Option<real>,
    multipliers: seq<PointsMultiplier>, referralPercentage: real)

  datatype World = World(
    swapsOn: int -> seq<LinxSwap>, snapshots: seq<Sweep.PositionSnapshot>, referrals: seq<UserReferral>)

  const DAY_NANOS: int := SECONDS_PER_DAY * Sweep.NANOS

  /** `timestamp >= start AND timestamp < end`. */
  function InPeriod(snapshots: seq<Sweep.PositionSnapshot>, start: int, end: int): (r: seq<Sweep.PositionSnapshot>)
    ensures forall x :: x in r <==> x in snapshots && start <= x.timestamp < end
  {
    if snapshots == [] then [] else
      (if start <= snapshots[0].timestamp < end then [snapshots[0]] else []) + InPeriod(snapshots[1..], start, end)
  }

  ghost function AfterSwaps(w: World, c: Config, date: int): Activities {
    if c.pointsPerUsd.None? then map[] else WithSwaps(map[], w.swapsOn(date), c.pointsPerUsd.value)
  }

  ghost function DaySnapshots(w: World, date: int): seq<Sweep.PositionSnapshot> {
    InPeriod(w.snapshots, date * DAY_NANOS, (date + 1) * DAY_NANOS)
  }

  ghost function AfterLending(w: World, c: Config, date: int): Activities {
    if c.supplyPerUsdPerDay.None? || c.borrowPerUsdPerDay.None? then AfterSwaps(w, c, date)
    else WithLending(AfterSwaps(w, c, date), DaySnapshots(w, date), (date + 1) * DAY_NANOS,
                     c.supplyPerUsdPerDay.value, c.borrowPerUsdPerDay.value)
  }

  ghost function AfterMultipliers(w: World, c: Config, date: int): Activities {
    var acts := AfterLending(w, c, date);
    map a | a in acts :: Boosted(Finalized(acts[a]), c.multipliers)
  }

  ghost function DayActivities(w: World, c: Config, date: int): Activities {
    WithReferrals(AfterMultipliers(w, c, date), w.referrals, c.referralPercentage)
  }

  /** Through all phases, every activity stays filed under its own address. */
  lemma DayActivitiesWellKeyed(w: World, c: Config, date: int)
    ensures WellKeyed(DayActivities(w, c, date))
  {
    assert WellKeyed(AfterSwaps(w, c, date));
    assert WellKeyed(AfterLending(w, c, date));
    assert WellKeyed(AfterMultipliers(w, c, date));
  }

  /** Users with a swap whose value is known. */
  ghost predicate HasValuedSwap(swaps: seq<LinxSwap>, a: string) {
    exists i :: 0 <= i < |swaps| && swaps[i].address == a && SwapUsd(swaps[i]).Some?
  }

  lemma {:induction false} VolumesAreOfSwappers(swaps: seq<LinxSwap>, a: string)
    ensures a in SwapVolumes(swaps) <==> HasValuedSwap(swaps, a)
  {
    hide SwapUsd;
    if swaps != [] {
      var front, last := swaps[..|swaps| - 1], swaps[|swaps| - 1];
      VolumesAreOfSwappers(front, a);
      if HasValuedSwap(front, a) {
        var i :| 0 <= i < |front| && front[i].address == a && SwapUsd(front[i]).Some?;
        assert swaps[i] == front[i];
      }
      if HasValuedSwap(swaps, a) {
        var i :| 0 <= i < |swaps| && swaps[i].address == a && SwapUsd(swaps[i]).Some?;
        assert i < |front| ==> front[i] == swaps[i];
      }
    }
  }

  ghost predicate HasSnapshot(snapshots: seq<Sweep.PositionSnapshot>, a: string) {
    exists i :: 0 <= i < |snapshots| && snapshots[i].address == a
  }

  lemma {:induction false} HoldersHaveSnapshots(snapshots: seq<Sweep.PositionSnapshot>, a: string)
    ensures a in Holders(snapshots) <==> HasSnapshot(snapshots, a)
  {
    if snapshots != [] {
      var front := snapshots[..|snapshots| - 1];
      HoldersHaveSnapshots(front, a);
      if HasSnapshot(front, a) {
        var i :| 0 <= i < |front| && front[i].address == a;
        assert snapshots[i] == front[i];
      }
      if HasSnapshot(snapshots, a) {
        var i :| 0 <= i < |snapshots| && snapshots[i].address == a;
        assert i < |front| ==> front[i] == snapshots[i];
      }
    }
  }

  /** The referrer of somebody. */
  ghost predicate Refers(referrals: seq<UserReferral>, a: string) {
    exists i :: 0 <= i < |referrals| && referrals[i].referredByAddress == a
  }

  lemma {:induction false} ReferrersRefer(referrals: seq<UserReferral>, a: string)
    ensures a in Referrers(referrals) <==> Refers(referrals, a)
  {
    if referrals != [] {
      var front := referrals[..|referrals| - 1];
      ReferrersRefer(front, a);
      if Refers(front, a) {
        var i :| 0 <= i < |front| && front[i].referredByAddress == a;
        assert referrals[i] == front[i];
      }
      if Refers(referrals, a) {
        var i :| 0 <= i < |referrals| && referrals[i].referredByAddress == a;
        assert i < |front| ==> front[i] == referrals[i];
      }
    }
  }

  /** A day has an activity for exactly those who made a swap of known value, who have a snapshot of
      that day, as far as these are rewarded, and everybody who referred somebody. */
  lemma DayActivitiesAreOf(w: World, c: Config, date: int, a: string)
    ensures a in DayActivities(w, c, date) <==>
            || (c.pointsPerUsd.Some? && HasValuedSwap(w.swapsOn(date), a))
            || (c.supplyPerUsdPerDay.Some? && c.borrowPerUsdPerDay.Some? && HasSnapshot(DaySnapshots(w, date), a))
            || Refers(w.referrals, a)
  {
    hide HasValuedSwap, HasSnapshot, Refers, SwapVolumes, Holders, Referrers, DaySnapshots;
    VolumesAreOfSwappers(w.swapsOn(date), a);
    HoldersHaveSnapshots(DaySnapshots(w, date), a);
    ReferrersRefer(w.referrals, a);
  }

  // ----- the repository and the daily run

  datatype NewPointsSnapshot = NewPointsSnapshot(key: Key, row: Row)

  /** PostgreSQL refuses an upsert that would touch a row twice. */
  predicate DistinctKeys(rows: seq<NewPointsSnapshot>) {
    forall i, j :: 0 <= i < j < |rows| ==> rows[i].key != rows[j].key
  }

  function KeysOf(rows: seq<NewPointsSnapshot>): set<Key> {
    set i | 0 <= i < |rows| :: rows[i].key
  }

  function UpsertAll(t: Table, rows: seq<NewPointsSnapshot>): Table {
    if rows == [] then t else
      UpsertAll(t, rows[..|rows| - 1])[rows[|rows| - 1].key := rows[|rows| - 1].row]
  }

  lemma KeysOfSnoc(rows: seq<NewPointsSnapshot>, x: NewPointsSnapshot)
    ensures KeysOf(rows + [x]) == KeysOf(rows) + {x.key}
  {
    var all := rows + [x];
    forall k | k in KeysOf(rows) ensures k in KeysOf(all) {
      var i :| 0 <= i < |rows| && rows[i].key == k;
      assert all[i].key == k;
    }
    assert all[|rows|] == x;
  }

  /** The rows, each key once, are exactly those that Stored writes. */
  ghost predicate RowsOfDay(rows: seq<NewPointsSnapshot>, t: Table, acts: Activities, date: int, season: int) {
    && DistinctKeys(rows)
    && KeysOf(rows) == DayKeys(t, acts, date, season)
    && forall i :: 0 <= i < |rows| ==>
         rows[i].key in DayKeys(t, acts, date, season) && rows[i].row == DayRow(t, acts, rows[i].key)
  }

  lemma {:induction false} UpsertAllAt(t: Table, rows: seq<NewPointsSnapshot>, acts: Activities, k: Key)
    requires forall x :: x in rows ==> x.key.address in acts || PrevKey(x.key) in t
    requires forall x :: x in rows ==> x.row == DayRow(t, acts, x.key)
    ensures k in UpsertAll(t, rows) <==> k in t || k in KeysOf(rows)
    ensures k in KeysOf(rows) ==> (k.address in acts || PrevKey(k) in t) && UpsertAll(t, rows)[k] == DayRow(t, acts, k)
    ensures k in t && k !in KeysOf(rows) ==> UpsertAll(t, rows)[k] == t[k]
  {
    if rows != [] {
      hide DayRow;
      var n := |rows| - 1;
      UpsertAllAt(t, rows[..n], acts, k);
      assert rows == rows[..n] + [rows[n]];
      KeysOfSnoc(rows[..n], rows[n]);
    }
  }

  lemma UpsertIsStored(t: Table, rows: seq<NewPointsSnapshot>, acts: Activities, date: int, season: int)
    requires RowsOfDay(rows, t, acts, date, season)
    ensures UpsertAll(t, rows) == Stored(t, acts, date, season)
  {
    hide UpsertAll, Stored, DayRow;
    var up, st := UpsertAll(t, rows), Stored(t, acts, date, season);
    forall k: Key ensures k in up <==> k in st
      ensures k in up ==> up[k] == st[k]
    {
      UpsertAllAt(t, rows, acts, k);
      StoredAt(t, acts, date, season, k);
    }
  }

  lemma Fresh(rows: seq<NewPointsSnapshot>, x: NewPointsSnapshot)
    requires DistinctKeys(rows) && x.key !in KeysOf(rows)
    ensures DistinctKeys(rows + [x])
    ensures KeysOf(rows + [x]) == KeysOf(rows) + {x.key}
  {
    KeysOfSnoc(rows, x);
    forall i | 0 <= i < |rows| ensures rows[i].key != x.key {
      assert rows[i].key in KeysOf(rows);
    }
  }

  lemma KeysOfConcat(a: seq<NewPointsSnapshot>, b: seq<NewPointsSnapshot>)
    requires DistinctKeys(a) && DistinctKeys(b) && KeysOf(a) !! KeysOf(b)
    ensures DistinctKeys(a + b)
    ensures KeysOf(a + b) == KeysOf(a) + KeysOf(b)
  {
    var all := a + b;
    forall k | k in KeysOf(a) ensures k in KeysOf(all) {
      var i :| 0 <= i < |a| && a[i].key == k;
      assert all[i].key == k;
    }
    forall k | k in KeysOf(b) ensures k in KeysOf(all) {
      var i :| 0 <= i < |b| && b[i].key == k;
      assert all[|a| + i].key == k;
    }
    forall i, j | 0 <= i < |a| && 0 <= j < |b| ensures a[i].key != b[j].key {
      assert a[i].key in KeysOf(a) && b[j].key in KeysOf(b);
    }
  }

  method BuildActiveRows(t: Table, date: int, season: int, acts: Activities) returns (rows: seq<NewPointsSnapshot>)
    requires WellKeyed(acts)
    ensures |rows| == |acts| && DistinctKeys(rows)
    ensures KeysOf(rows) == set k | k in DayKeys(t, acts, date, season) && k.address in acts
    ensures forall x :: x in rows ==> x.key.address in acts && x.row == DayRow(t, acts, x.key)
  {
    rows := [];
    var todo := acts.Keys;
    while todo != {}
      invariant todo <= acts.Keys && |rows| + |todo| == |acts|
      invariant DistinctKeys(rows)
      invariant KeysOf(rows) == set a | a in acts.Keys - todo :: Key(a, date, season)
      invariant forall x :: x in rows ==> x.key.address in acts && x.row == DayRow(t, acts, x.key)
    {
      var a :| a in todo;
      var key := Key(acts[a].address, date, season);
      var row := NewPointsSnapshot(key, ActiveRow(t, acts[a], key));
      Fresh(rows, row);
      rows := rows + [row];
      assert acts.Keys - (todo - {a}) == acts.Keys - todo + {a};
      todo := todo - {a};
    }
    forall k | k in DayKeys(t, acts, date, season) && k.address in acts ensures k in KeysOf(rows) {
      assert k == Key(k.address, date, season);
    }
  }

  method BuildCarriedRows(t: Table, date: int, season: int, acts: Activities) returns (rows: seq<NewPointsSnapshot>)
    ensures DistinctKeys(rows)
    ensures KeysOf(rows) == set k | k in DayKeys(t, acts, date, season) && k.address !in acts
    ensures forall x :: x in rows ==> x.key.address !in acts && PrevKey(x.key) in t && x.row == DayRow(t, acts, x.key)
  {
    rows := [];
    var previous := set k | k in t && k.date == date - 1 && k.season == season;
    ghost var done: set<Key> := {};
    while previous != {}
      invariant previous !! done
      invariant previous + done == set k | k in t && k.date == date - 1 && k.season == season
      invariant DistinctKeys(rows)
      invariant KeysOf(rows) == set k | k in DayKeys(t, acts, date, season) && k.address !in acts && PrevKey(k) in done
      invariant forall x :: x in rows ==>
                  x.key.address !in acts && PrevKey(x.key) in t && x.row == DayRow(t, acts, x.key)
    {
      var p :| p in previous;
      ghost var done0 := done;
      previous, done := previous - {p}, done + {p};
      var key := Key(p.address, date, season);
      assert PrevKey(key) == p;
      assert forall k :: k in DayKeys(t, acts, date, season) && PrevKey(k) == p ==> k == key;
      if p.address !in acts {
        var row := NewPointsSnapshot(key, CarriedRow(t[p]));
        Fresh(rows, row);
        rows := rows + [row];
      }
    }
  }

  /** Phases 1 to 6 of `calculate_points_for_date`. */
  method BuildDay(w: World, c: Config, date: int) returns (acts: Activities)
    ensures acts == DayActivities(w, c, date)
  {
    hide WithSwaps, WithLending, WithReferrals, Boosted, Finalized;
    var day := new ActivityTable();
    day.CalculateSwapPoints(w.swapsOn(date), c.pointsPerUsd);
    var snapshots := InPeriod(w.snapshots, date * DAY_NANOS, (date + 1) * DAY_NANOS);
    assert forall i :: 0 <= i < |snapshots| ==> snapshots[i] in snapshots;
    day.CalculateLendingPoints(snapshots, (date + 1) * DAY_NANOS, c.supplyPerUsdPerDay, c.borrowPerUsdPerDay);
    ghost var lent := AfterLending(w, c, date);
    assert day.activities == lent;
    day.Finalize();
    day.ApplyMultipliers(c.multipliers);
    assert day.activities == AfterMultipliers(w, c, date);
    day.CalculateReferralPoints(w.referrals, c.referralPercentage);
    acts := day.activities;
  }

  class PointsRepository {
    var table: Table

    constructor ()
      ensures table == map[]
    {
      table := map[];
    }

    method InsertSnapshots(rows: seq<NewPointsSnapshot>) returns (ok: bool)
      modifies this
      ensures ok <==> DistinctKeys(rows)
      ensures table == if ok then UpsertAll(old(table), rows) else old(table)
    {
      ok := DistinctKeys(rows);
      if ok {
        for i := 0 to |rows|
          invariant table == UpsertAll(old(table), rows[..i])
        {
          assert rows[..i + 1][..i] == rows[..i];
          table := table[rows[i].key := rows[i].row];
        }
        assert rows[..|rows|] == rows;
      }
    }

    /** Rows for everyone active and for everyone carried forward; the carried-forward count
        that is logged is the difference of two lengths, which never underflows. */
    method BuildRows(date: int, season: int, acts: Activities)
      returns (rows: seq<NewPointsSnapshot>, carried: nat)
      requires WellKeyed(acts)
      ensures RowsOfDay(rows, table, acts, date, season)
      ensures |rows| == |acts| + carried
    {
      var active := BuildActiveRows(table, date, season, acts);
      var others := BuildCarriedRows(table, date, season, acts);
      rows, carried := active + others, |others|;
      KeysOfConcat(active, others);
      forall i | 0 <= i < |rows| ensures
        rows[i].key in DayKeys(table, acts, date, season) && rows[i].row == DayRow(table, acts, rows[i].key)
      {
        assert rows[i] in active || rows[i] in others;
        assert rows[i].key in KeysOf(rows);
      }
    }

    method StoreSnapshots(date: int, season: int, acts: Activities) returns (ok: bool)
      requires WellKeyed(acts)
      modifies this
      ensures ok && table == Stored(old(table), acts, date, season)
    {
      var rows, carried := BuildRows(date, season, acts);
      UpsertIsStored(table, rows, acts, date, season);
      ok := InsertSnapshots(rows);
    }

    method AwardBonusPoints(address: string, bonus: int, season: int, yesterday: int)
      modifies this
      ensures table == WithBonus(old(table), address, bonus, season, yesterday)
    {
      var own := set k | k in table && k.address == address && k.season == season;
      if own == {} {
        assert forall k :: k in table && k.address == address && k.season == season ==> k in own;
        table := table[Key(address, yesterday, season) := BonusRow(bonus)];
      } else {
        var k := LatestOf(own);
        assert HasRow(table, address, season);
        assert k == LatestKey(table, address, season);
        var row := table[k];
        table := table[k := row.(referralPoints := row.referralPoints + bonus, totalPoints := row.totalPoints + bonus)];
      }
    }

    /** `ORDER BY snapshot_date DESC LIMIT 1`. */
    method LatestOf(keys: set<Key>) returns (k: Key)
      requires keys != {}
      ensures k in keys && forall j :: j in keys ==> j.date <= k.date
    {
      k :| k in keys;
      var rest := keys - {k};
      while rest != {}
        invariant rest <= keys && k in keys
        invariant forall j :: j in keys && j !in rest ==> j.date <= k.date
      {
        var j :| j in rest;
        rest := rest - {j};
        if j.date > k.date {
          k := j;
        }
      }
    }

    /** One day, all phases; fails only without an active season. */
    method CalculatePointsForDate(w: World, c: Config, activeSeason: Option<int>, date: int) returns (ok: bool)
      modifies this
      ensures ok <==> activeSeason.Some?
      ensures table ==
              if ok then Stored(old(table), DayActivities(w, c, date), date, activeSeason.value) else old(table)
    {
      if activeSeason.None? {
        return false;
      }
      var acts := BuildDay(w, c, date);
      DayActivitiesWellKeyed(w, c, date);
      ok := StoreSnapshots(date, activeSeason.value, acts);
    }

    method CalculatePointsForRange(w: World, c: Config, activeSeason: Option<int>, start: int, end: int)
      returns (ok: bool)
      modifies this
      ensures ok <==> activeSeason.Some? || end < start
      ensures table ==
              if activeSeason.Some?
              then StoredRange(old(table), RangeActivities(w, c, start, end), start, activeSeason.value)
              else old(table)
    {
      hide StoredRange, RangeActivities, Stored;
      var current := start;
      ok := true;
      while current <= end
        invariant start <= current && (current <= end + 1 || current == start)
        invariant activeSeason.None? ==> current == start && table == old(table)
        invariant activeSeason.Some? ==>
                    StoredRange(table, RangeActivities(w, c, current, end), current, activeSeason.value)
                    == StoredRange(old(table), RangeActivities(w, c, start, end), start, activeSeason.value)
      {
        if activeSeason.Some? {
          RangeStep(table, w, c, current, end, activeSeason.value);
        }
        ok := CalculatePointsForDate(w, c, activeSeason, current);
        if !ok {
          return;
        }
        current := current + 1;
      }
      RangeDone(table, w, c, current, end, if activeSeason.Some? then activeSeason.value else 0);
    }
  }

  lemma RangeStep(t: Table, w: World, c: Config, current: int, end: int, season: int)
    requires current <= end
    ensures StoredRange(t, RangeActivities(w, c, current, end), current, season)
         == StoredRange(Stored(t, DayActivities(w, c, current), current, season),
                        RangeActivities(w, c, current + 1, end), current + 1, season)
  {
    hide Stored, DayActivities;
    var days := RangeActivities(w, c, current, end);
    assert days[0] == DayActivities(w, c, current);
    assert days[1..] == RangeActivities(w, c, current + 1, end);
  }

  lemma RangeDone(t: Table, w: World, c: Config, current: int, end: int, season: int)
    ensures end < current ==> StoredRange(t, RangeActivities(w, c, current, end), current, season) == t
  {
  }

  ghost function RangeActivities(w: World, c: Config, start: int, end: int): seq<Activities> {
    if end < start then [] else
      seq(end + 1 - start, i requires 0 <= i < end + 1 - start => DayActivities(w, c, start + i))
  }
}
