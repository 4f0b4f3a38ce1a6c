/** The stored points snapshots and everything that writes them: the daily run with its
    carry-forward, the upsert, and the sign-up bonus. The ledger law is that every row's
    total is yesterday's total (0 without a row) plus the row's base and referral points. */
module PointsLedger {
  import opened DailyPoints
  import opened Options

  /** The unique key of points_snapshots. Dates are day numbers. */
  datatype Key = Key(address: string, date: int, season: int)

  datatype Row = Row(
    swapPoints: int, supplyPoints: int, borrowPoints: int, basePointsTotal: int, multiplierType: Option<string>,
    multiplierValue: real, multiplierPoints: int, referralPoints: int, totalPoints: int, totalVolumeUsd: real)

  type Table = map<Key, Row>

  function PrevKey(k: Key): Key {
    Key(k.address, k.date - 1, k.season)
  }

  function PrevTotal(t: Table, k: Key): int {
    if PrevKey(k) in t then t[PrevKey(k)].totalPoints else 0
  }

  ghost predicate RowAddsUp(t: Table, k: Key)
    requires k in t
  {
    t[k].totalPoints == PrevTotal(t, k) + t[k].basePointsTotal + t[k].referralPoints
  }

  /** The ledger law. */
  ghost predicate AddsUp(t: Table) {
    forall k :: k in t ==> RowAddsUp(t, k)
  }

  // ----- one day's rows

  function ActiveRow(t: Table, activity: UserDailyActivity, k: Key): Row {
    Row(activity.swapPoints, activity.supplyPoints, activity.borrowPoints, activity.basePointsTotal, None, 0.0, 0,
        activity.referralPoints, PrevTotal(t, k) + activity.basePointsTotal + activity.referralPoints,
        activity.totalVolumeUsd)
  }

  function CarriedRow(prev: Row): Row {
    Row(0, 0, 0, 0, prev.multiplierType, prev.multiplierValue, 0, 0, prev.totalPoints, 0.0)
  }

  function NextKey(k: Key): Key {
    Key(k.address, k.date + 1, k.season)
  }

  /** The keys the run writes: everyone active today and everyone with a row on the day before. */
  function DayKeys(t: Table, acts: Activities, date: int, season: int): (keys: set<Key>)
    ensures forall k :: k in keys <==>
              k.date == date && k.season == season && (k.address in acts || PrevKey(k) in t)
  {
    var active := set a | a in acts :: Key(a, date, season);
    var next := set p | p in t :: NextKey(p);
    assert forall k: Key :: k.date == date && k.season == season && k.address in acts ==>
                 Key(k.address, date, season) in active;
    assert forall k: Key :: PrevKey(k) in t ==> NextKey(PrevKey(k)) in next && NextKey(PrevKey(k)) == k;
    set k | k in active + next && k.date == date && k.season == season && (k.address in acts || PrevKey(k) in t)
  }

  function DayRow(t: Table, acts: Activities, k: Key): Row
    requires k.address in acts || PrevKey(k) in t
  {
    if k.address in acts then ActiveRow(t, acts[k.address], k) else CarriedRow(t[PrevKey(k)])
  }

  /** The table after the run for one day: a fresh row for everyone active and everyone who had
      a row the day before; nothing else moves. */
  ghost function Stored(t: Table, acts: Activities, date: int, season: int): Table {
    t + map k | k in DayKeys(t, acts, date, season) :: DayRow(t, acts, k)
  }

  lemma StoredAt(t: Table, acts: Activities, date: int, season: int, k: Key)
    ensures k in Stored(t, acts, date, season)
            <==> k in t || (k.date == date && k.season == season && (k.address in acts || PrevKey(k) in t))
    ensures k in Stored(t, acts, date, season) ==>
              Stored(t, acts, date, season)[k]
              == if k.date == date && k.season == season && (k.address in acts || PrevKey(k) in t)
                 then DayRow(t, acts, k) else t[k]
  {
  }

  /** What the row of the day shows: for an active user the figures of the activity, and for a user of the
      day before with nothing new that user's total and multiplier. */
  lemma RowShows(t: Table, acts: Activities, date: int, season: int, a: string)
    requires a in acts || Key(a, date - 1, season) in t
    ensures var k, after := Key(a, date, season), Stored(t, acts, date, season);
            && k in after
            && (a in acts ==>
                  && after[k].swapPoints == acts[a].swapPoints && after[k].supplyPoints == acts[a].supplyPoints
                  && after[k].borrowPoints == acts[a].borrowPoints
                  && after[k].basePointsTotal == acts[a].basePointsTotal
                  && after[k].referralPoints == acts[a].referralPoints
                  && after[k].totalVolumeUsd == acts[a].totalVolumeUsd
                  && after[k].multiplierType == None && after[k].multiplierValue == 0.0)
            && (a !in acts ==>
                  after[k] == t[Key(a, date - 1, season)].(
                                swapPoints := 0, supplyPoints := 0, borrowPoints := 0, basePointsTotal := 0,
                                multiplierPoints := 0, referralPoints := 0, totalVolumeUsd := 0.0))
  {
    StoredAt(t, acts, date, season, Key(a, date, season));
  }

  // ----- the law over one day, a range of days, and any run

  /** The law, except possibly for rows of one day that still wait to be recomputed. */
  ghost predicate AddsUpBut(t: Table, date: int, season: int) {
    forall k :: k in t ==>
      RowAddsUp(t, k) || (k.date == date && k.season == season && PrevKey(k) in t)
  }

  lemma StoredPushesOn(t: Table, acts: Activities, date: int, season: int)
    requires AddsUpBut(t, date, season)
    ensures AddsUpBut(Stored(t, acts, date, season), date + 1, season)
  {
    var t' := Stored(t, acts, date, season);
    forall k | k in t'
      ensures RowAddsUp(t', k) || (k.date == date + 1 && k.season == season && PrevKey(k) in t')
    {
      StoredAt(t, acts, date, season, k);
      StoredAt(t, acts, date, season, PrevKey(k));
    }
  }

  ghost predicate NoRows(t: Table, date: int, season: int) {
    forall k :: k in t ==> !(k.date == date && k.season == season)
  }

  lemma StoredAddsNoOtherDay(t: Table, acts: Activities, date: int, season: int, other: int)
    requires NoRows(t, other, season) && other != date
    ensures NoRows(Stored(t, acts, date, season), other, season)
  {
    forall k | k in Stored(t, acts, date, season) ensures !(k.date == other && k.season == season) {
      StoredAt(t, acts, date, season, k);
    }
  }

  ghost function StoredRange(t: Table, days: seq<Activities>, date: int, season: int): Table
    decreases |days|
  {
    if days == [] then t else StoredRange(Stored(t, days[0], date, season), days[1..], date + 1, season)
  }

  /** The law, except possibly for rows of n days that still wait to be recomputed. */
  ghost predicate AddsUpBesides(t: Table, date: int, n: nat, season: int) {
    forall k :: k in t ==>
      RowAddsUp(t, k) || (date <= k.date < date + n && k.season == season && PrevKey(k) in t)
  }

  lemma StoredMends(t: Table, acts: Activities, date: int, n: nat, season: int)
    requires AddsUpBesides(t, date, n + 1, season) && NoRows(t, date + n + 1, season)
    ensures AddsUpBesides(Stored(t, acts, date, season), date + 1, n, season)
  {
    var t' := Stored(t, acts, date, season);
    forall k | k in t' ensures
      RowAddsUp(t', k) || (date + 1 <= k.date < date + 1 + n && k.season == season && PrevKey(k) in t')
    {
      StoredAt(t, acts, date, season, k);
      StoredAt(t, acts, date, season, PrevKey(k));
    }
  }

  /** Recomputing a range of days restores the law, whichever rows of the range do not add up, provided
      no row of the season follows the range directly. */
  lemma {:induction false} RangeKeepsLaw(t: Table, days: seq<Activities>, date: int, season: int)
    requires AddsUpBesides(t, date, |days|, season) && NoRows(t, date + |days|, season)
    ensures AddsUp(StoredRange(t, days, date, season))
    decreases |days|
  {
    if days != [] {
      StoredMends(t, days[0], date, |days| - 1, season);
      StoredAddsNoOtherDay(t, days[0], date, season, date + |days|);
      RangeKeepsLaw(Stored(t, days[0], date, season), days[1..], date + 1, season);
    }
  }

  /** So a re-run of one past day, whatever it broke, is mended by running the days from it on, or from
      the day after, up to the last one stored. */
  lemma RangeMendsRerun(t: Table, rerun: Activities, days: seq<Activities>, date: int, season: int)
    requires AddsUp(t) && NoRows(t, date + |days|, season)
    ensures |days| >= 2 ==> AddsUp(StoredRange(Stored(t, rerun, date, season), days, date, season))
    ensures |days| >= 2 ==> AddsUp(StoredRange(Stored(t, rerun, date, season), days[1..], date + 1, season))
  {
    hide Stored, StoredRange, NoRows;
    StoredPushesOn(t, rerun, date, season);
    if |days| >= 2 {
      StoredAddsNoOtherDay(t, rerun, date, season, date + |days|);
      RangeKeepsLaw(Stored(t, rerun, date, season), days, date, season);
      RangeKeepsLaw(Stored(t, rerun, date, season), days[1..], date + 1, season);
    }
  }

  /** The total an address has at key k once the day of k has been run, from the table before. */
  function TotalAfter(t: Table, acts: Activities, k: Key): int {
    if k.address in acts
    then PrevTotal(t, k) + acts[k.address].basePointsTotal + acts[k.address].referralPoints
    else if PrevKey(k) in t then t[PrevKey(k)].totalPoints
    else if k in t then t[k].totalPoints
    else 0
  }

  lemma StoredTotal(t: Table, acts: Activities, k: Key)
    ensures var t' := Stored(t, acts, k.date, k.season);
            TotalAfter(t, acts, k) == if k in t' then t'[k].totalPoints else 0
  {
    StoredAt(t, acts, k.date, k.season, k);
  }

  /** One day: on a table that obeys the law, the run keeps it exactly when everybody with a row on
      the next day gets the total that row was computed from. */
  lemma DayKeepsLaw(t: Table, acts: Activities, date: int, season: int)
    requires AddsUp(t)
    ensures AddsUp(Stored(t, acts, date, season)) <==>
            forall k :: k in t && k.date == date + 1 && k.season == season ==>
              TotalAfter(t, acts, PrevKey(k)) == PrevTotal(t, k)
    ensures NoRows(t, date + 1, season) ==> AddsUp(Stored(t, acts, date, season))
  {
    var t' := Stored(t, acts, date, season);
    StoredPushesOn(t, acts, date, season);
    forall k | k in t' ensures
      RowAddsUp(t', k) <==>
      (k in t && k.date == date + 1 && k.season == season ==> TotalAfter(t, acts, PrevKey(k)) == PrevTotal(t, k))
    {
      StoredAt(t, acts, date, season, k);
      StoredAt(t, acts, date, season, PrevKey(k));
      if k.date == date + 1 && k.season == season {
        StoredTotal(t, acts, PrevKey(k));
      }
    }
    forall k | k in t ensures k in t' {
      StoredAt(t, acts, date, season, k);
    }
  }

  /** Re-running a past day alone can break the law: the next day's row keeps the old total. */
  lemma RerunOfPastDayBreaksLaw()
    ensures exists t: Table, acts: Activities :: AddsUp(t) && !AddsUp(Stored(t, acts, 0, 1))
  {
    hide Stored;
    var blank := Row(0, 0, 0, 0, None, 0.0, 0, 0, 0, 0.0);
    var today, tomorrow := Key("a", 0, 1), Key("a", 1, 1);
    var t: Table := map[today := blank, tomorrow := blank];
    var acts: Activities := map["a" := NewActivity("a").(basePointsTotal := 1)];
    StoredAt(t, acts, 0, 1, today);
    StoredAt(t, acts, 0, 1, tomorrow);
    assert PrevKey(tomorrow) == today && PrevKey(today) !in t;
    assert AddsUp(t);
    assert !RowAddsUp(Stored(t, acts, 0, 1), tomorrow);
  }

  // ----- the bonus

  ghost predicate IsLatest(t: Table, k: Key) {
    k in t && forall j :: j in t && j.address == k.address && j.season == k.season ==> j.date <= k.date
  }

  ghost predicate HasRow(t: Table, address: string, season: int) {
    exists k :: k in t && k.address == address && k.season == season
  }

  lemma {:induction false} LatestExists(t: Table, address: string, season: int)
    requires HasRow(t, address, season)
    ensures exists k :: IsLatest(t, k) && k.address == address && k.season == season
    decreases |t|
  {
    var k :| k in t && k.address == address && k.season == season;
    var rest := t - {k};
    if HasRow(rest, address, season) {
      LatestExists(rest, address, season);
      var j :| IsLatest(rest, j) && j.address == address && j.season == season;
      var best := if j.date >= k.date then j else k;
      assert IsLatest(t, best);
    } else {
      assert forall i :: i in t && i != k ==> i in rest;
      assert IsLatest(t, k);
    }
  }

  ghost function LatestKey(t: Table, address: string, season: int): (k: Key)
    requires HasRow(t, address, season)
    ensures IsLatest(t, k) && k.address == address && k.season == season
  {
    LatestExists(t, address, season);
    var k :| IsLatest(t, k) && k.address == address && k.season == season;
    k
  }

  function BonusRow(bonus: int): Row {
    Row(0, 0, 0, 0, None, 0.0, 0, bonus, bonus, 0.0)
  }

  /** The bonus goes to the latest row of the season, or to a new row for yesterday. */
  ghost function WithBonus(t: Table, address: string, bonus: int, season: int, yesterday: int): Table {
    if HasRow(t, address, season) then
      var k := LatestKey(t, address, season);
      t[k := t[k].(referralPoints := t[k].referralPoints + bonus, totalPoints := t[k].totalPoints + bonus)]
    else
      t[Key(address, yesterday, season) := BonusRow(bonus)]
  }

  lemma BonusKeepsLaw(t: Table, address: string, bonus: int, season: int, yesterday: int)
    requires AddsUp(t)
    ensures AddsUp(WithBonus(t, address, bonus, season, yesterday))
  {
    var t' := WithBonus(t, address, bonus, season, yesterday);
    if HasRow(t, address, season) {
      var k := LatestKey(t, address, season);
      forall j | j in t' ensures RowAddsUp(t', j) {
        assert RowAddsUp(t, j);
        assert PrevKey(j) != k;
      }
    } else {
      forall j | j in t' ensures RowAddsUp(t', j) {
        if j in t {
          assert RowAddsUp(t, j);
          assert PrevKey(j) != Key(address, yesterday, season);
        } else {
          assert PrevKey(j) !in t;
        }
      }
    }
  }

  /** The row a bonus is written to. */
  ghost function BonusKey(t: Table, address: string, season: int, yesterday: int): Key {
    if HasRow(t, address, season) then LatestKey(t, address, season) else Key(address, yesterday, season)
  }

  /** After storing the day, the row is the same whatever bonus was written to it before. */
  ghost predicate Forgotten(t: Table, address: string, season: int, yesterday: int, acts: Activities, date: int) {
    var k := BonusKey(t, address, season, yesterday);
    forall a, b ::
      RowLater(t, address, a, season, yesterday, acts, date, k) ==
      RowLater(t, address, b, season, yesterday, acts, date, k)
  }

  /** A row after a bonus and then a store of the day. */
  ghost function RowLater(t: Table, address: string, bonus: int, season: int, yesterday: int, acts: Activities,
                          date: int, k: Key): Option<Row> {
    var after := Stored(WithBonus(t, address, bonus, season, yesterday), acts, date, season);
    if k in after then Some(after[k]) else None
  }

  lemma BonusOnlyAtKey(t: Table, address: string, bonus: int, season: int, yesterday: int)
    ensures var k, t' := BonusKey(t, address, season, yesterday), WithBonus(t, address, bonus, season, yesterday);
            && k in t' && t' == t[k := t'[k]] && PrevKey(k) != k
            && t'[k].totalPoints == bonus + if k in t then t[k].totalPoints else 0
  {
  }

  /** A bonus shows as referral points, and in the total, of the user's latest row; a user without one gets a row
      for yesterday with nothing else in it. */
  lemma BonusShows(t: Table, address: string, bonus: int, season: int, yesterday: int)
    ensures var k, after := BonusKey(t, address, season, yesterday), WithBonus(t, address, bonus, season, yesterday);
            && k in after && k.address == address && k.season == season && after.Keys == t.Keys + {k}
            && (forall j :: j in t && j != k ==> after[j] == t[j])
            && (if HasRow(t, address, season)
                then IsLatest(t, k) && after[k] == t[k].(referralPoints := t[k].referralPoints + bonus,
                                                         totalPoints := t[k].totalPoints + bonus)
                else k.date == yesterday && after[k] == Row(0, 0, 0, 0, None, 0.0, 0, bonus, bonus, 0.0))
  {
    if HasRow(t, address, season) {
      assert IsLatest(t, LatestKey(t, address, season));
    }
  }

  /** A bonus is lost, without a trace in its row, exactly if a store of the season's day writes that
      row: the row's own day is run again, or for the first time after a new row was made for it. */
  lemma BonusForgottenIff(t: Table, address: string, season: int, yesterday: int, acts: Activities, date: int)
    ensures Forgotten(t, address, season, yesterday, acts, date)
            <==> BonusKey(t, address, season, yesterday) in DayKeys(t, acts, date, season)
  {
    hide WithBonus, Stored, DayKeys, BonusKey;
    var k := BonusKey(t, address, season, yesterday);
    var written := k.date == date && k.season == season && (k.address in acts || PrevKey(k) in t);
    assert k in DayKeys(t, acts, date, season) <==> written;
    forall bonus ensures k in WithBonus(t, address, bonus, season, yesterday)
      ensures RowLater(t, address, bonus, season, yesterday, acts, date, k)
           == Some(if written then DayRow(t, acts, k) else WithBonus(t, address, bonus, season, yesterday)[k])
    {
      BonusOnlyAtKey(t, address, bonus, season, yesterday);
      StoredAt(WithBonus(t, address, bonus, season, yesterday), acts, date, season, k);
    }
    if !written {
      BonusOnlyAtKey(t, address, 0, season, yesterday);
      BonusOnlyAtKey(t, address, 1, season, yesterday);
      assert RowLater(t, address, 0, season, yesterday, acts, date, k)
          != RowLater(t, address, 1, season, yesterday, acts, date, k);
    }
  }

  // ----- any run

  datatype Step =
    | StoreDay(acts: Activities, date: int, season: int)
    | Bonus(address: string, amount: int, season: int, yesterday: int)

  /** A day is stored when the season has no row for the day after. */
  ghost predicate Allowed(t: Table, step: Step) {
    step.StoreDay? ==> NoRows(t, step.date + 1, step.season)
  }

  ghost function Apply(t: Table, step: Step): Table {
    match step
    case StoreDay(acts, date, season) => Stored(t, acts, date, season)
    case Bonus(address, amount, season, yesterday) => WithBonus(t, address, amount, season, yesterday)
  }

  ghost function Run(t: Table, steps: seq<Step>): Table
    decreases |steps|
  {
    if steps == [] then t else Run(Apply(t, steps[0]), steps[1..])
  }

  ghost predicate AllAllowed(t: Table, steps: seq<Step>)
    decreases |steps|
  {
    steps != [] ==> Allowed(t, steps[0]) && AllAllowed(Apply(t, steps[0]), steps[1..])
  }

  /** Every table reached from an empty one obeys the law. */
  lemma {:induction false} RunKeepsLaw(t: Table, steps: seq<Step>)
    requires AddsUp(t) && AllAllowed(t, steps)
    ensures AddsUp(Run(t, steps))
    decreases |steps|
  {
    if steps != [] {
      match steps[0] {
        case StoreDay(acts, date, season) =>
          DayKeepsLaw(t, acts, date, season);
        case Bonus(address, amount, season, yesterday) =>
          BonusKeepsLaw(t, address, amount, season, yesterday);
      }
      RunKeepsLaw(Apply(t, steps[0]), steps[1..]);
    }
  }

  /** A bonus on a new row for yesterday is gone once yesterday is run for the first time. */
  lemma SignUpBonusLost(bonus: int)
    ensures var acts: Activities := map["a" := NewActivity("a")];
            var steps, k := [Bonus("a", bonus, 1, 0), StoreDay(acts, 0, 1)], Key("a", 0, 1);
            && AllAllowed(map[], steps)
            && k in Run(map[], steps[..1]) && Run(map[], steps[..1])[k].totalPoints == bonus
            && k in Run(map[], steps) && Run(map[], steps)[k].totalPoints == 0
  {
    var acts: Activities := map["a" := NewActivity("a")];
    var steps, k := [Bonus("a", bonus, 1, 0), StoreDay(acts, 0, 1)], Key("a", 0, 1);
    var t := WithBonus(map[], "a", bonus, 1, 0);
    assert !HasRow(map[], "a", 1);
    assert t == map[k := BonusRow(bonus)];
    assert steps[..1][1..] == [] && steps[1..][1..] == [];
    assert Run(map[], steps[..1]) == t;
    StoredAt(t, acts, 0, 1, k);
    assert Run(map[], steps) == Run(t, steps[1..]) == Stored(t, acts, 0, 1);
    assert AllAllowed(t, steps[1..]);
  }

  // ----- what the law says about totals

  function Later(k: Key, days: nat): Key {
    Key(k.address, k.date + days, k.season)
  }

  ghost predicate Contiguous(t: Table, k: Key, days: nat) {
    Later(k, days) in t && (days > 0 ==> Contiguous(t, k, days - 1))
  }

  /** The base and referral points of the rows from k on. */
  ghost function Gained(t: Table, k: Key, days: nat): int
    requires Contiguous(t, k, days)
  {
    var last := t[Later(k, days)];
    last.basePointsTotal + last.referralPoints + if days == 0 then 0 else Gained(t, k, days - 1)
  }

  /** Over contiguous days the totals telescope. */
  lemma {:induction false} TotalsTelescope(t: Table, k: Key, days: nat)
    requires AddsUp(t) && Contiguous(t, k, days)
    ensures t[Later(k, days)].totalPoints == PrevTotal(t, k) + Gained(t, k, days)
  {
    assert RowAddsUp(t, Later(k, days));
    if days > 0 {
      TotalsTelescope(t, k, days - 1);
      assert PrevKey(Later(k, days)) == Later(k, days - 1);
    } else {
      assert Later(k, 0) == k;
    }
  }

  ghost predicate RowsNonNegative(t: Table) {
    forall k :: k in t ==> t[k].basePointsTotal >= 0 && t[k].referralPoints >= 0
  }

  ghost predicate GivesNonNegative(step: Step) {
    match step
    case StoreDay(acts, _, _) => forall a :: a in acts ==> acts[a].basePointsTotal >= 0 && acts[a].referralPoints >= 0
    case Bonus(_, amount, _, _) => amount >= 0
  }

  lemma {:induction false} RunKeepsNonNegative(t: Table, steps: seq<Step>)
    requires RowsNonNegative(t) && forall i :: 0 <= i < |steps| ==> GivesNonNegative(steps[i])
    ensures RowsNonNegative(Run(t, steps))
    decreases |steps|
  {
    if steps != [] {
      var t' := Apply(t, steps[0]);
      assert GivesNonNegative(steps[0]);
      forall k | k in t' ensures t'[k].basePointsTotal >= 0 && t'[k].referralPoints >= 0 {
        if steps[0].StoreDay? {
          StoredAt(t, steps[0].acts, steps[0].date, steps[0].season, k);
        }
      }
      RunKeepsNonNegative(t', steps[1..]);
    }
  }

  /** After any allowed run of non-negative days and bonuses nobody's total ever falls from a
      day to the next, and a total is never negative. */
  lemma TotalsNeverFall(steps: seq<Step>, k: Key)
    requires AllAllowed(map[], steps)
    requires forall i :: 0 <= i < |steps| ==> GivesNonNegative(steps[i])
    requires k in Run(map[], steps)
    ensures Run(map[], steps)[k].totalPoints >= PrevTotal(Run(map[], steps), k)
  {
    RunKeepsLaw(map[], steps);
    RunKeepsNonNegative(map[], steps);
    assert RowAddsUp(Run(map[], steps), k);
  }
}
