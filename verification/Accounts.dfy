/** What the daemon's ledger shows a user over any history of days stored, days lost, seasons and
    bonuses. The user's latest row of a season behaves like an account: points of a day are added to it
    if it is of the day before, and start it again, forfeiting what it held, if it is not. */
module Accounts {
  import opened Lists
  import opened PointsLedger
  import opened Scheduler
  import Points = DailyPoints

  /** The latest row: its day and its total. */
  datatype Account = NoAccount | Account(date: int, total: int)

  function Gain(acts: Points.Activities, address: string): int {
    if address in acts then acts[address].basePointsTotal + acts[address].referralPoints else 0
  }

  function After(acc: Account, s: Step, address: string, season: int): Account {
    if s.season != season then acc else
      match s
      case StoreDay(acts, date, _) =>
        if acc.Account? && acc.date == date - 1 then Account(date, acc.total + Gain(acts, address))
        else if address in acts then Account(date, Gain(acts, address))
        else acc
      case Bonus(to, amount, _, yesterday) =>
        if to != address then acc
        else if acc.NoAccount? then Account(yesterday, amount)
        else Account(acc.date, acc.total + amount)
  }

  function AccountOf(steps: seq<Step>, address: string, season: int): Account {
    if steps == [] then NoAccount else
      After(AccountOf(steps[..|steps| - 1], address, season), steps[|steps| - 1], address, season)
  }

  function Holding(acc: Account): int {
    if acc.NoAccount? then 0 else acc.total
  }

  // ----- the account is the user's latest row

  /** t has exactly this account as the user's latest row, and no other row if the account is of a day
      not stored yet. */
  ghost predicate Tells(t: Table, acc: Account, address: string, season: int, stored: seq<int>) {
    match acc
    case NoAccount => !HasRow(t, address, season)
    case Account(date, total) =>
      var latest := Key(address, date, season);
      && IsLatest(t, latest) && t[latest].totalPoints == total
      && ((forall d :: d in stored ==> d < date) ==> OnlyRow(t, latest))
  }

  ghost predicate OnlyRow(t: Table, only: Key) {
    forall k :: k in t && k.address == only.address && k.season == only.season ==> k == only
  }

  lemma StoreTells(t: Table, acc: Account, acts: Points.Activities, date: int, of: int, address: string, season: int,
                   stored: seq<int>)
    requires Tells(t, acc, address, season, stored)
    requires acc.Account? ==> acc.date <= date
    requires forall d :: d in stored ==> d < date
    ensures Tells(Stored(t, acts, date, of), After(acc, StoreDay(acts, date, of), address, season), address, season,
                  stored + [date])
  {
    hide Stored, DayKeys;
    var t' := Stored(t, acts, date, of);
    forall k
      ensures k in t' <==> k in t || (k.date == date && k.season == of && (k.address in acts || PrevKey(k) in t))
    {
      StoredAt(t, acts, date, of, k);
    }
    var own := Key(address, date, season);
    StoredAt(t, acts, date, of, own);
    if acc.Account? {
      StoredAt(t, acts, date, of, Key(address, acc.date, season));
    }
    var d: int := (stored + [date])[|stored|];
    assert date in stored + [date];
  }

  lemma BonusTells(t: Table, acc: Account, s: Step, address: string, season: int, stored: seq<int>)
    requires s.Bonus? && Tells(t, acc, address, season, stored)
    ensures Tells(Apply(t, s), After(acc, s, address, season), address, season, stored)
  {
    BonusOnlyAtKey(t, s.address, s.amount, s.season, s.yesterday);
    if s.address == address && s.season == season && acc.Account? {
      assert HasRow(t, address, season);
      assert LatestKey(t, address, season) == Key(address, acc.date, season);
    }
  }

  lemma {:induction false} RunOneMore(t: Table, steps: seq<Step>, s: Step)
    ensures Run(t, steps + [s]) == Apply(Run(t, steps), s)
    decreases |steps|
  {
    hide Apply;
    var all := steps + [s];
    if steps == [] {
      assert all[1..] == [];
    } else {
      assert all[1..] == steps[1..] + [s];
      RunOneMore(Apply(t, steps[0]), steps[1..], s);
    }
  }

  lemma IncreasingBelow(days: seq<int>, day: int)
    requires Increasing(days + [day])
    ensures Increasing(days) && forall d :: d in days ==> d < day
  {
    var all := days + [day];
    forall i, j | 0 <= i < j < |days| ensures days[i] < days[j] {
      assert all[i] < all[j];
    }
    forall i | 0 <= i < |days| ensures days[i] < day {
      assert all[i] < all[|days|];
    }
  }

  lemma ForwardFront(steps: seq<Step>)
    requires DatesForward(steps) && steps != []
    ensures var front := steps[..|steps| - 1];
            DatesForward(front) && (front != [] ==> DateOf(front[|front| - 1]) <= DateOf(steps[|steps| - 1]))
  {
    hide DateOf;
  }

  lemma AfterDate(acc: Account, s: Step, address: string, season: int)
    requires acc.Account? ==> acc.date <= DateOf(s)
    ensures var acc' := After(acc, s, address, season); acc'.Account? ==> acc'.date <= DateOf(s)
  {
  }

  lemma {:induction false} RunTells(steps: seq<Step>, address: string, season: int)
    requires DatesForward(steps) && Increasing(DaysStored(steps))
    ensures var acc := AccountOf(steps, address, season);
            && Tells(Run(map[], steps), acc, address, season, DaysStored(steps))
            && (acc.Account? ==> steps != [] && acc.date <= DateOf(steps[|steps| - 1]))
  {
    hide Tells, After, DatesForward, Increasing, DaysStored, Stored;
    if steps == [] {
      NothingTold(address, season);
    } else {
      var front, s := steps[..|steps| - 1], steps[|steps| - 1];
      assert steps == front + [s];
      DaysStoredOneMore(front, s);
      ForwardFront(steps);
      if s.StoreDay? {
        IncreasingBelow(DaysStored(front), s.date);
      }
      RunTells(front, address, season);
      RunOneMore(map[], front, s);
      var acc := AccountOf(front, address, season);
      AfterDate(acc, s, address, season);
      if s.StoreDay? {
        StoreTells(Run(map[], front), acc, s.acts, s.date, s.season, address, season, DaysStored(front));
      } else {
        BonusTells(Run(map[], front), acc, s, address, season, DaysStored(front));
      }
    }
  }

  lemma NothingTold(address: string, season: int)
    ensures Tells(Run(map[], []), NoAccount, address, season, DaysStored([]))
  {
  }

  /** The total of the latest row, 0 without one. */
  ghost function LatestTotal(t: Table, address: string, season: int): int {
    if HasRow(t, address, season) then t[LatestKey(t, address, season)].totalPoints else 0
  }

  lemma {:induction false} TicksForward(hs: seq<Happening>)
    requires DaysForward(hs)
    ensures ClockForward(TicksOf(hs))
    ensures forall i :: 0 <= i < |TicksOf(hs)| ==> hs != [] && TicksOf(hs)[i].day <= DayOf(hs[|hs| - 1])
  {
    if hs != [] {
      var front, h := hs[..|hs| - 1], hs[|hs| - 1];
      TicksForward(front);
      if front != [] {
        assert front[|front| - 1] == hs[|hs| - 2] && DayOf(hs[|hs| - 2]) <= DayOf(h);
      }
    }
  }

  lemma StepsInOrder(hs: seq<Happening>, target: Target)
    requires DaysForward(hs)
    ensures DatesForward(LedgerSteps(hs, target)) && Increasing(DaysStored(LedgerSteps(hs, target)))
  {
    hide LedgerSteps, DatesForward, Increasing, DaysStored, StoredDates;
    StepsForward(hs, target);
    TicksForward(hs);
    StoredIncreasing(TicksOf(hs), target);
    LedgerGetsStoredDates(hs, target);
  }

  /** Under the daemon, whatever fails and whatever is awarded, a user's latest row is the account. */
  lemma LatestRowIsAccount(hs: seq<Happening>, target: Target, address: string, season: int)
    requires DaysForward(hs)
    ensures var t, acc := Run(map[], LedgerSteps(hs, target)), AccountOf(LedgerSteps(hs, target), address, season);
            && (HasRow(t, address, season) <==> acc.Account?)
            && (acc.Account? ==> LatestKey(t, address, season) == Key(address, acc.date, season))
            && LatestTotal(t, address, season) == Holding(acc)
  {
    hide LedgerSteps, Run, AccountOf, DatesForward, Increasing, DaysStored;
    var steps := LedgerSteps(hs, target);
    StepsInOrder(hs, target);
    RunTells(steps, address, season);
    if AccountOf(steps, address, season).Account? {
      assert HasRow(Run(map[], steps), address, season);
    }
  }

  // ----- what it holds and what it forfeits

  /** What a step gives the user in the season. */
  function Credit(s: Step, address: string, season: int): int {
    if s.season != season then 0
    else if s.StoreDay? then Gain(s.acts, address)
    else if s.address == address then s.amount else 0
  }

  function Credited(steps: seq<Step>, address: string, season: int): int {
    if steps == [] then 0 else
      Credited(steps[..|steps| - 1], address, season) + Credit(steps[|steps| - 1], address, season)
  }

  /** Step i stores points for a user whose account is not of the day before. */
  predicate Restarts(steps: seq<Step>, i: nat, address: string, season: int)
    requires i < |steps|
  {
    var acc, s := AccountOf(steps[..i], address, season), steps[i];
    acc.Account? && s.StoreDay? && s.season == season && address in s.acts && acc.date != s.date - 1
  }

  /** A total is what was credited since the last restart: since step m, if the account restarts there
      and not later, and since the beginning if it never does. */
  lemma {:induction false} TotalIsSinceRestart(steps: seq<Step>, m: nat, address: string, season: int)
    requires m <= |steps| && (m == |steps| ==> m == 0) && (m > 0 ==> Restarts(steps, m, address, season))
    requires forall i :: m < i < |steps| ==> !Restarts(steps, i, address, season)
    ensures Holding(AccountOf(steps, address, season))
         == Credited(steps, address, season) - Credited(steps[..m], address, season)
  {
    if steps != [] {
      var n := |steps| - 1;
      var front := steps[..n];
      hide Credit, AccountOf, Credited;
      OneMore(steps, address, season);
      if m < n {
        assert front[..m] == steps[..m];
        forall i | 0 <= i < n ensures Restarts(front, i, address, season) <==> Restarts(steps, i, address, season) {
          assert front[..i] == steps[..i];
        }
        TotalIsSinceRestart(front, m, address, season);
      } else if m == 0 {
        NothingCredited(front, address, season);
      }
    }
  }

  lemma OneMore(steps: seq<Step>, address: string, season: int)
    requires steps != []
    ensures var n := |steps| - 1;
            var before, after := AccountOf(steps[..n], address, season), AccountOf(steps, address, season);
            && Credited(steps, address, season)
               == Credited(steps[..n], address, season) + Credit(steps[n], address, season)
            && Holding(after) == Credit(steps[n], address, season)
                                 + if Restarts(steps, n, address, season) then 0 else Holding(before)
  {
  }

  lemma NothingCredited(steps: seq<Step>, address: string, season: int)
    requires steps == []
    ensures Credited(steps, address, season) == 0 && AccountOf(steps, address, season) == NoAccount
  {
  }

  /** Nothing is forfeited: no restart finds points on the account. */
  predicate NoneForfeited(steps: seq<Step>, address: string, season: int) {
    forall i :: 0 <= i < |steps| && Restarts(steps, i, address, season) ==>
      Holding(AccountOf(steps[..i], address, season)) == 0
  }

  /** With non-negative points and bonuses a user has everything ever credited exactly if no restart
      finds points on the account. */
  lemma {:induction false} KeepsAllIff(steps: seq<Step>, address: string, season: int)
    requires forall i :: 0 <= i < |steps| ==> GivesNonNegative(steps[i])
    ensures 0 <= Holding(AccountOf(steps, address, season)) <= Credited(steps, address, season)
    ensures Holding(AccountOf(steps, address, season)) == Credited(steps, address, season)
            <==> NoneForfeited(steps, address, season)
  {
    if steps != [] {
      hide AccountOf, Credited, Restarts;
      var n := |steps| - 1;
      var front := steps[..n];
      KeepsAllIff(front, address, season);
      OneMore(steps, address, season);
      assert Credit(steps[n], address, season) >= 0 by {
        assert GivesNonNegative(steps[n]);
      }
      forall i | 0 <= i < n ensures front[..i] == steps[..i]
        ensures Restarts(front, i, address, season) <==> Restarts(steps, i, address, season)
      {
        RestartsInFront(steps, i, address, season);
      }
    }
  }

  lemma RestartsInFront(steps: seq<Step>, i: nat, address: string, season: int)
    requires i < |steps| - 1
    ensures var front := steps[..|steps| - 1];
            front[..i] == steps[..i] && (Restarts(front, i, address, season) <==> Restarts(steps, i, address, season))
  {
    hide AccountOf;
    assert steps[..|steps| - 1][..i] == steps[..i];
  }

  // ----- the sign-up bonus under the daemon

  predicate DueOn(ticks: seq<Tick>, target: Target, day: int) {
    exists t :: t in ticks && Due(t, target) && t.day == day
  }

  lemma {:induction false} TicksKept(before: seq<Happening>, rest: seq<Happening>, t: Tick)
    requires t in TicksOf(before)
    ensures t in TicksOf(before + rest)
  {
    if rest == [] {
      assert before + rest == before;
    } else {
      assert (before + rest)[..|before + rest| - 1] == before + rest[..|rest| - 1];
      TicksKept(before, rest[..|rest| - 1], t);
    }
  }

  /** No calculation starts on a day that had a due tick before. */
  lemma StartsLater(ticks: seq<Tick>, target: Target, t: Tick, day: int)
    requires ClockForward(ticks) && DueOn(ticks, target, day)
    requires forall i :: 0 <= i < |ticks| ==> ticks[i].day <= t.day
    requires Starts(Started(ticks, target), t, target)
    ensures t.day > day
  {
    hide Due, Started;
    LastStarted(ticks, target);
    var d :| d in ticks && Due(d, target) && d.day == day;
    var i :| 0 <= i < |ticks| && ticks[i] == d;
    assert ticks[i].day <= t.day;
  }

  /** A bonus to a user without a row survives the next store, unless that stores points of the user for
      another day than the day of the award. Those of the day before the award are stored afterwards only
      if the award came before the first due tick of its day. */
  lemma SignUpBonusLostIff(before: seq<Happening>, award: Happening, meanwhile: seq<Happening>, look: Happening,
                           target: Target)
    requires award.Awarded? && look.Looked? && look.season == award.season && look.tick.succeeds
    requires DaysForward(before + [award] + meanwhile + [look])
    requires !HasRow(Run(map[], LedgerSteps(before, target)), award.address, award.season)
    requires LedgerSteps(before + [award] + meanwhile, target) == LedgerSteps(before + [award], target)
    requires Starts(Started(TicksOf(before + [award] + meanwhile), target), look.tick, target)
    ensures LatestTotal(Run(map[], LedgerSteps(before + [award] + meanwhile + [look], target)),
                        award.address, award.season)
         == Gain(look.acts, award.address)
            + if award.address in look.acts && look.tick.day - 1 != award.day then 0 else award.amount
    ensures DueOn(TicksOf(before), target, award.day) ==> look.tick.day > award.day
  {
    hide Starts, Started, Run, LedgerSteps, AccountOf, DaysForward, TicksOf, DueOn;
    var address, season := award.address, award.season;
    var upTo := before + [award] + meanwhile;
    var all := upTo + [look];
    ForwardPrefixes(before, award, meanwhile, look);
    LatestRowIsAccount(before, target, address, season);
    LatestRowIsAccount(all, target, address, season);
    LedgerStepsOneMore(before, award, target);
    LedgerStepsOneMore(upTo, look, target);
    var first := LedgerSteps(before, target);
    var bonus := Bonus(address, award.amount, season, award.day - 1);
    var store := StoreDay(look.acts, look.tick.day - 1, season);
    assert LedgerSteps(all, target) == first + [bonus] + [store];
    AccountOneMore(first, bonus, address, season);
    AccountOneMore(first + [bonus], store, address, season);
    if DueOn(TicksOf(before), target, award.day) {
      DueOnKept(before, [award] + meanwhile, target, award.day);
      assert before + ([award] + meanwhile) == upTo;
      TicksForward(upTo);
      TicksForward(all);
      TicksOneMore(upTo, look);
      forall i | 0 <= i < |TicksOf(upTo)| ensures TicksOf(upTo)[i].day <= look.tick.day {
        assert TicksOf(all)[i] == TicksOf(upTo)[i];
      }
      StartsLater(TicksOf(upTo), target, look.tick, award.day);
    }
  }

  lemma DueOnKept(before: seq<Happening>, rest: seq<Happening>, target: Target, day: int)
    requires DueOn(TicksOf(before), target, day)
    ensures DueOn(TicksOf(before + rest), target, day)
  {
    hide TicksOf, Due;
    var t :| t in TicksOf(before) && Due(t, target) && t.day == day;
    TicksKept(before, rest, t);
  }

  lemma TicksOneMore(hs: seq<Happening>, h: Happening)
    ensures TicksOf(hs + [h]) == if h.Looked? then TicksOf(hs) + [h.tick] else TicksOf(hs)
  {
    assert (hs + [h])[..|hs|] == hs;
  }

  lemma AccountOneMore(steps: seq<Step>, s: Step, address: string, season: int)
    ensures AccountOf(steps + [s], address, season) == After(AccountOf(steps, address, season), s, address, season)
  {
    hide After;
    assert (steps + [s])[..|steps|] == steps;
  }

  lemma LedgerStepsOneMore(hs: seq<Happening>, h: Happening, target: Target)
    ensures LedgerSteps(hs + [h], target)
         == match h
            case Looked(tick, acts, season) =>
              if Starts(Started(TicksOf(hs), target), tick, target) && tick.succeeds
              then LedgerSteps(hs, target) + [StoreDay(acts, tick.day - 1, season)] else LedgerSteps(hs, target)
            case Awarded(day, address, amount, season) =>
              LedgerSteps(hs, target) + [Bonus(address, amount, season, day - 1)]
  {
    hide Starts, Started, TicksOf;
    assert (hs + [h])[..|hs|] == hs;
  }

  lemma ForwardPrefixes(before: seq<Happening>, award: Happening, meanwhile: seq<Happening>, look: Happening)
    requires DaysForward(before + [award] + meanwhile + [look])
    ensures DaysForward(before) && DaysForward(before + [award] + meanwhile)
  {
    hide DayOf;
    var all := before + [award] + meanwhile + [look];
    assert before == all[..|before|] && before + [award] + meanwhile == all[..|all| - 1];
  }

  // ----- when does everybody keep everything?

  /** Bonuses go to users with a row, or are awarded when the day before is already stored. */
  ghost predicate Settled(steps: seq<Step>, season: int) {
    steps == [] ||
    var front, s := steps[..|steps| - 1], steps[|steps| - 1];
    && Settled(front, season)
    && (s.Bonus? ==> var dates := DaysStored(front);
                     || AccountOf(front, s.address, season).Account?
                     || (dates != [] && dates[|dates| - 1] == s.yesterday))
  }

  ghost predicate OfSeason(steps: seq<Step>, season: int) {
    forall i :: 0 <= i < |steps| ==> steps[i].season == season
  }

  /** Without holes every account is of the last stored day, and holds everything. */
  lemma {:induction false} NoHolesKeepAll(steps: seq<Step>, address: string, season: int)
    requires OfSeason(steps, season) && Settled(steps, season) && NoHoles(DaysStored(steps))
    ensures var acc, dates := AccountOf(steps, address, season), DaysStored(steps);
            && Holding(acc) == Credited(steps, address, season)
            && (acc.Account? ==> dates != [] && acc.date == dates[|dates| - 1])
  {
    hide NoHoles;
    if steps != [] {
      var front, s := steps[..|steps| - 1], steps[|steps| - 1];
      assert steps == front + [s];
      DaysStoredOneMore(front, s);
      if s.StoreDay? {
        NoHolesFront(DaysStored(steps));
        assert DaysStored(steps)[..|DaysStored(front)|] == DaysStored(front);
      }
      assert s.season == season;
      NoHolesKeepAll(front, address, season);
    }
  }

  /** So an account restarts, in a season with settled bonuses, only after a hole. */
  lemma RestartNeedsHole(steps: seq<Step>, address: string, season: int)
    requires steps != [] && OfSeason(steps, season) && Settled(steps, season)
    requires Restarts(steps, |steps| - 1, address, season)
    ensures !NoHoles(DaysStored(steps))
  {
    hide NoHoles, DaysStored;
    var front, s := steps[..|steps| - 1], steps[|steps| - 1];
    assert steps == front + [s];
    DaysStoredOneMore(front, s);
    var dates := DaysStored(front);
    NoHolesFront(DaysStored(steps));
    assert DaysStored(steps)[..|dates|] == dates;
    if NoHoles(dates) {
      NoHolesKeepAll(front, address, season);
    }
  }

  /** The day's points of one user who earns one every day. */
  function OnePoint(): Points.Activities {
    map["a" := Points.NewActivity("a").(basePointsTotal := 1)]
  }

  /** The history in which the daemon finds one point for this user whenever it looks. */
  function PointADay(ticks: seq<Tick>, season: int): (hs: seq<Happening>)
    ensures |hs| == |ticks| && forall i :: 0 <= i < |ticks| ==> hs[i] == Looked(ticks[i], OnePoint(), season)
  {
    seq(|ticks|, i requires 0 <= i < |ticks| => Looked(ticks[i], OnePoint(), season))
  }

  lemma {:induction false} PointADaySteps(ticks: seq<Tick>, season: int, target: Target)
    ensures var hs := PointADay(ticks, season);
            TicksOf(hs) == ticks && OnlyPoints(LedgerSteps(hs, target), season)
  {
    hide Starts, Started, OnePoint;
    if ticks != [] {
      var n := |ticks| - 1;
      PointADaySteps(ticks[..n], season, target);
      assert PointADay(ticks, season)[..n] == PointADay(ticks[..n], season);
    }
  }

  /** Every step stores the one point. */
  ghost predicate OnlyPoints(steps: seq<Step>, season: int) {
    forall i :: 0 <= i < |steps| ==> IsPoint(steps[i], season)
  }

  ghost predicate IsPoint(s: Step, season: int) {
    s == StoreDay(OnePoint(), DateOf(s), season)
  }

  lemma {:induction false} OnlyPointsSettled(steps: seq<Step>, season: int)
    requires OnlyPoints(steps, season)
    ensures Settled(steps, season) && OfSeason(steps, season)
  {
    hide OnePoint;
    if steps != [] {
      var n := |steps| - 1;
      assert IsPoint(steps[n], season);
      OnlyPointsSettled(steps[..n], season);
      assert forall i :: 0 <= i < n ==> steps[i] == steps[..n][i];
      hide AccountOf, DaysStored;
    }
  }

  /** The user has as many points as days are stored only if these have no hole. */
  ghost predicate KeptSoFar(steps: seq<Step>, season: int) {
    var acc, dates := AccountOf(steps, "a", season), DaysStored(steps);
    && Credited(steps, "a", season) == |steps| == |dates|
    && (steps != [] ==> acc.Account? && acc.date == dates[|dates| - 1])
    && 0 <= Holding(acc) <= |steps|
    && (Holding(acc) == |steps| ==> NoHoles(dates))
  }

  lemma PointStored(steps: seq<Step>, s: Step, season: int)
    requires IsPoint(s, season) && KeptSoFar(steps, season)
    ensures KeptSoFar(steps + [s], season)
  {
    hide NoHoles, OnePoint, AccountOf, Credited, DaysStored;
    var dates := DaysStored(steps);
    AccountOneMore(steps, s, "a", season);
    CreditedOneMore(steps, s, "a", season);
    DaysStoredOneMore(steps, s);
    GainsOne();
    NoHolesFront(dates + [s.date]);
    assert (dates + [s.date])[..|dates|] == dates;
  }

  lemma CreditedOneMore(steps: seq<Step>, s: Step, address: string, season: int)
    ensures Credited(steps + [s], address, season) == Credited(steps, address, season) + Credit(s, address, season)
  {
    assert (steps + [s])[..|steps|] == steps;
  }

  lemma {:induction false} PointADayKept(steps: seq<Step>, season: int)
    requires OnlyPoints(steps, season)
    ensures KeptSoFar(steps, season)
  {
    hide KeptSoFar, IsPoint;
    if steps == [] {
      NothingKept(season);
    } else {
      var n := |steps| - 1;
      assert forall i :: 0 <= i < n ==> steps[i] == steps[..n][i];
      PointADayKept(steps[..n], season);
      assert IsPoint(steps[n], season);
      assert steps == steps[..n] + [steps[n]];
      PointStored(steps[..n], steps[n], season);
    }
  }

  lemma NothingKept(season: int)
    ensures KeptSoFar([], season)
  {
  }

  lemma GainsOne()
    ensures "a" in OnePoint() && Gain(OnePoint(), "a") == 1
  {
  }

  /** The daemon's histories over these ticks, in one season, with any points and settled bonuses. */
  ghost predicate HistoryOf(hs: seq<Happening>, ticks: seq<Tick>, target: Target, season: int) {
    var steps := LedgerSteps(hs, target);
    TicksOf(hs) == ticks && DaysForward(hs) && OfSeason(steps, season) && Settled(steps, season)
  }

  /** Everybody's latest total is everything ever earned and awarded. */
  ghost predicate EverybodyKeepsAll(hs: seq<Happening>, target: Target, season: int) {
    var steps := LedgerSteps(hs, target);
    forall address :: LatestTotal(Run(map[], steps), address, season) == Credited(steps, address, season)
  }

  lemma KeptWithoutHoles(hs: seq<Happening>, ticks: seq<Tick>, target: Target, season: int)
    requires HistoryOf(hs, ticks, target, season) && NoHoles(StoredDates(ticks, target))
    ensures EverybodyKeepsAll(hs, target, season)
  {
    hide LedgerSteps, Run, AccountOf, Credited, NoHoles, StoredDates, DaysStored, OfSeason, Settled, DaysForward,
         LatestTotal, TicksOf;
    var steps := LedgerSteps(hs, target);
    LedgerGetsStoredDates(hs, target);
    forall address ensures LatestTotal(Run(map[], steps), address, season) == Credited(steps, address, season) {
      LatestRowIsAccount(hs, target, address, season);
      NoHolesKeepAll(steps, address, season);
    }
  }

  lemma KeptOnlyWithoutHoles(ticks: seq<Tick>, target: Target, season: int)
    requires ClockForward(ticks) && EverybodyKeepsAll(PointADay(ticks, season), target, season)
    ensures NoHoles(StoredDates(ticks, target))
  {
    hide LedgerSteps, Run, AccountOf, Credited, NoHoles, StoredDates, DaysStored, OfSeason, Settled, LatestTotal,
         TicksOf;
    var hs := PointADay(ticks, season);
    PointADaySteps(ticks, season, target);
    assert DaysForward(hs);
    LedgerGetsStoredDates(hs, target);
    LatestRowIsAccount(hs, target, "a", season);
    assert LatestTotal(Run(map[], LedgerSteps(hs, target)), "a", season)
        == Credited(LedgerSteps(hs, target), "a", season);
    PointADayKept(LedgerSteps(hs, target), season);
  }

  lemma PointADayIsHistory(ticks: seq<Tick>, target: Target, season: int)
    requires ClockForward(ticks)
    ensures HistoryOf(PointADay(ticks, season), ticks, target, season)
  {
    hide LedgerSteps, TicksOf, AccountOf, Credited, DaysStored, NoHoles;
    PointADaySteps(ticks, season, target);
    OnlyPointsSettled(LedgerSteps(PointADay(ticks, season), target), season);
  }

  /** The daemon lets everybody keep everything, whatever is earned and awarded over these ticks, exactly
      if for every day from the first stored to the last the calculation at the first due tick of the next
      day succeeds. */
  lemma ScheduledTotalsCumulativeIff(ticks: seq<Tick>, target: Target, season: int)
    requires ClockForward(ticks) && StoredDates(ticks, target) != []
    ensures var dates := StoredDates(ticks, target);
            (forall hs :: HistoryOf(hs, ticks, target, season) ==> EverybodyKeepsAll(hs, target, season))
            <==> forall d :: dates[0] <= d <= dates[|dates| - 1] ==> StoredAfter(ticks, target, d)
  {
    hide HistoryOf, EverybodyKeepsAll, StoredAfter, StoredDates, NoHoles, Increasing;
    var dates := StoredDates(ticks, target);
    StoredIncreasing(ticks, target);
    NoHolesIff(dates);
    forall d ensures d in dates <==> StoredAfter(ticks, target, d) {
      StoredIff(ticks, target, d);
    }
    if NoHoles(dates) {
      forall hs | HistoryOf(hs, ticks, target, season) ensures EverybodyKeepsAll(hs, target, season) {
        KeptWithoutHoles(hs, ticks, target, season);
      }
    } else {
      PointADayIsHistory(ticks, target, season);
      if EverybodyKeepsAll(PointADay(ticks, season), target, season) {
        KeptOnlyWithoutHoles(ticks, target, season);
      }
    }
  }
}
