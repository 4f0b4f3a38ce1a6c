/** The daemon that calculates each day's points on the next day, once the clock has passed the
    configured time. It looks at the clock every five minutes, for as long as it runs, and marks a day
    as run whether or not the calculation succeeded. */
module Scheduler {
  import opened Lists
  import opened Options
  import opened PointsLedger
  import Points = DailyPoints

  /** What the clock shows when the daemon looks, and what a calculation at that moment would come to. */
  datatype Tick = Tick(day: int, hour: nat, minute: nat, succeeds: bool)

  datatype Target = Target(hour: nat, minute: nat)

  predicate Due(t: Tick, target: Target) {
    t.hour > target.hour || (t.hour == target.hour && t.minute >= target.minute)
  }

  /** Due from the target on for the rest of the day: the minutes of the day have reached the target's. */
  lemma DueFromTargetOn(t: Tick, target: Target, later: Tick)
    requires t.minute < 60 && target.minute < 60 && later.minute < 60
    ensures Due(t, target) <==> 60 * t.hour + t.minute >= 60 * target.hour + target.minute
    ensures Due(t, target) && 60 * later.hour + later.minute >= 60 * t.hour + t.minute ==> Due(later, target)
  {
  }

  /** The days on which a tick was due, one entry for every such tick. */
  function DueDays(ticks: seq<Tick>, target: Target): seq<int> {
    if ticks == [] then [] else
      var rest, last := DueDays(ticks[..|ticks| - 1], target), ticks[|ticks| - 1];
      if Due(last, target) then rest + [last.day] else rest
  }

  /** A calculation is started at t, given the ticks at which calculations were started before. */
  predicate Starts(started: seq<Tick>, t: Tick, target: Target) {
    Due(t, target) && (started == [] || started[|started| - 1].day != t.day)
  }

  /** The ticks at which a calculation is started. */
  function Started(ticks: seq<Tick>, target: Target): seq<Tick> {
    if ticks == [] then [] else
      var rest, last := Started(ticks[..|ticks| - 1], target), ticks[|ticks| - 1];
      if Starts(rest, last, target) then rest + [last] else rest
  }

  /** The dates of the calculations that succeed. */
  function Succeeded(started: seq<Tick>): seq<int> {
    if started == [] then [] else
      var rest, last := Succeeded(started[..|started| - 1]), started[|started| - 1];
      if last.succeeds then rest + [last.day - 1] else rest
  }

  /** The dates calculated at the ticks. */
  function Dates(started: seq<Tick>): (dates: seq<int>)
    ensures |dates| == |started|
  {
    seq(|started|, i requires 0 <= i < |started| => started[i].day - 1)
  }

  function Processed(ticks: seq<Tick>, target: Target): seq<int> {
    Dates(Started(ticks, target))
  }

  function StoredDates(ticks: seq<Tick>, target: Target): seq<int> {
    Succeeded(Started(ticks, target))
  }

  /** The loop, over any number of ticks: the dates calculated, and those of them that are stored. */
  method RunScheduler(ticks: seq<Tick>, target: Target) returns (processed: seq<int>, stored: seq<int>)
    ensures processed == Processed(ticks, target)
    ensures stored == StoredDates(ticks, target)
  {
    hide Due, Started, Starts, DueDays, Succeeded;
    processed, stored := [], [];
    NothingRun(target);
    var lastRunDate: Option<int> := None;
    ghost var started: seq<Tick> := [];
    for i := 0 to |ticks|
      invariant started == Started(ticks[..i], target)
      invariant processed == Dates(started)
      invariant stored == Succeeded(started)
      invariant lastRunDate == if started == [] then None else Some(started[|started| - 1].day)
    {
      var now := ticks[i];
      assert ticks[..i + 1] == ticks[..i] + [now];
      StartedOneMore(ticks[..i], now, target);
      if Due(now, target) && lastRunDate != Some(now.day) {
        processed := processed + [now.day - 1];
        SucceededOneMore(started, now);
        if now.succeeds {
          stored := stored + [now.day - 1];
        }
        lastRunDate := Some(now.day);
        started := started + [now];
      }
    }
    assert ticks[..|ticks|] == ticks;
  }

  lemma StartedOneMore(ticks: seq<Tick>, t: Tick, target: Target)
    ensures var rest := Started(ticks, target);
            Started(ticks + [t], target) == if Due(t, target) && (rest == [] || rest[|rest| - 1].day != t.day)
                                            then rest + [t] else rest
  {
    hide Due;
    assert (ticks + [t])[..|ticks|] == ticks;
  }

  lemma SucceededOneMore(started: seq<Tick>, t: Tick)
    ensures Succeeded(started + [t]) == if t.succeeds then Succeeded(started) + [t.day - 1] else Succeeded(started)
  {
    assert (started + [t])[..|started|] == started;
  }

  lemma DueDaysOneMore(ticks: seq<Tick>, t: Tick, target: Target)
    ensures DueDays(ticks + [t], target) ==
               if Due(t, target) then DueDays(ticks, target) + [t.day] else DueDays(ticks, target)
  {
    hide Due;
    assert (ticks + [t])[..|ticks|] == ticks;
  }

  lemma NothingRun(target: Target)
    ensures Started([], target) == [] && DueDays([], target) == [] && Succeeded([]) == [] && DaysStored([]) == []
  {
  }

  lemma NonDecreasingOneMore(days: seq<int>, day: int)
    ensures NonDecreasing(days + [day]) <==> NonDecreasing(days) && (days == [] || days[|days| - 1] <= day)
  {
    var all := days + [day];
    if NonDecreasing(all) {
      forall i, j | 0 <= i < j < |days| ensures days[i] <= days[j] {
        assert all[i] <= all[j];
      }
      assert days != [] ==> all[|days| - 1] <= all[|days|];
    }
  }

  lemma IncreasingOneMore(days: seq<int>, day: int)
    ensures Increasing(days + [day]) <==> Increasing(days) && (days == [] || days[|days| - 1] < day)
  {
    var all := days + [day];
    if Increasing(all) {
      forall i, j | 0 <= i < j < |days| ensures days[i] < days[j] {
        assert all[i] < all[j];
      }
      assert days != [] ==> all[|days| - 1] < all[|days|];
    }
  }

  lemma {:induction false} DueDaysMembers(ticks: seq<Tick>, target: Target, d: int)
    ensures d in DueDays(ticks, target) <==> exists t :: t in ticks && Due(t, target) && t.day == d
  {
    if ticks != [] {
      var front, last := ticks[..|ticks| - 1], ticks[|ticks| - 1];
      DueDaysMembers(front, target, d);
      assert ticks == front + [last];
    }
  }

  /** Some tick of the day after d was due. */
  ghost predicate DueAfter(ticks: seq<Tick>, target: Target, d: int) {
    exists t :: t in ticks && Due(t, target) && t.day == d + 1
  }

  /** A day is processed if and only if some tick of the day after was due. */
  lemma {:induction false} ProcessedIff(ticks: seq<Tick>, target: Target, d: int)
    ensures d in Processed(ticks, target) <==> DueAfter(ticks, target, d)
  {
    hide Due;
    if ticks != [] {
      var front, last := ticks[..|ticks| - 1], ticks[|ticks| - 1];
      ProcessedIff(front, target, d);
      assert ticks == front + [last];
      StartedOneMore(front, last, target);
      var rest := Started(front, target);
      hide Started;
      assert Dates(rest + [last]) == Dates(rest) + [last.day - 1];
      InDates(rest + [last], d);
      InDates(rest, d);
      if rest != [] && rest[|rest| - 1].day == last.day {
        assert rest[|rest| - 1] in rest;
      }
    } else {
      assert Processed(ticks, target) == [];
    }
  }

  lemma DatesOneMore(started: seq<Tick>, t: Tick)
    ensures Dates(started + [t]) == Dates(started) + [t.day - 1]
    ensures started != [] ==> Dates(started)[|started| - 1] == started[|started| - 1].day - 1
  {
  }

  lemma InDates(started: seq<Tick>, d: int)
    ensures d in Dates(started) <==> exists t :: t in started && t.day == d + 1
  {
    if t :| t in started && t.day == d + 1 {
      var i :| 0 <= i < |started| && started[i] == t;
      assert Dates(started)[i] == d;
    }
  }

  lemma {:induction false} LastDueDay(ticks: seq<Tick>, target: Target)
    ensures var s, days := Started(ticks, target), DueDays(ticks, target);
            && (s == [] <==> days == [])
            && (s != [] ==> s[|s| - 1].day == days[|days| - 1])
  {
    hide Due;
    if ticks != [] {
      LastDueDay(ticks[..|ticks| - 1], target);
    }
  }

  /** Every day is processed at most once, and in order, exactly if the clock never goes back by
      a day between due ticks. */
  lemma {:induction false} ProcessedIncreasingIff(ticks: seq<Tick>, target: Target)
    ensures Increasing(Processed(ticks, target)) <==> NonDecreasing(DueDays(ticks, target))
  {
    hide Due, Increasing, NonDecreasing, Started, DueDays, Dates;
    if ticks == [] {
      NothingRun(target);
      NoDates();
      assert Processed(ticks, target) == [];
    } else {
      var front, last := ticks[..|ticks| - 1], ticks[|ticks| - 1];
      assert ticks == front + [last];
      ProcessedIncreasingIff(front, target);
      LastDueDay(front, target);
      StartedOneMore(front, last, target);
      DueDaysOneMore(front, last, target);
      var rest := Started(front, target);
      DatesOneMore(rest, last);
      IncreasingOneMore(Dates(rest), last.day - 1);
      NonDecreasingOneMore(DueDays(front, target), last.day);
    }
  }

  lemma NoDates()
    ensures Increasing([]) && NonDecreasing([]) && Dates([]) == []
  {
  }

  ghost predicate ClockForward(ticks: seq<Tick>) {
    forall i, j :: 0 <= i < j < |ticks| ==> ticks[i].day <= ticks[j].day
  }

  lemma {:induction false} DueDaysForward(ticks: seq<Tick>, target: Target)
    requires ClockForward(ticks)
    ensures NonDecreasing(DueDays(ticks, target))
  {
    if ticks != [] {
      var front, last := ticks[..|ticks| - 1], ticks[|ticks| - 1];
      DueDaysForward(front, target);
      hide NonDecreasing;
      var days := DueDays(front, target);
      NonDecreasingOneMore(days, last.day);
      if days != [] {
        var d: int := days[|days| - 1];
        assert d in days;
        DueDaysMembers(front, target, d);
        var t :| t in front && Due(t, target) && t.day == d;
        var i :| 0 <= i < |front| && front[i] == t;
        assert ticks[i] == t;
      }
    }
  }

  ghost predicate NoHoles(s: seq<int>) {
    forall i :: 0 <= i < |s| - 1 ==> s[i + 1] == s[i] + 1
  }

  /** An increasing list has no holes exactly if it holds every number between its ends. */
  lemma NoHolesIff(s: seq<int>)
    requires Increasing(s) && s != []
    ensures NoHoles(s) <==> forall d :: s[0] <= d <= s[|s| - 1] ==> d in s
  {
    if NoHoles(s) {
      forall d | s[0] <= d <= s[|s| - 1] ensures d in s {
        InNoHoles(s, d);
      }
    } else {
      var i :| 0 <= i < |s| - 1 && s[i + 1] != s[i] + 1;
      NotBetween(s, i);
      assert s[0] <= s[i] + 1 <= s[|s| - 1];
    }
  }

  lemma NotBetween(s: seq<int>, i: nat)
    requires Increasing(s) && i < |s| - 1 && s[i + 1] != s[i] + 1
    ensures s[i] + 1 !in s
    ensures s[0] <= s[i] + 1 <= s[|s| - 1]
  {
    forall j | 0 <= j < |s| ensures s[j] != s[i] + 1 {
      assert j < i || j == i || j == i + 1 || j > i + 1;
    }
  }

  lemma {:induction false} InNoHoles(s: seq<int>, d: int)
    requires s != [] && NoHoles(s) && s[0] <= d <= s[|s| - 1]
    ensures d in s
  {
    if d != s[|s| - 1] {
      var front := s[..|s| - 1];
      assert front != [] && s[|s| - 1] == front[|front| - 1] + 1;
      InNoHoles(front, d);
    }
  }

  lemma NoHolesFront(dates: seq<int>)
    requires dates != []
    ensures var n := |dates| - 1;
            NoHoles(dates) <==> NoHoles(dates[..n]) && (n > 0 ==> dates[n] == dates[n - 1] + 1)
  {
    var n := |dates| - 1;
    var front := dates[..n];
    if NoHoles(front) && (n > 0 ==> dates[n] == dates[n - 1] + 1) {
      forall i | 0 <= i < |dates| - 1 ensures dates[i + 1] == dates[i] + 1 {
        assert i < n - 1 ==> front[i + 1] == front[i] + 1;
      }
    }
    if NoHoles(dates) {
      forall i | 0 <= i < |front| - 1 ensures front[i + 1] == front[i] + 1 {
        assert dates[i + 1] == dates[i] + 1;
      }
    }
  }

  /** With a clock that goes forward, days are processed in order, each once; and without a hole
      exactly if every day from the first run to the last has a due tick. */
  lemma ScheduleComplete(ticks: seq<Tick>, target: Target)
    requires ClockForward(ticks) && Processed(ticks, target) != []
    ensures var p := Processed(ticks, target);
            && Increasing(p)
            && (NoHoles(p) <==> forall d :: p[0] <= d <= p[|p| - 1] ==> DueAfter(ticks, target, d))
  {
    hide Due, DueDays, Processed, Increasing, NoHoles, DueAfter;
    var p := Processed(ticks, target);
    DueDaysForward(ticks, target);
    ProcessedIncreasingIff(ticks, target);
    NoHolesIff(p);
    forall d ensures d in p <==> DueAfter(ticks, target, d) {
      ProcessedIff(ticks, target, d);
    }
  }

  // ----- which days are stored

  /** The first due tick of its day. */
  ghost predicate FirstDue(ticks: seq<Tick>, target: Target, i: nat)
    requires i < |ticks|
  {
    Due(ticks[i], target) && forall j :: 0 <= j < i && Due(ticks[j], target) ==> ticks[j].day != ticks[i].day
  }

  ghost predicate StartsAt(ticks: seq<Tick>, target: Target, t: Tick) {
    exists i :: 0 <= i < |ticks| && ticks[i] == t && FirstDue(ticks, target, i)
  }

  /** The day of the last calculation is that of the last due tick, which is the latest one. */
  lemma {:induction false} LastStarted(ticks: seq<Tick>, target: Target)
    requires ClockForward(ticks)
    ensures var s := Started(ticks, target);
            && (forall j :: 0 <= j < |ticks| && Due(ticks[j], target) ==> s != [] && ticks[j].day <= s[|s| - 1].day)
            && (s != [] ==> exists j :: 0 <= j < |ticks| && Due(ticks[j], target) && ticks[j].day == s[|s| - 1].day)
  {
    hide Due;
    if ticks != [] {
      var front, last := ticks[..|ticks| - 1], ticks[|ticks| - 1];
      LastStarted(front, target);
      assert ticks == front + [last];
      StartedOneMore(front, last, target);
      assert forall j :: 0 <= j < |front| ==> front[j] == ticks[j];
      assert ticks[|ticks| - 1] == last;
    }
  }

  lemma {:induction false} StartedIff(ticks: seq<Tick>, target: Target, t: Tick)
    requires ClockForward(ticks)
    ensures t in Started(ticks, target) <==> StartsAt(ticks, target, t)
  {
    hide Due;
    if ticks != [] {
      var n := |ticks| - 1;
      var front, last := ticks[..n], ticks[n];
      StartedIff(front, target, t);
      LastStarted(front, target);
      assert ticks == front + [last];
      StartedOneMore(front, last, target);
      forall i | 0 <= i < n ensures front[i] == ticks[i] &&
                              (FirstDue(front, target, i) <==> FirstDue(ticks, target, i)) {
        assert forall j :: 0 <= j < i ==> front[j] == ticks[j];
      }
      LastStartsIff(ticks, target);
    }
  }

  lemma LastStartsIff(ticks: seq<Tick>, target: Target)
    requires ClockForward(ticks) && ticks != []
    ensures FirstDue(ticks, target, |ticks| - 1)
            <==> Starts(Started(ticks[..|ticks| - 1], target), ticks[|ticks| - 1], target)
  {
    hide Due, Started;
    var n := |ticks| - 1;
    var front, s := ticks[..n], Started(ticks[..n], target);
    LastStarted(front, target);
    assert forall j :: 0 <= j < n ==> front[j] == ticks[j];
    if Due(ticks[n], target) && s != [] && s[|s| - 1].day == ticks[n].day {
      var j :| 0 <= j < n && Due(front[j], target) && front[j].day == s[|s| - 1].day;
      assert Due(ticks[j], target);
    }
    if Due(ticks[n], target) && !FirstDue(ticks, target, n) {
      var j :| 0 <= j < n && Due(ticks[j], target) && ticks[j].day == ticks[n].day;
      assert Due(front[j], target);
      assert front[j].day <= s[|s| - 1].day;
      var i :| 0 <= i < n && Due(front[i], target) && front[i].day == s[|s| - 1].day;
      assert ticks[i].day <= ticks[n].day;
    }
  }

  lemma {:induction false} SucceededMembers(started: seq<Tick>, d: int)
    ensures d in Succeeded(started) <==> exists t :: t in started && t.succeeds && t.day == d + 1
  {
    if started != [] {
      var front, last := started[..|started| - 1], started[|started| - 1];
      SucceededMembers(front, d);
      assert started == front + [last];
    }
  }

  /** The first due tick of the day after d finds a calculation that succeeds. */
  ghost predicate StoredAfter(ticks: seq<Tick>, target: Target, d: int) {
    exists i :: 0 <= i < |ticks| && FirstDue(ticks, target, i) && ticks[i].day == d + 1 && ticks[i].succeeds
  }

  /** With a clock that goes forward, a day is stored if and only if the calculation at the first due
      tick of the day after succeeds: no later tick makes up for one that fails. */
  lemma StoredIff(ticks: seq<Tick>, target: Target, d: int)
    requires ClockForward(ticks)
    ensures d in StoredDates(ticks, target) <==> StoredAfter(ticks, target, d)
  {
    hide Due, Started, FirstDue;
    SucceededMembers(Started(ticks, target), d);
    forall t ensures t in Started(ticks, target) <==> StartsAt(ticks, target, t) {
      StartedIff(ticks, target, t);
    }
    if StoredAfter(ticks, target, d) {
      var i :| 0 <= i < |ticks| && FirstDue(ticks, target, i) && ticks[i].day == d + 1 && ticks[i].succeeds;
      assert StartsAt(ticks, target, ticks[i]);
    }
  }

  /** A day is lost: its calculation fails once, and the tick five minutes later, at which it would
      have succeeded, is not used. */
  lemma DayLost(failing: Tick, working: Tick, next: Tick)
    requires failing == Tick(1, 1, 0, false) && working == Tick(1, 1, 5, true) && next == Tick(2, 1, 0, true)
    ensures Processed([failing, working, next], Target(1, 0)) == [0, 1]
    ensures StoredDates([failing, working, next], Target(1, 0)) == [1]
  {
    var target := Target(1, 0);
    assert Due(failing, target) && Due(working, target) && Due(next, target);
    hide Due, Started, Succeeded;
    NothingRun(target);
    var one, two := [failing], [failing, working];
    assert [] + [failing] == one && one + [working] == two && two + [next] == [failing, working, next];
    StartedOneMore([], failing, target);
    StartedOneMore(one, working, target);
    StartedOneMore(two, next, target);
    assert Started([failing, working, next], target) == one + [next];
    SucceededOneMore([], failing);
    SucceededOneMore(one, next);
  }

  lemma {:induction false} SucceededIncreasing(started: seq<Tick>)
    requires Increasing(Dates(started))
    ensures Increasing(Succeeded(started))
  {
    if started != [] {
      var n := |started| - 1;
      var front, last := started[..n], started[n];
      var dates, rest := Dates(started), Succeeded(front);
      assert Dates(front) == dates[..n];
      forall i, j | 0 <= i < j < n ensures Dates(front)[i] < Dates(front)[j] {
        assert dates[i] < dates[j];
      }
      SucceededIncreasing(front);
      hide Increasing;
      IncreasingOneMore(rest, last.day - 1);
      if rest != [] {
        var d: int := rest[|rest| - 1];
        assert d in rest;
        SucceededMembers(front, d);
        var t :| t in front && t.succeeds && t.day == d + 1;
        var i :| 0 <= i < n && front[i] == t;
        InOrder(dates, i, n);
      }
    }
  }

  lemma InOrder(s: seq<int>, i: nat, j: nat)
    requires Increasing(s) && i < j < |s|
    ensures s[i] < s[j]
  {
  }

  lemma StoredIncreasing(ticks: seq<Tick>, target: Target)
    requires ClockForward(ticks)
    ensures Increasing(StoredDates(ticks, target))
  {
    hide Started, Increasing, DueDays, NonDecreasing;
    DueDaysForward(ticks, target);
    ProcessedIncreasingIff(ticks, target);
    SucceededIncreasing(Started(ticks, target));
  }

  // ----- the ledger under the scheduler

  /** What can happen while the daemon runs: it looks at the clock, a calculation at that moment giving
      these activities for the active season; or somebody is awarded a bonus. */
  datatype Happening =
    | Looked(tick: Tick, acts: Points.Activities, season: int)
    | Awarded(day: int, address: string, amount: int, season: int)

  function DayOf(h: Happening): int {
    if h.Looked? then h.tick.day else h.day
  }

  function TicksOf(hs: seq<Happening>): seq<Tick> {
    if hs == [] then [] else
      var rest, h := TicksOf(hs[..|hs| - 1]), hs[|hs| - 1];
      if h.Looked? then rest + [h.tick] else rest
  }

  /** What is written to the ledger. */
  function LedgerSteps(hs: seq<Happening>, target: Target): seq<Step> {
    if hs == [] then [] else
      var front, h := hs[..|hs| - 1], hs[|hs| - 1];
      var rest := LedgerSteps(front, target);
      match h
      case Looked(tick, acts, season) =>
        if Starts(Started(TicksOf(front), target), tick, target) && tick.succeeds
        then rest + [StoreDay(acts, tick.day - 1, season)] else rest
      case Awarded(day, address, amount, season) => rest + [Bonus(address, amount, season, day - 1)]
  }

  function DateOf(s: Step): int {
    if s.StoreDay? then s.date else s.yesterday
  }

  /** The dates of the days stored among the steps. */
  function DaysStored(steps: seq<Step>): seq<int> {
    if steps == [] then [] else
      var rest, last := DaysStored(steps[..|steps| - 1]), steps[|steps| - 1];
      if last.StoreDay? then rest + [last.date] else rest
  }

  lemma DaysStoredOneMore(steps: seq<Step>, s: Step)
    ensures DaysStored(steps + [s]) == if s.StoreDay? then DaysStored(steps) + [s.date] else DaysStored(steps)
  {
    assert (steps + [s])[..|steps|] == steps;
  }

  /** The days the ledger gets are those the scheduler stores. */
  lemma {:induction false} LedgerGetsStoredDates(hs: seq<Happening>, target: Target)
    ensures DaysStored(LedgerSteps(hs, target)) == StoredDates(TicksOf(hs), target)
  {
    hide Starts, Started, DaysStored, Succeeded;
    if hs == [] {
      NothingRun(target);
    } else {
      var front, h := hs[..|hs| - 1], hs[|hs| - 1];
      LedgerGetsStoredDates(front, target);
      var rest := LedgerSteps(front, target);
      match h {
        case Looked(tick, acts, season) =>
          var before := TicksOf(front);
          StartsIs(before, tick, target);
          SucceededOneMore(Started(before, target), tick);
          DaysStoredOneMore(rest, StoreDay(acts, tick.day - 1, season));
        case Awarded(day, address, amount, season) =>
          DaysStoredOneMore(rest, Bonus(address, amount, season, day - 1));
      }
    }
  }

  lemma StartsIs(ticks: seq<Tick>, t: Tick, target: Target)
    ensures Started(ticks + [t], target)
         == if Starts(Started(ticks, target), t, target) then Started(ticks, target) + [t] else Started(ticks, target)
  {
    assert (ticks + [t])[..|ticks|] == ticks;
  }

  ghost predicate DaysForward(hs: seq<Happening>) {
    forall i, j :: 0 <= i < j < |hs| ==> DayOf(hs[i]) <= DayOf(hs[j])
  }

  ghost predicate DatesForward(steps: seq<Step>) {
    forall i, j :: 0 <= i < j < |steps| ==> DateOf(steps[i]) <= DateOf(steps[j])
  }

  ghost predicate DatesBetween(steps: seq<Step>, lo: int, hi: int) {
    forall i :: 0 <= i < |steps| ==> lo <= DateOf(steps[i]) <= hi
  }

  lemma StepsOneMore(hs: seq<Happening>, h: Happening, target: Target)
    ensures var before, after := LedgerSteps(hs, target), LedgerSteps(hs + [h], target);
            after == before
            || (|after| == |before| + 1 &&
                after == before + [after[|before|]] && DateOf(after[|before|]) == DayOf(h) - 1)
  {
    hide Starts, Started, TicksOf;
    assert (hs + [h])[..|hs|] == hs;
  }

  lemma {:induction false} StepsForward(hs: seq<Happening>, target: Target)
    requires DaysForward(hs)
    ensures DatesForward(LedgerSteps(hs, target))
    ensures hs != [] ==> DatesBetween(LedgerSteps(hs, target), DayOf(hs[0]) - 1, DayOf(hs[|hs| - 1]) - 1)
  {
    hide LedgerSteps, DayOf, DateOf, DatesForward, DatesBetween;
    EmptyForward();
    if hs == [] {
      NoSteps(target);
    } else {
      var front, h := hs[..|hs| - 1], hs[|hs| - 1];
      assert hs == front + [h];
      StepsForward(front, target);
      StepsOneMore(front, h, target);
      NoSteps(target);
      var before, after := LedgerSteps(front, target), LedgerSteps(hs, target);
      var lo, hi := DayOf(hs[0]) - 1, DayOf(h) - 1;
      if front != [] {
        assert DayOf(hs[|hs| - 2]) <= DayOf(hs[|hs| - 1]) && DayOf(hs[0]) <= DayOf(hs[|hs| - 1]);
        assert front[|front| - 1] == hs[|hs| - 2];
        WidenDates(before, lo, DayOf(front[|front| - 1]) - 1, hi);
      }
      assert DatesBetween(before, lo, hi);
      if after != before {
        ForwardOneMore(before, after[|before|], lo);
      }
    }
  }

  lemma EmptyForward()
    ensures DatesForward([]) && forall lo, hi :: DatesBetween([], lo, hi)
  {
  }

  lemma WidenDates(steps: seq<Step>, lo: int, mid: int, hi: int)
    requires DatesBetween(steps, lo, mid) && mid <= hi
    ensures DatesBetween(steps, lo, hi)
  {
  }

  lemma ForwardOneMore(steps: seq<Step>, s: Step, lo: int)
    requires DatesForward(steps) && DatesBetween(steps, lo, DateOf(s)) && lo <= DateOf(s)
    ensures DatesForward(steps + [s]) && DatesBetween(steps + [s], lo, DateOf(s))
  {
    hide DateOf;
  }

  lemma {:induction false} ForwardAllowed(t: Table, steps: seq<Step>)
    requires DatesForward(steps)
    requires forall k, i :: k in t && 0 <= i < |steps| ==> k.date <= DateOf(steps[i])
    ensures AllAllowed(t, steps)
    decreases |steps|
  {
    if steps != [] {
      var t', rest := Apply(t, steps[0]), steps[1..];
      ApplyUpTo(t, steps[0]);
      forall k, i | k in t' && 0 <= i < |rest| ensures k.date <= DateOf(rest[i]) {
        assert rest[i] == steps[i + 1];
      }
      forall i, j | 0 <= i < j < |rest| ensures DateOf(rest[i]) <= DateOf(rest[j]) {
        assert rest[i] == steps[i + 1] && rest[j] == steps[j + 1];
      }
      ForwardAllowed(t', rest);
    }
  }

  lemma ApplyUpTo(t: Table, s: Step)
    requires forall k :: k in t ==> k.date <= DateOf(s)
    ensures forall k :: k in Apply(t, s) ==> k.date <= DateOf(s)
  {
    hide DayKeys;
    match s
    case StoreDay(acts, date, season) =>
      forall k | k in Stored(t, acts, date, season) ensures k.date <= date {
        StoredAt(t, acts, date, season, k);
      }
    case Bonus(address, amount, season, yesterday) =>
      BonusOnlyAtKey(t, address, amount, season, yesterday);
  }

  /** Started on a ledger of days before, with a clock that goes forward, the daemon keeps the ledger's
      law, whichever calculations fail and whatever bonuses are awarded in between. */
  lemma LedgerAddsUp(t: Table, hs: seq<Happening>, target: Target)
    requires AddsUp(t) && DaysForward(hs)
    requires forall k :: k in t && hs != [] ==> k.date < DayOf(hs[0])
    ensures AddsUp(Run(t, LedgerSteps(hs, target)))
  {
    hide LedgerSteps, AddsUp;
    var steps := LedgerSteps(hs, target);
    StepsForward(hs, target);
    if hs == [] {
      NoSteps(target);
    }
    ForwardAllowed(t, steps);
    RunKeepsLaw(t, steps);
  }

  lemma NoSteps(target: Target)
    ensures LedgerSteps([], target) == []
  {
  }
}
