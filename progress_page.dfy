/** The Progress page: the weekly bar chart, per-habit streaks, the three summary figures and the badges shown. */
module ProgressPage {
  import opened Dates
  import opened HabitModel
  import opened Streak
  import opened Badges
  import Stats

  /** `last7Days`: the labels of the seven days ending today, oldest first. */
  function Last7Days(today: Day): (w: seq<string>)
    ensures |w| == 7 && w[6] == DayLabel(today)
    ensures forall i :: 0 <= i < 7 ==> w[i] == DayLabel(today - (6 - i))
  {
    LastDays(today, 7)
  }

  datatype DayCount = DayCount(date: string, completed: nat)

  /** `dailyCompletion`: per day of the window, how many habits include that day's string. */
  function DailyCompletion(habits: seq<Habit>, today: Day): (r: seq<DayCount>)
    ensures |r| == 7
    ensures forall k :: 0 <= k < 7 ==> r[k].date == Last7Days(today)[k]
    ensures forall k :: 0 <= k < 7 ==> r[k].completed == CountIncluding(habits, r[k].date) <= |habits|
  {
    var days := Last7Days(today);
    seq(7, k requires 0 <= k < 7 => DayCount(days[k], CountIncluding(habits, days[k])))
  }

  /** The Progress bar chart and the Dashboard's weekly statistics show the same days and counts. */
  lemma WeeklyChartsAgree(habits: seq<Habit>, today: Day)
    ensures forall k :: 0 <= k < 7 ==>
      DailyCompletion(habits, today)[k].date == DayLabel(Stats.Last7DaysStats(habits, today)[k].day)
      && DailyCompletion(habits, today)[k].completed == Stats.Last7DaysStats(habits, today)[k].completed
  {
  }

  datatype HabitStat = HabitStat(name: string, streak: nat)

  /** `habitStats`: one entry per habit, in list order, with that habit's streak. */
  function HabitStats(habits: seq<Habit>, today: Day): (r: seq<HabitStat>)
    ensures |r| == |habits|
    ensures forall i :: 0 <= i < |habits| ==>
      r[i].name == habits[i].title && r[i].streak == StreakOf(habits[i].completedDates, today)
  {
    seq(|habits|, i requires 0 <= i < |habits| => HabitStat(habits[i].title, StreakOf(habits[i].completedDates, today)))
  }

  /** `Math.max(...xs)` over a non-empty list: an element that no element exceeds. */
  function MaxOf(xs: seq<nat>): (m: nat)
    requires |xs| > 0
    ensures forall i :: 0 <= i < |xs| ==> xs[i] <= m
    ensures m in xs
  {
    if |xs| == 1 then xs[0]
    else
      var rest := MaxOf(xs[..|xs| - 1]);
      if xs[|xs| - 1] > rest then xs[|xs| - 1] else rest
  }

  /** The per-habit streaks, in list order. */
  function Streaks(habits: seq<Habit>, today: Day): (r: seq<nat>)
    ensures |r| == |habits|
    ensures forall i :: 0 <= i < |habits| ==> r[i] == StreakOf(habits[i].completedDates, today)
  {
    seq(|habits|, i requires 0 <= i < |habits| => StreakOf(habits[i].completedDates, today))
  }

  /** "Best Streak": 0 with no habits, otherwise the largest per-habit streak. */
  function BestStreak(habits: seq<Habit>, today: Day): (r: nat)
    ensures |habits| == 0 ==> r == 0
    ensures forall i :: 0 <= i < |habits| ==> StreakOf(habits[i].completedDates, today) <= r
    ensures |habits| > 0 ==> exists i :: 0 <= i < |habits| && r == StreakOf(habits[i].completedDates, today)
  {
    if |habits| > 0 then
      var s := Streaks(habits, today);
      var m := MaxOf(s);
      assert exists i :: 0 <= i < |s| && s[i] == m;
      m
    else 0
  }

  /**
   * "Total Completions": `habits.reduce((sum, h) => sum + h.completedDates.length, 0)`,
   * at least the record count of every single habit.
   */
  function TotalCompletions(habits: seq<Habit>): (r: nat)
    ensures forall i :: 0 <= i < |habits| ==> |habits[i].completedDates| <= r
  {
    if habits == [] then 0
    else
      var init := habits[..|habits| - 1];
      assert forall i :: 0 <= i < |init| ==> habits[i] == init[i];
      TotalCompletions(init) + |habits[|habits| - 1].completedDates|
  }

  /** "Completed Today": how many habits include today's string. */
  function CompletedToday(habits: seq<Habit>, today: Day): (r: nat)
    ensures r <= |habits|
  {
    CountIncluding(habits, DayLabel(today))
  }

  /** Every habit done today holds at least one record, so the total is at least the count done today. */
  lemma {:induction false} CompletedTodayAtMostTotal(habits: seq<Habit>, today: Day)
    ensures CompletedToday(habits, today) <= TotalCompletions(habits)
  {
    if habits != [] {
      CompletedTodayAtMostTotal(habits[..|habits| - 1], today);
    }
  }

  /** The best streak is positive exactly when some habit is done today. */
  lemma BestStreakPositiveIffDoneToday(habits: seq<Habit>, today: Day)
    ensures BestStreak(habits, today) > 0 <==> CompletedToday(habits, today) > 0
  {
    CountIncludingExtremes(habits, DayLabel(today));
    forall i | 0 <= i < |habits| {
      StreakZeroIffTodayMissing(habits[i].completedDates, today);
    }
  }

  /** The total is zero exactly when no habit has a record, i.e. when "First Step" is not earned. */
  lemma {:induction false} TotalZeroIffNoFirstStep(habits: seq<Habit>)
    ensures TotalCompletions(habits) == 0 <==> !Condition(FIRST_CHECK, habits)
  {
    if habits != [] {
      var n := |habits| - 1;
      TotalZeroIffNoFirstStep(habits[..n]);
      assert forall i :: 0 <= i < n ==> habits[..n][i] == habits[i];
      if Condition(FIRST_CHECK, habits[..n]) {
        var i :| 0 <= i < n && |habits[..n][i].completedDates| >= 1;
        assert |habits[i].completedDates| >= 1;
      }
    }
  }

  /** The badges whose condition holds, in the fixed badge order. */
  function Earned(bs: seq<Badge>, habits: seq<Habit>): (r: seq<Badge>)
    ensures forall b :: b in r <==> b in bs && Condition(b, habits)
  {
    if bs == [] then []
    else (if Condition(bs[0], habits) then [bs[0]] else []) + Earned(bs[1..], habits)
  }

  /**
   * `badges.every((b) => !b.condition(habits))`: the "No achievements yet"
   * message, which shows exactly when "First Step" is not earned.
   */
  predicate NoAchievements(habits: seq<Habit>)
    ensures NoAchievements(habits) <==> !Condition(FIRST_CHECK, habits)
  {
    EveryBadgeImpliesFirstStep(STREAK_7, habits);
    EveryBadgeImpliesFirstStep(STREAK_30, habits);
    EveryBadgeImpliesFirstStep(MULTI_HABIT, habits);
    forall b :: b in AllBadges ==> !Condition(b, habits)
  }

  /**
   * The message appears exactly when no badge is shown, which is exactly
   * when no habit has any record at all.
   */
  lemma NoAchievementsIff(habits: seq<Habit>)
    ensures NoAchievements(habits) <==> Earned(AllBadges, habits) == []
    ensures NoAchievements(habits) <==> TotalCompletions(habits) == 0
  {
    TotalZeroIffNoFirstStep(habits);
    if Earned(AllBadges, habits) != [] {
      assert Earned(AllBadges, habits)[0] in Earned(AllBadges, habits);
    }
  }
}
