/**
 * `calculateStreak`: walk backward one day at a time from today, counting
 * days whose date string is in `completedDates`, and stop at the first day
 * that is missing.
 */
module Streak {
  import opened Dates
  import opened HabitModel
  import opened SetFacts

  /** Today and the `k - 1` days before it are all present as bare date strings. */
  predicate PresentRun(cs: seq<Completion>, today: Day, k: nat) {
    forall d :: today - k < d <= today ==> Includes(cs, DayLabel(d))
  }

  /** The labels of today and the `k - 1` days before it. */
  function WalkedLabels(today: Day, k: nat): set<string> {
    if k == 0 then {} else WalkedLabels(today, k - 1) + {DayLabel(today - (k - 1))}
  }

  /** `k` distinct days have `k` distinct labels, and the next day back is not among them. */
  lemma {:induction false} WalkedLabelsFresh(today: Day, k: nat)
    ensures |WalkedLabels(today, k)| == k
    ensures DayLabel(today - k) !in WalkedLabels(today, k)
    ensures forall x :: x in WalkedLabels(today, k) ==> exists d :: today - k < d <= today && x == DayLabel(d)
  {
    if k > 0 {
      WalkedLabelsFresh(today, k - 1);
      if DayLabel(today - k) == DayLabel(today - (k - 1)) {
        DayLabelInjective(today - k, today - (k - 1));
      }
      if DayLabel(today - k) in WalkedLabels(today, k - 1) {
        var d :| today - (k - 1) < d <= today && DayLabel(today - k) == DayLabel(d);
        DayLabelInjective(today - k, d);
      }
    }
  }

  /** A run of present days can be no longer than the number of distinct date strings. */
  lemma RunBound(cs: seq<Completion>, today: Day, k: nat)
    requires PresentRun(cs, today, k)
    ensures k <= |DateStrings(cs)|
  {
    WalkedLabelsFresh(today, k);
    SubsetCardinality(WalkedLabels(today, k), DateStrings(cs));
  }

  /** The walk continued from day `today - k`, the `k` days after it being already counted. */
  function StreakFrom(cs: seq<Completion>, today: Day, k: nat): (r: nat)
    requires PresentRun(cs, today, k)
    ensures k <= r && PresentRun(cs, today, r) && !Includes(cs, DayLabel(today - r))
    decreases |DateStrings(cs)| - k
  {
    RunBound(cs, today, k);
    if Includes(cs, DayLabel(today - k)) then
      RunBound(cs, today, k + 1);
      StreakFrom(cs, today, k + 1)
    else
      k
  }

  /**
   * The streak ending today: the days today, today-1, ..., today-(r-1) are all
   * present, day today-r is not, and r never exceeds the distinct date strings.
   */
  function StreakOf(cs: seq<Completion>, today: Day): (r: nat)
    ensures PresentRun(cs, today, r) && !Includes(cs, DayLabel(today - r))
    ensures r <= |DateStrings(cs)|
  {
    RunBound(cs, today, StreakFrom(cs, today, 0));
    StreakFrom(cs, today, 0)
  }

  /** A run followed by a missing day determines the streak. */
  lemma StreakUnique(cs: seq<Completion>, today: Day, k: nat)
    requires PresentRun(cs, today, k) && !Includes(cs, DayLabel(today - k))
    ensures StreakOf(cs, today) == k
  {
    var r := StreakOf(cs, today);
    assert !(r < k) && !(r > k);
  }

  /** `calculateStreak(completedDates)` with today's day passed in. */
  method CalculateStreak(completedDates: seq<Completion>, today: Day) returns (streak: nat)
    ensures PresentRun(completedDates, today, streak)
    ensures !Includes(completedDates, DayLabel(today - streak))
    ensures streak == StreakOf(completedDates, today)
  {
    streak := 0;
    var currentDate := today;
    while true
      invariant currentDate == today - streak
      invariant PresentRun(completedDates, today, streak)
      invariant streak <= |DateStrings(completedDates)|
      decreases |DateStrings(completedDates)| - streak
    {
      var dateStr := DayLabel(currentDate);
      if Includes(completedDates, dateStr) {
        streak := streak + 1;
        currentDate := currentDate - 1;
        RunBound(completedDates, today, streak);
      } else {
        break;
      }
    }
    StreakUnique(completedDates, today, streak);
  }

  /** A missing today means streak 0, even when yesterday is present. */
  lemma StreakZeroIffTodayMissing(cs: seq<Completion>, today: Day)
    ensures StreakOf(cs, today) == 0 <==> !Includes(cs, DayLabel(today))
  {
    if !Includes(cs, DayLabel(today)) {
      StreakUnique(cs, today, 0);
    }
  }

  /** An empty record list has streak 0. */
  lemma StreakOfEmpty(today: Day)
    ensures StreakOf([], today) == 0
  {
    StreakZeroIffTodayMissing([], today);
  }

  /** The streak sees only the bare date strings, so `{date, value}` records never contribute. */
  lemma StreakDependsOnDateStrings(cs1: seq<Completion>, cs2: seq<Completion>, today: Day)
    requires DateStrings(cs1) == DateStrings(cs2)
    ensures StreakOf(cs1, today) == StreakOf(cs2, today)
  {
    var r := StreakOf(cs1, today);
    assert forall d :: Includes(cs1, DayLabel(d)) <==> Includes(cs2, DayLabel(d)) by {
      forall d ensures Includes(cs1, DayLabel(d)) <==> Includes(cs2, DayLabel(d)) {
        assert Includes(cs1, DayLabel(d)) <==> DayLabel(d) in DateStrings(cs1);
      }
    }
    StreakUnique(cs2, today, r);
  }

  /** Appending value records to a list leaves its streak unchanged. */
  lemma StreakIgnoresValueRecords(cs: seq<Completion>, values: seq<Completion>, today: Day)
    requires forall i :: 0 <= i < |values| ==> values[i].DateValue?
    ensures StreakOf(cs + values, today) == StreakOf(cs, today)
  {
    assert DateStrings(cs + values) == DateStrings(cs) by {
      forall x ensures x in DateStrings(cs + values) <==> x in DateStrings(cs) {
        if DateOnly(x) in cs + values {
          var i :| 0 <= i < |cs + values| && (cs + values)[i] == DateOnly(x);
          assert i < |cs|;
          assert cs[i] == DateOnly(x);
        }
      }
    }
    StreakDependsOnDateStrings(cs + values, cs, today);
  }

  /** A streak ending today that is positive is one more than the streak ending yesterday. */
  lemma StreakStepsBack(cs: seq<Completion>, today: Day)
    requires StreakOf(cs, today) > 0
    ensures StreakOf(cs, today - 1) == StreakOf(cs, today) - 1
  {
    var r := StreakOf(cs, today);
    RunShift(cs, today, r);
    StreakUnique(cs, today - 1, r - 1);
  }

  /** Dropping today from a present run leaves a present run ending yesterday. */
  lemma RunShift(cs: seq<Completion>, today: Day, k: nat)
    requires k > 0 && PresentRun(cs, today, k)
    ensures PresentRun(cs, today - 1, k - 1)
  {
  }
}
