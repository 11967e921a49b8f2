/** The `badges` array: four fixed badges, each with a condition over the whole habit list. */
module Badges {
  import opened HabitModel

  /** The two shapes of condition the array uses. */
  datatype Rule =
    | SomeHasAtLeast(records: nat)     // habits.some((h) => h.completedDates.length >= records)
    | NonEmptyAtLeast(habitCount: nat) // habits.filter((h) => h.completedDates.length > 0).length >= habitCount

  datatype Badge = Badge(id: string, name: string, emoji: string, rule: Rule)

  const FIRST_CHECK := Badge("first-check", "First Step", "\U{1F463}", SomeHasAtLeast(1))
  const STREAK_7 := Badge("streak-7", "7 Day Streak", "\U{1F525}", SomeHasAtLeast(7))
  const STREAK_30 := Badge("streak-30", "30 Day Legend", "\U{1F3C6}", SomeHasAtLeast(30))
  const MULTI_HABIT := Badge("multi-habit", "Multi Tasker", "\U{26A1}", NonEmptyAtLeast(3))

  const AllBadges: seq<Badge> := [FIRST_CHECK, STREAK_7, STREAK_30, MULTI_HABIT]

  /**
   * `habits.filter((h) => h.completedDates.length > 0).length`: at most the
   * number of habits, and positive only when some habit has a record.
   */
  function CountNonEmpty(habits: seq<Habit>): (r: nat)
    ensures r <= |habits|
    ensures r > 0 ==> exists i :: 0 <= i < |habits| && |habits[i].completedDates| >= 1
  {
    if habits == [] then 0
    else
      var rest := CountNonEmpty(habits[1..]);
      assert rest > 0 ==> exists i :: 0 <= i < |habits| && |habits[i].completedDates| >= 1 by {
        if rest > 0 {
          var i :| 0 <= i < |habits[1..]| && |habits[1..][i].completedDates| >= 1;
          assert habits[i + 1] == habits[1..][i];
        }
      }
      (if |habits[0].completedDates| > 0 then 1 else 0) + rest
  }

  /**
   * A badge's `condition(habits)`. A badge whose threshold is positive is held
   * only when some habit has at least one record.
   */
  predicate Condition(b: Badge, habits: seq<Habit>)
    ensures Condition(b, habits) && b.rule.SomeHasAtLeast? && b.rule.records > 0 ==>
      exists i :: 0 <= i < |habits| && |habits[i].completedDates| >= 1
    ensures Condition(b, habits) && b.rule.NonEmptyAtLeast? && b.rule.habitCount > 0 ==>
      exists i :: 0 <= i < |habits| && |habits[i].completedDates| >= 1
  {
    match b.rule
    case SomeHasAtLeast(n) => exists i :: 0 <= i < |habits| && |habits[i].completedDates| >= n
    case NonEmptyAtLeast(n) => CountNonEmpty(habits) >= n
  }

  /** The badge list is exactly four badges in a fixed order. */
  lemma BadgeOrder()
    ensures |AllBadges| == 4
    ensures AllBadges[0].id == "first-check" && AllBadges[1].id == "streak-7"
    ensures AllBadges[2].id == "streak-30" && AllBadges[3].id == "multi-habit"
  {
  }

  /** The thresholds nest: "30 Day Legend" implies "7 Day Streak" implies "First Step". */
  lemma BadgeThresholdsNest(habits: seq<Habit>)
    ensures Condition(STREAK_30, habits) ==> Condition(STREAK_7, habits)
    ensures Condition(STREAK_7, habits) ==> Condition(FIRST_CHECK, habits)
  {
  }

  /** "Multi Tasker" holds iff at least three habits have records, and it implies "First Step". */
  lemma MultiTaskerImpliesFirstStep(habits: seq<Habit>)
    ensures Condition(MULTI_HABIT, habits) <==> CountNonEmpty(habits) >= 3
    ensures Condition(MULTI_HABIT, habits) ==> Condition(FIRST_CHECK, habits)
  {
  }

  /** "First Step" holds exactly when some habit is non-empty, i.e. when the non-empty count is positive. */
  lemma {:induction false} FirstStepIffSomeNonEmpty(habits: seq<Habit>)
    ensures Condition(FIRST_CHECK, habits) <==> CountNonEmpty(habits) > 0
  {
    if CountNonEmpty(habits) == 0 && habits != [] {
      FirstStepIffSomeNonEmpty(habits[1..]);
      assert forall i :: 1 <= i < |habits| ==> habits[i] == habits[1..][i - 1];
    }
  }

  /** Every badge condition implies "First Step": no badge can be held without a record. */
  lemma EveryBadgeImpliesFirstStep(b: Badge, habits: seq<Habit>)
    requires b in AllBadges
    ensures Condition(b, habits) ==> Condition(FIRST_CHECK, habits)
  {
    BadgeThresholdsNest(habits);
    MultiTaskerImpliesFirstStep(habits);
  }

  /** No badge holds for an empty habit list. */
  lemma NoBadgeForNoHabits(b: Badge)
    requires b in AllBadges
    ensures !Condition(b, [])
  {
  }

  /** One habit with exactly seven records earns "7 Day Streak" but not "30 Day Legend". */
  lemma SevenRecordsExample(h: Habit)
    requires |h.completedDates| == 7
    ensures Condition(STREAK_7, [h]) && !Condition(STREAK_30, [h])
  {
    assert [h][0] == h;
  }

  /** Three habits with one record each earn "Multi Tasker" and "First Step" but neither streak badge. */
  lemma ThreeSingleRecordsExample(h1: Habit, h2: Habit, h3: Habit)
    requires |h1.completedDates| == 1 && |h2.completedDates| == 1 && |h3.completedDates| == 1
    ensures Condition(MULTI_HABIT, [h1, h2, h3]) && Condition(FIRST_CHECK, [h1, h2, h3])
    ensures !Condition(STREAK_7, [h1, h2, h3]) && !Condition(STREAK_30, [h1, h2, h3])
  {
    var hs := [h1, h2, h3];
    assert hs[1..] == [h2, h3] && hs[1..][1..] == [h3] && hs[1..][1..][1..] == [];
    assert CountNonEmpty([h3]) == 1;
    assert CountNonEmpty([h2, h3]) == 2;
    assert hs[0] == h1;
  }
}
