/** The Habits page: the edit-save transform and the per-card figures. */
module HabitsPage {
  import opened Options
  import opened Dates
  import opened HabitModel
  import opened Streak
  import opened Achievements
  import opened ProgressPercent
  import App

  /** The edit form's fields (`editTitle`, `editType`, `editTarget`, `editUnit`, `editIcon`). */
  datatype EditForm = EditForm(title: string, kind: Kind, target: string, unit: string, icon: string)

  /** The habit after editing: descriptive fields from the form, everything else kept. */
  function ApplyEdit(h: Habit, form: EditForm): (r: Habit)
    ensures r.id == h.id && r.completedDates == h.completedDates
    ensures r.startDate == h.startDate && r.paused == h.paused
    ensures r.title == form.title && r.kind == form.kind && r.icon == form.icon
    ensures form.kind == Boolean ==> r.target == None && r.unit == None
    ensures form.kind == Numeric ==> r.target == Some(NumberOf(form.target)) && r.unit == Some(form.unit)
  {
    h.(title := form.title, kind := form.kind, icon := form.icon,
       target := if form.kind == Numeric then Some(NumberOf(form.target)) else None,
       unit := if form.kind == Numeric then Some(form.unit) else None)
  }

  /**
   * `saveEditHabit()`: the habit whose id is `editingId` is edited; `editingId`
   * null (None) matches no habit. There is no validation: any title is stored.
   */
  function SaveEditHabit(habits: seq<Habit>, editingId: Option<string>, form: EditForm): (r: seq<Habit>)
    ensures |r| == |habits|
    ensures forall i :: 0 <= i < |habits| && Some(habits[i].id) != editingId ==> r[i] == habits[i]
    ensures forall i :: 0 <= i < |habits| && Some(habits[i].id) == editingId ==> r[i] == ApplyEdit(habits[i], form)
  {
    seq(|habits|, i requires 0 <= i < |habits| =>
      if Some(habits[i].id) != editingId then habits[i] else ApplyEdit(habits[i], form))
  }

  /** Editing the same way twice is the same as editing once. */
  lemma SaveEditIdempotent(habits: seq<Habit>, editingId: Option<string>, form: EditForm)
    ensures SaveEditHabit(SaveEditHabit(habits, editingId, form), editingId, form) == SaveEditHabit(habits, editingId, form)
  {
  }

  /**
   * `isDoneToday`: `completedDates.includes(today)`, where this page's `today`
   * is the local calendar date (`todayString()`), whereas the Check button and
   * the streak use the UTC date. `localToday` is the local day. "Done" in the
   * local day's sense is a positive streak counted from the local day.
   */
  predicate IsDoneToday(h: Habit, localToday: Day)
    ensures IsDoneToday(h, localToday) <==> StreakOf(h.completedDates, localToday) > 0
  {
    StreakZeroIffTodayMissing(h.completedDates, localToday);
    Includes(h.completedDates, DayLabel(localToday))
  }

  /** A habit whose records are all `{date, value}` objects never shows as done. */
  lemma ValueRecordsNeverDone(h: Habit, localToday: Day)
    requires forall i :: 0 <= i < |h.completedDates| ==> h.completedDates[i].DateValue?
    ensures !IsDoneToday(h, localToday)
  {
  }

  /**
   * A numeric save (dated by the UTC day) leaves "done today" and the streak
   * as they were, whatever the local day: it writes only an object record.
   */
  lemma NumericSaveKeepsDone(habits: seq<Habit>, id: string, value: Amount, utcToday: Day, localToday: Day, i: int)
    requires 0 <= i < |habits|
    ensures IsDoneToday(App.SaveNumericHabit(habits, id, value, utcToday)[i], localToday) == IsDoneToday(habits[i], localToday)
    ensures StreakOf(App.SaveNumericHabit(habits, id, value, utcToday)[i].completedDates, utcToday)
      == StreakOf(habits[i].completedDates, utcToday)
  {
    var r := App.SaveNumericHabit(habits, id, value, utcToday);
    if habits[i].id == id && !Falsy(value) {
      App.RecordNumericKeepsDateStrings(habits[i].completedDates, DayLabel(utcToday), value);
      assert Includes(r[i].completedDates, DayLabel(localToday)) <==> DayLabel(localToday) in DateStrings(r[i].completedDates);
      StreakDependsOnDateStrings(r[i].completedDates, habits[i].completedDates, utcToday);
    }
  }

  /**
   * The Check button toggles the UTC day. When the two clocks agree it flips
   * "done today" on an unpaused habit and does nothing on a paused one; when
   * they disagree the card's flag does not move at all.
   */
  lemma ToggleFlipsDone(habits: seq<Habit>, id: string, utcToday: Day, localToday: Day, i: int)
    requires 0 <= i < |habits| && habits[i].id == id
    ensures localToday == utcToday ==>
      IsDoneToday(App.ToggleHabit(habits, id, utcToday)[i], localToday) ==
      (if habits[i].paused then IsDoneToday(habits[i], localToday) else !IsDoneToday(habits[i], localToday))
    ensures localToday != utcToday ==>
      IsDoneToday(App.ToggleHabit(habits, id, utcToday)[i], localToday) == IsDoneToday(habits[i], localToday)
  {
    LabelRoundTrip(localToday);
    LabelRoundTrip(utcToday);
    assert localToday != utcToday ==> DateOnly(DayLabel(localToday)) != DateOnly(DayLabel(utcToday));
  }

  /** Checking an unpaused habit whose UTC day is not recorded gives it a streak of at least one. */
  lemma CheckStartsStreak(habits: seq<Habit>, id: string, utcToday: Day, i: int)
    requires 0 <= i < |habits| && habits[i].id == id && !habits[i].paused
    requires !Includes(habits[i].completedDates, DayLabel(utcToday))
    ensures StreakOf(App.ToggleHabit(habits, id, utcToday)[i].completedDates, utcToday) >= 1
  {
    StreakZeroIffTodayMissing(App.ToggleHabit(habits, id, utcToday)[i].completedDates, utcToday);
  }

  /**
   * Shortly after local midnight east of Greenwich the local day is one ahead
   * of the UTC day. A habit checked once, on the UTC day, then shows the Check
   * button although its card's streak is 1, and pressing Check removes that
   * record: the streak drops to 0 and the card still shows Check.
   */
  lemma LocalDayAheadOfUtc(h: Habit, utcToday: Day)
    requires h.completedDates == [DateOnly(DayLabel(utcToday))] && !h.paused
    ensures !IsDoneToday(h, utcToday + 1)
    ensures StreakOf(h.completedDates, utcToday) == 1
    ensures App.ToggleHabit([h], h.id, utcToday)[0].completedDates == []
    ensures StreakOf(App.ToggleHabit([h], h.id, utcToday)[0].completedDates, utcToday) == 0
    ensures !IsDoneToday(App.ToggleHabit([h], h.id, utcToday)[0], utcToday + 1)
  {
    LabelRoundTrip(utcToday - 1);
    LabelRoundTrip(utcToday);
    LabelRoundTrip(utcToday + 1);
    var cs := h.completedDates;
    assert !Includes(cs, DayLabel(utcToday + 1));
    assert !Includes(cs, DayLabel(utcToday - 1));
    StreakUnique(cs, utcToday, 1);
    var after := App.ToggleHabit([h], h.id, utcToday)[0].completedDates;
    assert multiset(after) == multiset(cs)[DateOnly(DayLabel(utcToday)) := 0] == multiset{};
    assert |after| == |multiset(after)| == 0;
    StreakOfEmpty(utcToday);
  }

  /** An edit never changes a habit's streak. */
  lemma EditKeepsStreak(habits: seq<Habit>, editingId: Option<string>, form: EditForm, today: Day, i: int)
    requires 0 <= i < |habits|
    ensures StreakOf(SaveEditHabit(habits, editingId, form)[i].completedDates, today) == StreakOf(habits[i].completedDates, today)
  {
  }

  /** A habit card's figures: streak, tier, progress bar and the Done flag. */
  datatype Card = Card(streak: nat, achievement: Option<Achievement>, progress: int, isDoneToday: bool)

  /**
   * The streak is counted from the UTC day (`calculateStreak`), the Done flag
   * from the local day, so the flag agrees with "streak > 0" when the clocks do.
   */
  function HabitCard(h: Habit, localToday: Day, utcToday: Day): (c: Card)
    ensures localToday == utcToday ==> (c.isDoneToday <==> c.streak > 0)
    ensures c.progress == 100 <==> c.achievement == Some(GOLD)
    ensures 0 <= c.progress <= 100
  {
    var streak := StreakOf(h.completedDates, utcToday);
    DefaultGoalFullIffThirtyDays(streak);
    Card(streak, GetAchievement(streak), GetProgressPercent(streak), IsDoneToday(h, localToday))
  }
}
