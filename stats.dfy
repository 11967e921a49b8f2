/**
 * `getLast7DaysStats(habits)`: for each of the last seven days, oldest first,
 * the number of habits whose `completedDates` include that day's string.
 * The chart label (`toLocaleDateString("tr-TR")`) is replaced by the day itself.
 */
module Stats {
  import opened Dates
  import opened HabitModel

  datatype DayStat = DayStat(day: Day, completed: nat)

  /**
   * What the function returns: seven entries for consecutive days, oldest
   * first, ending today; each count is the number of habits holding that
   * day's string, so it never exceeds the number of habits.
   */
  function Last7DaysStats(habits: seq<Habit>, today: Day): (r: seq<DayStat>)
    ensures |r| == 7 && r[6].day == today
    ensures forall k :: 0 <= k < 6 ==> r[k + 1].day == r[k].day + 1
    ensures forall k :: 0 <= k < 7 ==> r[k].completed == CountIncluding(habits, DayLabel(r[k].day))
    ensures forall k :: 0 <= k < 7 ==> r[k].completed <= |habits|
  {
    seq(7, k requires 0 <= k < 7 => DayStat(today - (6 - k), CountIncluding(habits, DayLabel(today - (6 - k)))))
  }

  method GetLast7DaysStats(habits: seq<Habit>, today: Day) returns (days: seq<DayStat>)
    ensures days == Last7DaysStats(habits, today)
  {
    days := [];
    var i := 6;
    while i >= 0
      invariant -1 <= i <= 6
      invariant |days| == 6 - i
      invariant days == Last7DaysStats(habits, today)[..6 - i]
    {
      var d := today - i;
      var dateStr := DayLabel(d);
      var completedCount := 0;
      var j := 0;
      while j < |habits|
        invariant 0 <= j <= |habits|
        invariant completedCount == CountIncluding(habits[..j], dateStr)
      {
        if Includes(habits[j].completedDates, dateStr) {
          completedCount := completedCount + 1;
        }
        assert habits[..j + 1][..j] == habits[..j];
        j := j + 1;
      }
      assert habits[..j] == habits;
      days := days + [DayStat(d, completedCount)];
      i := i - 1;
    }
  }
}
