/** The 30-day contribution calendar: one cell per day, coloured by how many habits include that day. */
module ContributionCalendar {
  import opened Dates
  import opened HabitModel

  /** `days`: the labels of the 30 days ending today, oldest first. */
  function CalendarDays(today: Day): (w: seq<string>)
    ensures |w| == 30 && w[29] == DayLabel(today)
    ensures forall i :: 0 <= i < 30 ==> w[i] == DayLabel(today - (29 - i))
  {
    LastDays(today, 30)
  }

  /** `getCompletionCount(date)`. */
  function GetCompletionCount(habits: seq<Habit>, date: string): (r: nat)
    ensures r <= |habits|
  {
    CountIncluding(habits, date)
  }

  /** `getColor(count)`: gray for none, three greens for one, two, and three or more. */
  function GetColor(count: int): (c: string)
    ensures count == 0 ==> c == "bg-gray-800"
    ensures count == 1 ==> c == "bg-green-700"
    ensures count == 2 ==> c == "bg-green-600"
    ensures count >= 3 ==> c == "bg-green-500"
  {
    if count == 0 then "bg-gray-800"
    else if count == 1 then "bg-green-700"
    else if count == 2 then "bg-green-600"
    else "bg-green-500"
  }

  /** The colour is one constant from three on, and the four buckets are told apart. */
  lemma ColorBuckets(a: nat, b: nat)
    ensures a >= 3 && b >= 3 ==> GetColor(a) == GetColor(b)
    ensures a < 3 && a != b ==> GetColor(a) != GetColor(b)
  {
  }

  datatype Cell = Cell(date: string, count: nat, color: string)

  /** The rendered cells, oldest first. */
  function Cells(habits: seq<Habit>, today: Day): (r: seq<Cell>)
    ensures |r| == 30
    ensures forall i :: 0 <= i < 30 ==> r[i].date == CalendarDays(today)[i]
    ensures forall i :: 0 <= i < 30 ==> r[i].count == GetCompletionCount(habits, r[i].date) && r[i].color == GetColor(r[i].count)
  {
    var days := CalendarDays(today);
    seq(30, i requires 0 <= i < 30 =>
      var count := GetCompletionCount(habits, days[i]);
      Cell(days[i], count, GetColor(count)))
  }

  /** A cell is gray exactly when no habit has that day's string. */
  lemma GrayIffNoHabit(habits: seq<Habit>, date: string)
    ensures GetColor(GetCompletionCount(habits, date)) == "bg-gray-800" <==>
      forall i :: 0 <= i < |habits| ==> !Includes(habits[i].completedDates, date)
  {
    CountIncludingExtremes(habits, date);
    ColorBuckets(GetCompletionCount(habits, date), 0);
  }
}
