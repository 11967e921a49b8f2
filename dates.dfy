/**
 * Calendar days. The application names a day by the text "YYYY-MM-DD" and
 * moves between days with `setDate(getDate() - i)`. Here a day is an integer
 * (consecutive days are consecutive integers) and its label is the decimal
 * spelling of that integer; all the model relies on is that distinct days get
 * distinct labels, which DayLabelInjective proves.
 */
module Dates {
  import opened Options
  import opened Text

  type Day = int

  /** The date string of day `d`, as stored in `completedDates` and as a journal key. */
  function DayLabel(d: Day): string {
    if d >= 0 then NatToDecimal(d) else ['-'] + NatToDecimal(-d)
  }

  /** Reads a label back into its day; `None` for text that is no label. */
  function ParseDayLabel(s: string): Option<Day> {
    if s != [] && IsDecimal(s) then Some(DecimalValue(s))
    else if |s| >= 2 && s[0] == '-' && IsDecimal(s[1..]) then Some(0 - DecimalValue(s[1..]))
    else None
  }

  /** Every label reads back as the day it names. */
  lemma LabelRoundTrip(d: Day)
    ensures ParseDayLabel(DayLabel(d)) == Some(d)
  {
    if d >= 0 {
      DecimalRoundTrip(d);
    } else {
      var s := DayLabel(d);
      assert !IsDigit(s[0]);
      assert s[1..] == NatToDecimal(-d);
      DecimalRoundTrip(-d);
    }
  }

  /** Distinct days have distinct labels. */
  lemma DayLabelInjective(a: Day, b: Day)
    requires DayLabel(a) == DayLabel(b)
    ensures a == b
  {
    LabelRoundTrip(a);
    LabelRoundTrip(b);
  }

  /**
   * The labels of the `n` days ending today, oldest first: the shape of
   * `[...Array(n)].map((_, i) => { d.setDate(d.getDate() - (n - 1 - i)); ... })`.
   */
  function LastDays(today: Day, n: nat): (w: seq<string>)
    ensures |w| == n
  {
    seq(n, i requires 0 <= i < n => DayLabel(today - (n - 1 - i)))
  }

  /** The window is `n` consecutive days, oldest first, ending today, with no label twice. */
  lemma LastDaysShape(today: Day, n: nat)
    ensures n > 0 ==> LastDays(today, n)[n - 1] == DayLabel(today)
    ensures forall i :: 0 <= i < n ==> ParseDayLabel(LastDays(today, n)[i]) == Some(today - (n - 1) + i)
    ensures forall i, j :: 0 <= i < j < n ==> LastDays(today, n)[i] != LastDays(today, n)[j]
  {
    var w := LastDays(today, n);
    forall i | 0 <= i < n ensures ParseDayLabel(w[i]) == Some(today - (n - 1) + i) {
      LabelRoundTrip(today - (n - 1 - i));
    }
    forall i, j | 0 <= i < j < n ensures w[i] != w[j] {
      if w[i] == w[j] {
        DayLabelInjective(today - (n - 1 - i), today - (n - 1 - j));
      }
    }
  }
}
