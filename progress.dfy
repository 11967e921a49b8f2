/**
 * `getProgressPercent(streak, goal = 30)`: `Math.round(Math.min((streak / goal) * 100, 100))`.
 * The quotient is taken exactly: `Math.round(x)` is floor(x + 1/2), and for a
 * positive denominator Dafny's `/` on integers is floor division.
 */
module ProgressPercent {

  /** `Math.round(num / den)`: the integer nearest to num/den, halves rounding up. */
  function RoundHalfUp(num: int, den: int): (r: int)
    requires den > 0
    ensures den * (2 * r - 1) <= 2 * num < den * (2 * r + 1)
  {
    (2 * num + den) / (2 * den)
  }

  lemma MulCancel(den: int, x: int, y: int)
    requires den > 0 && den * x < den * y
    ensures x < y
  {
  }

  /** Two rounded quotients over one denominator keep the order of their numerators. */
  lemma RoundHalfUpMonotone(a: int, b: int, den: int)
    requires den > 0 && a <= b
    ensures RoundHalfUp(a, den) <= RoundHalfUp(b, den)
  {
    var ra, rb := RoundHalfUp(a, den), RoundHalfUp(b, den);
    assert den * (2 * ra - 1) < den * (2 * rb + 1);
    MulCancel(den, 2 * ra - 1, 2 * rb + 1);
  }

  function GetProgressPercent(streak: int, goal: int := 30): (r: int)
    requires goal > 0
    ensures streak >= 0 ==> 0 <= r <= 100
    ensures streak >= goal ==> r == 100
    ensures streak == 0 ==> r == 0
  {
    if streak >= goal then 100 else RoundHalfUp(100 * streak, goal)
  }

  /** For a fixed goal, a longer streak never shows less progress. */
  lemma ProgressMonotone(a: int, b: int, goal: int)
    requires goal > 0 && a <= b
    ensures GetProgressPercent(a, goal) <= GetProgressPercent(b, goal)
  {
    if b < goal {
      RoundHalfUpMonotone(100 * a, 100 * b, goal);
    } else if a < goal {
      RoundHalfUpMonotone(100 * a, 100 * goal, goal);
    }
  }

  /** With the default goal, the bar is full exactly from a 30-day streak on. */
  lemma DefaultGoalFullIffThirtyDays(streak: int)
    ensures GetProgressPercent(streak) == 100 <==> streak >= 30
  {
    if streak < 30 {
      ProgressMonotone(streak, 29, 30);
    }
  }
}
