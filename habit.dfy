/**
 * The habit record and its completion records.
 *
 * `completedDates` mixes two shapes: bare date strings, written by the boolean
 * toggle, and `{date, value}` objects, written by numeric saves. Every
 * presence test in the application is `completedDates.includes(dateStr)`,
 * a strict-equality search for a string, so only the bare strings are ever
 * seen by "done today", streaks, daily counts and the calendar.
 */
module HabitModel {
  import opened Options

  /**
   * The value handed to a numeric save: the text of a number input, a
   * number, or one of the other falsy values (`undefined`, `null`, `NaN`,
   * `false`), which a save treats alike.
   */
  datatype Amount = AmountText(text: string) | AmountNumber(n: real) | AmountAbsent

  /** JavaScript falsiness `!value`: the empty string, zero, and every absent value. */
  predicate Falsy(v: Amount)
    ensures v.AmountText? ==> (Falsy(v) <==> |v.text| == 0)
    ensures v.AmountNumber? ==> (Falsy(v) <==> v.n == 0.0)
    ensures v.AmountAbsent? ==> Falsy(v)
  {
    v == AmountText("") || v == AmountNumber(0.0) || v == AmountAbsent
  }

  /** One element of `completedDates`. */
  datatype Completion = DateOnly(date: string) | DateValue(date: string, value: Amount)

  /** The `type` field: "boolean" or "numeric". */
  datatype Kind = Boolean | Numeric

  /** The result of `Number(text)`, kept as the text converted (the float parse is not modelled). */
  datatype NumberOf = NumberOf(text: string)

  /**
   * One habit. `target` and `unit` are `undefined` (None) unless set for a
   * numeric habit; an absent `paused` reads as false.
   */
  datatype Habit = Habit(
    id: string,
    title: string,
    kind: Kind,
    icon: string,
    startDate: string,
    completedDates: seq<Completion>,
    paused: bool,
    target: Option<NumberOf>,
    unit: Option<string>)

  /**
   * `completedDates.includes(date)`: some element is that very string under
   * strict equality, so an object record never matches.
   */
  predicate Includes(cs: seq<Completion>, date: string) {
    DateOnly(date) in cs
  }

  /** `includes` holds exactly when some position holds a bare date string equal to `date`. */
  lemma IncludesAt(cs: seq<Completion>, date: string)
    ensures Includes(cs, date) <==> exists i :: 0 <= i < |cs| && cs[i].DateOnly? && cs[i].date == date
  {
  }

  /** The distinct bare date strings of a record list. */
  function DateStrings(cs: seq<Completion>): (r: set<string>)
    ensures forall date :: date in r <==> Includes(cs, date)
  {
    set c | c in cs && c.DateOnly? :: c.date
  }

  /**
   * `habits.filter((h) => h.completedDates.includes(date)).length`, counted
   * left to right as the `forEach` loop of the weekly statistics does.
   */
  function CountIncluding(habits: seq<Habit>, date: string): (r: nat)
    ensures r <= |habits|
  {
    if habits == [] then 0
    else
      CountIncluding(habits[..|habits| - 1], date)
      + (if Includes(habits[|habits| - 1].completedDates, date) then 1 else 0)
  }

  /** The positions of the habits whose records include `date`. */
  function IndicesIncluding(habits: seq<Habit>, date: string): set<int> {
    set i | 0 <= i < |habits| && Includes(habits[i].completedDates, date)
  }

  /** The count is the number of habits holding the date: an independent, set-based reading. */
  lemma {:induction false} CountIncludingIsCardinality(habits: seq<Habit>, date: string)
    ensures CountIncluding(habits, date) == |IndicesIncluding(habits, date)|
  {
    if habits != [] {
      var n := |habits| - 1;
      var init := habits[..n];
      CountIncludingIsCardinality(init, date);
      var s := IndicesIncluding(init, date);
      if Includes(habits[n].completedDates, date) {
        assert IndicesIncluding(habits, date) == s + {n};
      } else {
        assert IndicesIncluding(habits, date) == s;
      }
    }
  }

  /** No habit holds the date exactly when the count is zero; every habit holds it exactly when it is full. */
  lemma {:induction false} CountIncludingExtremes(habits: seq<Habit>, date: string)
    ensures CountIncluding(habits, date) == 0 <==>
      forall i :: 0 <= i < |habits| ==> !Includes(habits[i].completedDates, date)
    ensures CountIncluding(habits, date) == |habits| <==>
      forall i :: 0 <= i < |habits| ==> Includes(habits[i].completedDates, date)
  {
    if habits != [] {
      var n := |habits| - 1;
      CountIncludingExtremes(habits[..n], date);
      assert forall i :: 0 <= i < n ==> habits[..n][i] == habits[i];
    }
  }
}
