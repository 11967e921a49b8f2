/**
 * The habit-list updaters of the App component. Each builds a new list with
 * `map` or `filter` and hands it to `setHabits`, which replaces the list
 * wholesale; here each is a function from the old list to the new one.
 */
module App {
  import opened Dates
  import opened HabitModel

  /** `cs.filter((d) => d !== x)`: drops every copy of `x`, keeping the rest in order. */
  function RemoveAll(cs: seq<Completion>, x: Completion): (r: seq<Completion>)
    ensures multiset(r) == multiset(cs)[x := 0]
  {
    if cs == [] then []
    else
      assert cs == [cs[0]] + cs[1..];
      (if cs[0] == x then [] else [cs[0]]) + RemoveAll(cs[1..], x)
  }

  /** Filtering distributes over concatenation: the kept records keep their relative order. */
  lemma {:induction false} RemoveAllAppend(a: seq<Completion>, b: seq<Completion>, x: Completion)
    ensures RemoveAll(a + b, x) == RemoveAll(a, x) + RemoveAll(b, x)
  {
    if a == [] {
      assert a + b == b;
    } else {
      assert (a + b)[1..] == a[1..] + b;
      RemoveAllAppend(a[1..], b, x);
    }
  }

  /** Filtering out a value that does not occur changes nothing. */
  lemma {:induction false} RemoveAllAbsent(cs: seq<Completion>, x: Completion)
    requires x !in cs
    ensures RemoveAll(cs, x) == cs
  {
    if cs != [] {
      assert x !in cs[1..];
      RemoveAllAbsent(cs[1..], x);
    }
  }

  /** The boolean toggle on one record list: remove every copy of today's string if present, else append one. */
  function ToggleDates(cs: seq<Completion>, today: string): (r: seq<Completion>)
    ensures Includes(r, today) <==> !Includes(cs, today)
    ensures forall c :: c != DateOnly(today) ==> (c in r <==> c in cs)
    ensures !Includes(cs, today) ==> r == cs + [DateOnly(today)]
    ensures Includes(cs, today) ==> multiset(r) == multiset(cs)[DateOnly(today) := 0]
  {
    if Includes(cs, today) then
      var r := RemoveAll(cs, DateOnly(today));
      assert forall c :: c in r <==> c in multiset(r);
      r
    else
      cs + [DateOnly(today)]
  }

  /** Starting from "not done", toggling twice restores the record list exactly. */
  lemma ToggleTwiceRestores(cs: seq<Completion>, today: string)
    requires !Includes(cs, today)
    ensures ToggleDates(ToggleDates(cs, today), today) == cs
  {
    RemoveAllAppend(cs, [DateOnly(today)], DateOnly(today));
    RemoveAllAppend([], [], DateOnly(today));
    RemoveAllAbsent(cs, DateOnly(today));
  }

  /** Starting from "done", toggling twice leaves a single copy of today's string, moved to the end. */
  lemma ToggleTwiceFromDone(cs: seq<Completion>, today: string)
    requires Includes(cs, today)
    ensures ToggleDates(ToggleDates(cs, today), today) == RemoveAll(cs, DateOnly(today)) + [DateOnly(today)]
  {
  }

  /** `toggleHabit(id)`: only an unpaused habit with that id has its records toggled. */
  function ToggleHabit(habits: seq<Habit>, id: string, today: Day): (r: seq<Habit>)
    ensures |r| == |habits|
    ensures forall i :: 0 <= i < |habits| ==> r[i] == habits[i].(completedDates := r[i].completedDates)
    ensures forall i :: 0 <= i < |habits| && (habits[i].id != id || habits[i].paused) ==> r[i] == habits[i]
    ensures forall i :: 0 <= i < |habits| && habits[i].id == id && !habits[i].paused ==>
      r[i].completedDates == ToggleDates(habits[i].completedDates, DayLabel(today))
  {
    seq(|habits|, i requires 0 <= i < |habits| =>
      var h := habits[i];
      if h.id != id || h.paused then h
      else h.(completedDates := ToggleDates(h.completedDates, DayLabel(today))))
  }

  /** `cs.filter((c) => typeof c === "string" || c.date !== date)`: drops the value records for `date`. */
  function KeepOthers(cs: seq<Completion>, date: string): (r: seq<Completion>)
    ensures forall c :: c in r <==> c in cs && (c.DateOnly? || c.date != date)
    ensures |r| <= |cs|
  {
    if cs == [] then []
    else
      (if cs[0].DateOnly? || cs[0].date != date then [cs[0]] else []) + KeepOthers(cs[1..], date)
  }

  lemma {:induction false} KeepOthersAppend(a: seq<Completion>, b: seq<Completion>, date: string)
    ensures KeepOthers(a + b, date) == KeepOthers(a, date) + KeepOthers(b, date)
  {
    if a == [] {
      assert a + b == b;
    } else {
      assert (a + b)[1..] == a[1..] + b;
      KeepOthersAppend(a[1..], b, date);
    }
  }

  lemma {:induction false} KeepOthersIdempotent(cs: seq<Completion>, date: string)
    ensures KeepOthers(KeepOthers(cs, date), date) == KeepOthers(cs, date)
  {
    if cs != [] {
      var head := if cs[0].DateOnly? || cs[0].date != date then [cs[0]] else [];
      KeepOthersAppend(head, KeepOthers(cs[1..], date), date);
      KeepOthersIdempotent(cs[1..], date);
      if head != [] {
        assert KeepOthers(head, date) == head by {
          assert head[1..] == [];
        }
      }
    }
  }

  /** The values of the `{date, value}` records for `date`, in order. */
  function ValuesOn(cs: seq<Completion>, date: string): seq<Amount> {
    if cs == [] then []
    else
      (if cs[0].DateValue? && cs[0].date == date then [cs[0].value] else []) + ValuesOn(cs[1..], date)
  }

  lemma {:induction false} ValuesOnAppend(a: seq<Completion>, b: seq<Completion>, date: string)
    ensures ValuesOn(a + b, date) == ValuesOn(a, date) + ValuesOn(b, date)
  {
    if a == [] {
      assert a + b == b;
    } else {
      assert (a + b)[1..] == a[1..] + b;
      ValuesOnAppend(a[1..], b, date);
    }
  }

  /** The numeric save on one record list: drop today's value records, then append the new one. */
  function RecordNumeric(cs: seq<Completion>, date: string, value: Amount): (r: seq<Completion>)
    ensures |r| >= 1 && r[|r| - 1] == DateValue(date, value)
    ensures forall c :: c in r[..|r| - 1] <==> c in cs && (c.DateOnly? || c.date != date)
  {
    KeepOthers(cs, date) + [DateValue(date, value)]
  }

  /** After a save the list holds exactly one value for that date, the new one. */
  lemma {:induction false} RecordNumericSingleValue(cs: seq<Completion>, date: string, value: Amount)
    ensures ValuesOn(RecordNumeric(cs, date, value), date) == [value]
  {
    var kept := KeepOthers(cs, date);
    ValuesOnAppend(kept, [DateValue(date, value)], date);
    NoValuesOnKept(cs, date);
    assert [DateValue(date, value)][1..] == [];
  }

  lemma {:induction false} NoValuesOnKept(cs: seq<Completion>, date: string)
    ensures ValuesOn(KeepOthers(cs, date), date) == []
  {
    if cs != [] {
      var head := if cs[0].DateOnly? || cs[0].date != date then [cs[0]] else [];
      ValuesOnAppend(head, KeepOthers(cs[1..], date), date);
      NoValuesOnKept(cs[1..], date);
      if head != [] {
        assert head[1..] == [];
      }
    }
  }

  /** Values recorded for other dates are kept, in order. */
  lemma {:induction false} RecordNumericKeepsOtherDates(cs: seq<Completion>, date: string, other: string, value: Amount)
    requires other != date
    ensures ValuesOn(RecordNumeric(cs, date, value), other) == ValuesOn(cs, other)
  {
    ValuesOnAppend(KeepOthers(cs, date), [DateValue(date, value)], other);
    assert [DateValue(date, value)][1..] == [];
    KeptValuesOnOther(cs, date, other);
  }

  lemma {:induction false} KeptValuesOnOther(cs: seq<Completion>, date: string, other: string)
    requires other != date
    ensures ValuesOn(KeepOthers(cs, date), other) == ValuesOn(cs, other)
  {
    if cs != [] {
      var head := if cs[0].DateOnly? || cs[0].date != date then [cs[0]] else [];
      ValuesOnAppend(head, KeepOthers(cs[1..], date), other);
      KeptValuesOnOther(cs[1..], date, other);
      if head != [] {
        assert head[1..] == [];
      }
    }
  }

  /** Saving again replaces the value rather than accumulating. */
  lemma SaveAgainReplaces(cs: seq<Completion>, date: string, v1: Amount, v2: Amount)
    ensures RecordNumeric(RecordNumeric(cs, date, v1), date, v2) == RecordNumeric(cs, date, v2)
  {
    var kept := KeepOthers(cs, date);
    KeepOthersAppend(kept, [DateValue(date, v1)], date);
    KeepOthersIdempotent(cs, date);
    assert KeepOthers([DateValue(date, v1)], date) == [];
  }

  /** A numeric save keeps every bare date string, so it never changes what `includes` sees. */
  lemma RecordNumericKeepsDateStrings(cs: seq<Completion>, date: string, value: Amount)
    ensures DateStrings(RecordNumeric(cs, date, value)) == DateStrings(cs)
  {
    var r := RecordNumeric(cs, date, value);
    var kept := r[..|r| - 1];
    assert r == kept + [DateValue(date, value)];
    forall x ensures x in DateStrings(r) <==> x in DateStrings(cs) {
      assert DateOnly(x) in r <==> DateOnly(x) in kept;
      assert DateOnly(x) in kept <==> DateOnly(x) in cs;
    }
  }

  /**
   * `saveNumericHabit(id, value)`: a falsy value changes nothing; otherwise
   * the habit with that id gets the new value record, whether or not it is paused.
   */
  function SaveNumericHabit(habits: seq<Habit>, id: string, value: Amount, today: Day): (r: seq<Habit>)
    ensures Falsy(value) ==> r == habits
    ensures |r| == |habits|
    ensures forall i :: 0 <= i < |habits| ==> r[i] == habits[i].(completedDates := r[i].completedDates)
    ensures forall i :: 0 <= i < |habits| && habits[i].id != id ==> r[i] == habits[i]
    ensures forall i :: 0 <= i < |habits| && habits[i].id == id && !Falsy(value) ==>
      r[i].completedDates == RecordNumeric(habits[i].completedDates, DayLabel(today), value)
  {
    if Falsy(value) then habits
    else
      seq(|habits|, i requires 0 <= i < |habits| =>
        var h := habits[i];
        if h.id != id then h
        else h.(completedDates := RecordNumeric(h.completedDates, DayLabel(today), value)))
  }

  /**
   * A habit row's Save button passes only the habit and no value, so the
   * value is `undefined` and the list comes back as it was.
   */
  lemma SaveWithoutValueKeepsHabits(habits: seq<Habit>, id: string, today: Day)
    ensures SaveNumericHabit(habits, id, AmountAbsent, today) == habits
  {
  }

  /** `deleteHabit(id)`: every habit with that id goes, every other habit stays. */
  function DeleteHabit(habits: seq<Habit>, id: string): (r: seq<Habit>)
    ensures forall h :: h in r <==> h in habits && h.id != id
    ensures |r| <= |habits|
  {
    if habits == [] then []
    else (if habits[0].id != id then [habits[0]] else []) + DeleteHabit(habits[1..], id)
  }

  /** Deletion keeps the survivors in their relative order. */
  lemma {:induction false} DeleteHabitAppend(a: seq<Habit>, b: seq<Habit>, id: string)
    ensures DeleteHabit(a + b, id) == DeleteHabit(a, id) + DeleteHabit(b, id)
  {
    if a == [] {
      assert a + b == b;
    } else {
      assert (a + b)[1..] == a[1..] + b;
      DeleteHabitAppend(a[1..], b, id);
    }
  }

  /** Deleting an id no habit has changes nothing. */
  lemma {:induction false} DeleteAbsentId(habits: seq<Habit>, id: string)
    requires forall i :: 0 <= i < |habits| ==> habits[i].id != id
    ensures DeleteHabit(habits, id) == habits
  {
    if habits != [] {
      DeleteAbsentId(habits[1..], id);
    }
  }

  /** `togglePause(id)`: flips `paused` on the habits with that id and touches nothing else. */
  function TogglePause(habits: seq<Habit>, id: string): (r: seq<Habit>)
    ensures |r| == |habits|
    ensures forall i :: 0 <= i < |habits| ==> r[i] == habits[i].(paused := r[i].paused)
    ensures forall i :: 0 <= i < |habits| ==>
      r[i].paused == (if habits[i].id == id then !habits[i].paused else habits[i].paused)
  {
    seq(|habits|, i requires 0 <= i < |habits| =>
      var h := habits[i];
      if h.id == id then h.(paused := !h.paused) else h)
  }

  /** Pausing twice restores the list. */
  lemma TogglePauseInvolution(habits: seq<Habit>, id: string)
    ensures TogglePause(TogglePause(habits, id), id) == habits
  {
  }

  /** While a habit is paused, the boolean toggle leaves the whole list unchanged for its id. */
  lemma PausedHabitIgnoresToggle(habits: seq<Habit>, id: string, today: Day)
    requires forall i :: 0 <= i < |habits| && habits[i].id == id ==> habits[i].paused
    ensures ToggleHabit(habits, id, today) == habits
  {
  }
}
