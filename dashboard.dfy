/** The Dashboard page: adding a habit, the journal box, and the once-a-day quote. */
module DashboardPage {
  import opened Options
  import opened Text
  import opened HabitModel
  import opened Storage
  import opened DailyQuote

  /** The add-habit modal's fields (`newHabitTitle`, `habitType`, `habitTarget`, `habitUnit`, `habitIcon`). */
  datatype NewHabitForm = NewHabitForm(title: string, kind: Kind, target: string, unit: string, icon: string)

  /**
   * The Add button's `disabled` expression: the title is all whitespace, or a
   * numeric habit lacks its target or its unit.
   */
  predicate AddDisabled(form: NewHabitForm)
    ensures AddDisabled(form) <==> IsBlank(form.title) || (form.kind == Numeric && (form.target == "" || form.unit == ""))
  {
    TrimEmptyIffBlank(form.title);
    Trim(form.title) == [] || (form.kind == Numeric && (form.target == "" || form.unit == ""))
  }

  /**
   * `addHabit()`, with the fresh id (`crypto.randomUUID()`) and the current
   * timestamp (`new Date().toISOString()`) passed in. A blank title, or a
   * numeric habit missing its target or unit, leaves the list as it was;
   * otherwise the new habit is appended at the end. The list is unchanged
   * exactly when the Add button would have been disabled.
   */
  method AddHabit(habits: seq<Habit>, form: NewHabitForm, newId: string, now: string) returns (r: seq<Habit>)
    ensures IsBlank(form.title) ==> r == habits
    ensures form.kind == Numeric && (form.target == "" || form.unit == "") ==> r == habits
    ensures r == habits <==> AddDisabled(form)
    ensures r != habits ==> |r| == |habits| + 1 && r[..|habits|] == habits
    ensures r != habits ==> var h := r[|habits|];
      h.id == newId && h.title == form.title && h.kind == form.kind && h.icon == form.icon
      && h.startDate == now && h.completedDates == [] && !h.paused
      && (form.kind == Boolean ==> h.target == None && h.unit == None)
      && (form.kind == Numeric ==> h.target == Some(NumberOf(form.target)) && h.unit == Some(form.unit))
  {
    TrimEmptyIffBlank(form.title);
    if Trim(form.title) == [] {
      return habits;
    }
    var newHabit := Habit(newId, form.title, form.kind, form.icon, now, [], false, None, None);
    if form.kind == Numeric {
      if form.target == "" || form.unit == "" {
        return habits;
      }
      newHabit := newHabit.(target := Some(NumberOf(form.target)));
      newHabit := newHabit.(unit := Some(form.unit));
    }
    r := habits + [newHabit];
    assert |r| != |habits|;
  }

  /** `saveJournal()` on the Dashboard: blank text does nothing; otherwise today's entry becomes the text. */
  function SaveJournal(journal: map<string, string>, today: string, text: string): (r: map<string, string>)
    ensures Trim(text) == [] ==> r == journal
    ensures Trim(text) != [] ==> r.Keys == journal.Keys + {today} && r[today] == text
    ensures forall k :: k in journal && k != today ==> k in r && r[k] == journal[k]
  {
    if Trim(text) == [] then journal else journal[today := text]
  }

  /** The Dashboard's journal box never deletes an entry. */
  lemma DashboardSaveNeverDeletes(journal: map<string, string>, today: string, text: string)
    ensures journal.Keys <= SaveJournal(journal, today, text).Keys
  {
  }

  const QUOTE_KEY := "daily_quote"
  const QUOTE_DATE_KEY := "quote_date"

  /** `savedQuote && savedDate === today`: a non-empty quote stored, and the stored date is today. */
  predicate CanReuse(items: map<string, string>, today: string)
    ensures CanReuse(items, today) <==>
      QUOTE_KEY in items && items[QUOTE_KEY] != "" && QUOTE_DATE_KEY in items && items[QUOTE_DATE_KEY] == today
  {
    Lookup(items, QUOTE_KEY).Some? && Lookup(items, QUOTE_KEY).value != ""
    && Lookup(items, QUOTE_DATE_KEY) == Some(today)
  }

  /**
   * The quote initialiser on a storage snapshot: the stored quote is reused
   * when it is non-empty and stored for today; otherwise today's quote is
   * computed and both quote and date are written. Returns the quote shown
   * and the storage afterwards, which always holds that quote under today.
   */
  function QuoteStep(items: map<string, string>, today: string, quotes: seq<string>): (r: (string, map<string, string>))
    requires |quotes| > 0
    ensures CanReuse(items, today) ==> r == (items[QUOTE_KEY], items)
    ensures !CanReuse(items, today) ==> r.0 == GetDailyQuote(today, quotes)
    ensures r.1.Keys == items.Keys + {QUOTE_KEY, QUOTE_DATE_KEY}
    ensures r.1[QUOTE_KEY] == r.0 && r.1[QUOTE_DATE_KEY] == today
    ensures forall k :: k in items && k != QUOTE_KEY && k != QUOTE_DATE_KEY ==> r.1[k] == items[k]
  {
    var savedQuote := Lookup(items, QUOTE_KEY);
    var savedDate := Lookup(items, QUOTE_DATE_KEY);
    if savedQuote.Some? && savedQuote.value != "" && savedDate == Some(today) then
      (savedQuote.value, items)
    else
      var quote := GetDailyQuote(today, quotes);
      (quote, items[QUOTE_KEY := quote][QUOTE_DATE_KEY := today])
  }

  /** The `useState` initialiser of `dailyQuote`, reading and writing the store. */
  method InitDailyQuote(store: LocalStorage, today: string, quotes: seq<string>) returns (quote: string)
    requires |quotes| > 0
    modifies store
    ensures (quote, store.items) == QuoteStep(old(store.items), today, quotes)
  {
    var savedQuote := store.GetItem(QUOTE_KEY);
    var savedDate := store.GetItem(QUOTE_DATE_KEY);
    if savedQuote.Some? && savedQuote.value != "" && savedDate == Some(today) {
      return savedQuote.value;
    }
    quote := GetDailyQuote(today, quotes);
    store.SetItem(QUOTE_KEY, quote);
    store.SetItem(QUOTE_DATE_KEY, today);
  }

  /** Loading the Dashboard again the same day shows the same quote and leaves the store as it is. */
  lemma QuoteStableWithinDay(items: map<string, string>, today: string, quotes: seq<string>)
    requires |quotes| > 0
    ensures QuoteStep(QuoteStep(items, today, quotes).1, today, quotes) == QuoteStep(items, today, quotes)
  {
    var (q1, s1) := QuoteStep(items, today, quotes);
    if q1 == "" {
      assert s1[QUOTE_KEY := q1][QUOTE_DATE_KEY := today] == s1;
    }
  }

  /** On a day with no quote stored for it, the quote shown is today's computed quote, one of the list. */
  lemma NewDayComputesQuote(items: map<string, string>, today: string, quotes: seq<string>)
    requires |quotes| > 0 && Lookup(items, QUOTE_DATE_KEY) != Some(today)
    ensures QuoteStep(items, today, quotes).0 == GetDailyQuote(today, quotes)
    ensures QuoteStep(items, today, quotes).0 in quotes
  {
  }
}
