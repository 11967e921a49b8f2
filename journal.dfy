/** The Journal page: saving or deleting an entry, `hasEntry`, the 30-day sidebar and the entry count. */
module JournalPage {
  import opened Text
  import opened Dates
  import DashboardPage
  import opened SetFacts

  /** `text && text.trim().length > 0`: the text is not all whitespace. */
  predicate ShowsText(text: string)
    ensures ShowsText(text) <==> !IsBlank(text)
  {
    TrimEmptyIffBlank(text);
    text != "" && |Trim(text)| > 0
  }

  /**
   * `hasEntry(date)`: the key exists with a truthy text whose trimmed length
   * is positive, that is, text that is not all whitespace.
   */
  predicate HasEntry(journal: map<string, string>, date: string)
    ensures HasEntry(journal, date) <==> date in journal && !IsBlank(journal[date])
  {
    date in journal && ShowsText(journal[date])
  }

  /**
   * `saveJournal()` on the Journal page: whitespace-only text deletes the
   * selected date's key from a copy of the map; other text is stored as typed.
   * Keys other than the selected date keep their text.
   */
  method SaveJournal(journal: map<string, string>, selectedDate: string, journalText: string)
    returns (r: map<string, string>)
    ensures IsBlank(journalText) ==> r == journal - {selectedDate}
    ensures !IsBlank(journalText) ==> r == journal[selectedDate := journalText]
    ensures HasEntry(r, selectedDate) <==> !IsBlank(journalText)
    ensures forall k :: k != selectedDate ==> (k in r <==> k in journal) && (k in r ==> r[k] == journal[k])
  {
    TrimEmptyIffBlank(journalText);
    if Trim(journalText) == [] {
      var newJournal := journal;
      newJournal := newJournal - {selectedDate};
      return newJournal;
    }
    r := journal[selectedDate := journalText];
  }

  /** The keys that show an entry. */
  function EntryKeys(journal: map<string, string>): set<string> {
    set k | k in journal && HasEntry(journal, k)
  }

  /** "Total Entries": `Object.keys(journal).filter((k) => hasEntry(k)).length`. */
  function TotalEntries(journal: map<string, string>): (n: nat)
    ensures n <= |journal|
  {
    assert EntryKeys(journal) <= journal.Keys;
    SubsetCardinality(EntryKeys(journal), journal.Keys);
    |EntryKeys(journal)|
  }

  /** A blank save drops the count by one if the date had an entry; otherwise the count is unchanged. */
  lemma BlankSaveCount(journal: map<string, string>, selectedDate: string)
    ensures TotalEntries(journal - {selectedDate})
      == TotalEntries(journal) - (if HasEntry(journal, selectedDate) then 1 else 0)
  {
    var after := journal - {selectedDate};
    forall k ensures k in EntryKeys(after) <==> k in EntryKeys(journal) - {selectedDate} {
      if k in after {
        assert after[k] == journal[k];
      }
    }
    assert EntryKeys(after) == EntryKeys(journal) - {selectedDate};
  }

  /** A non-blank save raises the count by one if the date had no entry; otherwise the count is unchanged. */
  lemma TextSaveCount(journal: map<string, string>, selectedDate: string, text: string)
    requires !IsBlank(text)
    ensures TotalEntries(journal[selectedDate := text])
      == TotalEntries(journal) + (if HasEntry(journal, selectedDate) then 0 else 1)
  {
    var after := journal[selectedDate := text];
    assert HasEntry(after, selectedDate);
    forall k ensures k in EntryKeys(after) <==> k in EntryKeys(journal) + {selectedDate} {
      if k != selectedDate && k in after {
        assert after[k] == journal[k];
        assert HasEntry(after, k) == HasEntry(journal, k);
      }
    }
    assert EntryKeys(after) == EntryKeys(journal) + {selectedDate};
  }

  /**
   * The two pages disagree on blank text: the Dashboard keeps an existing
   * entry, the Journal page deletes it.
   */
  lemma BlankSaveDiffers(journal: map<string, string>, date: string, text: string)
    requires HasEntry(journal, date) && IsBlank(text)
    ensures HasEntry(DashboardPage.SaveJournal(journal, date, text), date)
    ensures !HasEntry(journal - {date}, date)
  {
  }

  /** `getLast30Days()`: the labels of the 30 days ending today, oldest first. */
  function GetLast30Days(today: Day): (w: seq<string>)
    ensures |w| == 30 && w[29] == DayLabel(today)
    ensures forall i :: 0 <= i < 30 ==> w[i] == DayLabel(today - (29 - i))
  {
    LastDays(today, 30)
  }

  /** A sequence read back to front. */
  function Reversed(s: seq<string>): (r: seq<string>)
    ensures |r| == |s|
  {
    seq(|s|, i requires 0 <= i < |s| => s[|s| - 1 - i])
  }

  /** `last30Days.reverse()`: the sidebar turns the window around in place, newest first. */
  method ReverseInPlace(a: array<string>)
    modifies a
    ensures a[..] == Reversed(old(a[..]))
  {
    var i, j := 0, a.Length - 1;
    while i < j
      invariant 0 <= i <= a.Length && j == a.Length - 1 - i
      invariant i <= j + 1
      invariant forall k :: 0 <= k < i ==> a[k] == old(a[a.Length - 1 - k]) && a[a.Length - 1 - k] == old(a[k])
      invariant forall k :: i <= k <= j ==> a[k] == old(a[k])
    {
      a[i], a[j] := a[j], a[i];
      i, j := i + 1, j - 1;
    }
  }

  /** After the reversal the sidebar lists today first, then each earlier day in turn. */
  lemma SidebarNewestFirst(today: Day)
    ensures forall k :: 0 <= k < 30 ==> Reversed(GetLast30Days(today))[k] == DayLabel(today - k)
  {
    var w := GetLast30Days(today);
    var r := Reversed(w);
    forall k | 0 <= k < 30
      ensures r[k] == DayLabel(today - k)
    {
      assert r[k] == w[29 - k];
      assert w[29 - k] == DayLabel(today - (29 - (29 - k)));
    }
  }
}
