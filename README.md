# Mindful Habits — a verified model of the habit-tracking logic

Mindful Habits is a small React habit tracker. A habit is either a daily
check ("boolean") or a daily amount ("numeric"). Its `completedDates` list
mixes two shapes of record: bare `"YYYY-MM-DD"` strings, written by the
check toggle, and `{date, value}` objects, written by numeric saves. The
pages derive everything else from that list:

- streaks and Gold/Silver/Bronze tiers;
- a progress bar toward 30 days;
- four badges;
- 7-day and 30-day completion counts;
- best streak, total completions and completed today.

The app also keeps a journal map from date to text, picks a quote of the
day with a once-a-day cache, and schedules a once-a-day reminder.

This project models that logic in Dafny and proves what each piece
promises. Each module follows one source file:

| module | file | form |
|---|---|---|
| `HabitModel` | shared records | datatypes `Habit`, `Completion`, `Amount`; `Includes` is `completedDates.includes(date)` |
| `Dates` | date strings | days are integers; `DayLabel` is an injective label (proved through a parse round trip) |
| `Streak` | `src/utils/streak.js` | `CalculateStreak` is the `while (true)` walk as a method, proved equal to the function `StreakOf` |
| `Achievements` | `src/utils/achievements.js` | the tier chain |
| `Badges` | `src/utils/badges.js` | the four badges and their conditions |
| `ProgressPercent` | `src/utils/progress.js` | `getProgressPercent` with round-half-up |
| `DailyQuote` | `src/utils/dailyQuote.js` | the character-code sum and index |
| `Stats` | `src/utils/stats.js` | `GetLast7DaysStats` is the nested counting loop, proved equal to `Last7DaysStats` |
| `App` | `src/App.jsx` | the four list transforms, as functions |
| `HabitsPage` | `src/pages/Habits.jsx` | `saveEditHabit`, `isDoneToday` and a habit card's figures |
| `DashboardPage` | `src/pages/Dashboard.jsx` | `AddHabit` and `InitDailyQuote` are imperative; the journal save is a map update |
| `JournalPage` | `src/pages/Journal.jsx` | `SaveJournal` copies and deletes; `ReverseInPlace` is the sidebar's in-place `reverse()` |
| `ProgressPage` | `src/pages/Progress.jsx` | the charts, the summary figures and the earned badges |
| `ContributionCalendar` | `src/components/ContributionCalendar.jsx` | the 30-day cells and their colours |
| `Reminders` | `src/components/Reminders.jsx` | settings, `NextTriggerDate` (imperative), arming, and the fire guard on `LocalStorage` |
| `Storage` | `localStorage` | `LocalStorage` is a class whose `items` map is updated in place |
| `Text`, `Options`, `SetFacts` | — | helpers: JavaScript `trim`, decimal spelling, `Option`, subset cardinality |

The clock is a parameter everywhere: `today` is a day number, and
reminder instants are local minutes since the epoch. A day's string is
`DayLabel(day)`. Since `DayLabel` is injective, "the string of day d is in
the list" means exactly "day d is recorded".

The Habits page takes two days. The toggle, the numeric save and the
streak use the UTC date of `toISOString()`; the page's done flag uses
`todayString()`. The two can differ near midnight, and the Habits-page
lemmas say what holds when they agree and what happens when they do not.

Where the written descriptions of the app and its code differ, the model
follows the code:

- a numeric save updates a paused habit too;
- the Dashboard's journal box ignores blank text rather than deleting the entry;
- the summary counts include paused habits;
- there is no numeric-goal evaluation, no weakest-day figure and no undo in the code, so none is modelled.

## Model

| member | source | states |
|---|---|---|
| HabitModel.DateStrings | src/utils/streak.js:8 | a string is among the distinct bare date strings exactly when `includes` finds it |
| HabitModel.IncludesAt | src/utils/streak.js:8 | `includes` holds iff some position holds a bare date string equal to the date (strict equality, so an object record never matches) |
| HabitModel.Falsy | src/App.jsx:41 | `!value`: a text amount is falsy iff empty, a number iff zero, and `undefined`/`null`/`NaN`/`false` always |
| HabitModel.CountIncluding | src/pages/Progress.jsx:24-26 | the number of habits whose records include a date is at most the number of habits |
| HabitModel.CountIncludingIsCardinality | src/components/ContributionCalendar.jsx:8-9 | the count equals the size of the set of positions of habits holding the date |
| HabitModel.CountIncludingExtremes | src/pages/Progress.jsx:63-67 | the count is 0 iff no habit holds the date, and equals the list length iff every habit does |
| Dates.LabelRoundTrip | src/utils/streak.js:6 | parsing a day's label gives that day back |
| Dates.DayLabelInjective | src/utils/streak.js:6 | two days with the same label are the same day |
| Dates.LastDaysShape | src/pages/Progress.jsx:16-20 | an n-day window ends at today, holds consecutive days oldest first, and has no repeated label |
| Text.TrimEmptyIffBlank | src/pages/Dashboard.jsx:53 | `trim()` gives the empty string exactly when the text is all whitespace |
| Text.Trim | src/pages/Dashboard.jsx:53 | `trim()` never lengthens the text, and what it returns neither starts nor ends with whitespace |
| Text.DecimalRoundTrip | src/utils/streak.js:6 | reading back a number's decimal spelling gives the number |
| Streak.StreakOf | src/utils/streak.js:1-17 | the streak k has today and the k-1 days before it present, day today-k absent, and k at most the number of distinct date strings |
| Streak.StreakFrom | src/utils/streak.js:5-14 | continuing the walk from a present run of k days stops at a run of at least k days whose next day back is absent |
| Streak.CalculateStreak | src/utils/streak.js:1-17 | the loop returns a present run whose next day back is missing, and that is `StreakOf` |
| Streak.StreakUnique | src/utils/streak.js:5-14 | any k with a present run and a missing day today-k is the streak |
| Streak.RunBound | src/utils/streak.js:5-14 | a present run is no longer than the number of distinct date strings, so the walk stops |
| Streak.WalkedLabelsFresh | src/utils/streak.js:10 | stepping back k days visits k different labels and never revisits one |
| Streak.StreakZeroIffTodayMissing | src/utils/streak.js:8-12 | the streak is 0 exactly when today's string is missing, whatever yesterday holds |
| Streak.StreakOfEmpty | src/utils/streak.js:1-17 | an empty list gives 0 |
| Streak.StreakDependsOnDateStrings | src/utils/streak.js:8 | lists with the same bare strings have the same streak, whatever their order, duplicates or object records |
| Streak.StreakIgnoresValueRecords | src/utils/streak.js:8 | appending `{date, value}` records never changes the streak |
| Streak.StreakStepsBack | src/utils/streak.js:9-10 | with a positive streak, the streak from yesterday is one less |
| Achievements.GetAchievement | src/utils/achievements.js:1-12 | Gold iff at least 30, Silver iff 14 to 29, Bronze iff 7 to 13, null iff below 7 |
| Achievements.TierMonotone | src/utils/achievements.js:2-11 | a longer streak never gets a lower tier |
| Badges.CountNonEmpty | src/utils/badges.js:28 | the number of habits with records is at most the number of habits, and positive only when some habit has a record |
| Badges.Condition | src/utils/badges.js:6-28 | a badge whose threshold is positive holds only when some habit has at least one record |
| Badges.BadgeOrder | src/utils/badges.js:1-30 | exactly four badges, in the order first-check, streak-7, streak-30, multi-habit |
| Badges.BadgeThresholdsNest | src/utils/badges.js:6-21 | "30 Day Legend" implies "7 Day Streak", which implies "First Step" |
| Badges.MultiTaskerImpliesFirstStep | src/utils/badges.js:27-28 | "Multi Tasker" holds iff at least three habits have records, and then "First Step" holds |
| Badges.FirstStepIffSomeNonEmpty | src/utils/badges.js:6-7 | "First Step" holds iff some habit has a record |
| Badges.EveryBadgeImpliesFirstStep | src/utils/badges.js:1-30 | every badge implies "First Step" |
| Badges.NoBadgeForNoHabits | src/utils/badges.js:1-30 | no badge holds for an empty habit list |
| Badges.SevenRecordsExample | src/utils/badges.js:13-21 | one habit with seven records of any dates earns "7 Day Streak" but not "30 Day Legend": a lifetime count, not a streak |
| Badges.ThreeSingleRecordsExample | src/utils/badges.js:6-28 | three habits with one record each earn "Multi Tasker" and "First Step" only |
| ProgressPercent.RoundHalfUp | src/utils/progress.js:3 | the result is the integer nearest to num/den, with halves rounded up as `Math.round` does |
| ProgressPercent.RoundHalfUpMonotone | src/utils/progress.js:3 | rounding is monotone in the numerator |
| ProgressPercent.GetProgressPercent | src/utils/progress.js:1-4 | for a non-negative streak the result is in [0, 100]; at least the goal gives 100; 0 gives 0 |
| ProgressPercent.ProgressMonotone | src/utils/progress.js:2-3 | the percentage never decreases as the streak grows |
| ProgressPercent.DefaultGoalFullIffThirtyDays | src/utils/progress.js:1-3 | with the default goal, 100 is reached exactly at 30 days |
| DailyQuote.CharCodeSum | src/utils/dailyQuote.js:5-7 | the sum is at least every single character code and at most the length times the largest code point |
| DailyQuote.CharCodeSumAppend | src/utils/dailyQuote.js:5-7 | the character-code sum of a concatenation is the sum of the parts' sums |
| DailyQuote.CharCodeSumPermutation | src/utils/dailyQuote.js:5-7 | strings with the same characters have the same sum |
| DailyQuote.QuoteIndex | src/utils/dailyQuote.js:4-8 | the index lies in [0, quotes.length) |
| DailyQuote.GetDailyQuote | src/utils/dailyQuote.js:3-11 | the quote is an element of the list, the one at the sum-modulo index |
| DailyQuote.SameCharactersSameQuote | src/utils/dailyQuote.js:3-11 | date strings that are anagrams of each other get the same quote |
| Stats.Last7DaysStats | src/utils/stats.js:1-29 | seven entries of consecutive days ending today; each count is the number of habits including that day, at most the list length |
| Stats.GetLast7DaysStats | src/utils/stats.js:1-29 | the counting loops produce exactly `Last7DaysStats`, leaving the habits untouched |
| App.RemoveAll | src/App.jsx:32 | the filter removes every copy of today's string and keeps every other record |
| App.RemoveAllAppend | src/App.jsx:32 | the filter distributes over concatenation |
| App.RemoveAllAbsent | src/App.jsx:32 | filtering out a string that is not there changes nothing |
| App.ToggleDates | src/App.jsx:31-33 | presence of today flips; other records stay; absent means append one copy, present means remove every copy |
| App.ToggleTwiceRestores | src/App.jsx:31-33 | toggling twice from not-done restores the list exactly |
| App.ToggleTwiceFromDone | src/App.jsx:31-33 | toggling twice from done moves one copy of today to the end and drops its duplicates |
| App.ToggleHabit | src/App.jsx:24-37 | same length; other ids and a paused target are unchanged; only the target's records change, by `ToggleDates` |
| App.KeepOthers | src/App.jsx:50-52 | keeps exactly the bare strings and the object records of other dates |
| App.KeepOthersAppend | src/App.jsx:50-52 | the filter distributes over concatenation |
| App.KeepOthersIdempotent | src/App.jsx:50-52 | filtering twice is filtering once |
| App.ValuesOnAppend | src/App.jsx:49-54 | the values recorded on a date distribute over concatenation |
| App.RecordNumeric | src/App.jsx:49-54 | today's object record is last, and the records before it are exactly those the filter keeps |
| App.RecordNumericSingleValue | src/App.jsx:49-54 | after a save, the date holds exactly one value, the saved one |
| App.NoValuesOnKept | src/App.jsx:50-52 | after the filter, no value remains for that date |
| App.RecordNumericKeepsOtherDates | src/App.jsx:50-52 | values recorded for other dates are unchanged, in order |
| App.KeptValuesOnOther | src/App.jsx:50-52 | the filter keeps the values of other dates, in order |
| App.SaveAgainReplaces | src/App.jsx:49-54 | saving twice on the same day equals saving only the second value |
| App.RecordNumericKeepsDateStrings | src/App.jsx:50-51 | a numeric save keeps the set of bare date strings |
| App.SaveNumericHabit | src/App.jsx:40-58 | a falsy value changes nothing; otherwise only the matching habits' records change, paused or not |
| App.SaveWithoutValueKeepsHabits | src/components/HabitItem.jsx:66 | the row's Save button passes no value (`undefined`), so the list comes back unchanged |
| App.DeleteHabit | src/App.jsx:60-62 | keeps exactly the habits with another id |
| App.DeleteHabitAppend | src/App.jsx:61 | deletion distributes over concatenation, so relative order is kept |
| App.DeleteAbsentId | src/App.jsx:61 | deleting an id nobody has changes nothing |
| App.TogglePause | src/App.jsx:64-70 | same length; `paused` flips on the matching ids only, and nothing else changes |
| App.TogglePauseInvolution | src/App.jsx:64-70 | pausing twice restores the list |
| App.PausedHabitIgnoresToggle | src/App.jsx:27-28 | toggling a paused habit changes nothing |
| HabitsPage.ApplyEdit | src/pages/Habits.jsx:26-33 | id, records, start date and paused kept; title, type and icon replaced; target and unit set for numeric and cleared for boolean |
| HabitsPage.SaveEditHabit | src/pages/Habits.jsx:21-39 | same length; habits with another id unchanged; the edited one is `ApplyEdit` (no validation) |
| HabitsPage.SaveEditIdempotent | src/pages/Habits.jsx:21-35 | saving the same edit twice is saving it once |
| HabitsPage.IsDoneToday | src/pages/Habits.jsx:63 | done on the page's day iff the streak counted from that day is positive |
| HabitsPage.ValueRecordsNeverDone | src/pages/Habits.jsx:63 | a habit with only object records never shows as done |
| HabitsPage.NumericSaveKeepsDone | src/pages/Habits.jsx:63 | a numeric save, dated by the UTC day, changes neither the page's done flag (whatever its day) nor the streak of any habit |
| HabitsPage.ToggleFlipsDone | src/pages/Habits.jsx:63 | with the page's day equal to the UTC day, toggling flips the done flag unless the habit is paused; with the days different, the flag does not move |
| HabitsPage.CheckStartsStreak | src/pages/Habits.jsx:60-63 | checking an unpaused habit whose UTC day is not recorded gives it a streak of at least 1 |
| HabitsPage.LocalDayAheadOfUtc | src/pages/Habits.jsx:8-63 | with the page's day one ahead of the UTC day and only the UTC day recorded, the card shows Check with streak 1, and Check removes that record: streak 0, still Check |
| HabitsPage.EditKeepsStreak | src/pages/Habits.jsx:60 | editing never changes a streak |
| HabitsPage.HabitCard | src/pages/Habits.jsx:59-63 | when the page's day is the UTC day, done iff the streak is positive; progress 100 iff Gold; progress in [0, 100] |
| DashboardPage.AddDisabled | src/pages/Dashboard.jsx:228-232 | the Add button is disabled iff the title is all whitespace, or a numeric habit lacks its target or unit |
| DashboardPage.AddHabit | src/pages/Dashboard.jsx:52-78 | blank title or a numeric habit without target or unit leaves the list; otherwise one new habit with the form's fields is appended |
| DashboardPage.SaveJournal | src/pages/Dashboard.jsx:81-85 | blank text changes nothing; other text sets today's key and keeps the rest |
| DashboardPage.DashboardSaveNeverDeletes | src/pages/Dashboard.jsx:82-83 | the Dashboard save never removes a key |
| DashboardPage.CanReuse | src/pages/Dashboard.jsx:34 | the stored quote is reused iff a non-empty quote is stored and the stored date is today |
| DashboardPage.QuoteStep | src/pages/Dashboard.jsx:30-40 | a stored quote dated today is reused; otherwise the computed quote is stored with today's date |
| DashboardPage.InitDailyQuote | src/pages/Dashboard.jsx:30-40 | the storage reads and writes give exactly `QuoteStep` |
| DashboardPage.QuoteStableWithinDay | src/pages/Dashboard.jsx:34-39 | a second visit on the same day changes neither quote nor storage |
| DashboardPage.NewDayComputesQuote | src/pages/Dashboard.jsx:36 | on a new day the quote is the day's computed one, from the list |
| JournalPage.ShowsText | src/pages/Journal.jsx:68 | a text counts as an entry iff it is not all whitespace |
| JournalPage.HasEntry | src/pages/Journal.jsx:68 | `hasEntry` holds iff the key exists with text that is not all whitespace |
| JournalPage.SaveJournal | src/pages/Journal.jsx:25-34 | blank text deletes the key; other text is stored untrimmed; other keys unchanged; `hasEntry` afterwards iff not blank |
| JournalPage.TotalEntries | src/pages/Journal.jsx:161 | the number of keys with an entry is at most the number of keys |
| JournalPage.BlankSaveCount | src/pages/Journal.jsx:25-34 | a blank save lowers "Total Entries" by one if the date had an entry, else leaves it |
| JournalPage.TextSaveCount | src/pages/Journal.jsx:33 | a non-blank save raises "Total Entries" by one if the date had no entry, else leaves it |
| JournalPage.BlankSaveDiffers | src/pages/Journal.jsx:26-31 | with blank text, the Dashboard keeps an existing entry while the Journal page deletes it |
| JournalPage.GetLast30Days | src/pages/Journal.jsx:37-43 | 30 labels, oldest first, ending today |
| JournalPage.ReverseInPlace | src/pages/Journal.jsx:90 | the array afterwards holds its old contents reversed |
| JournalPage.SidebarNewestFirst | src/pages/Journal.jsx:90 | the reversed sidebar lists today first and goes back one day per row |
| ProgressPage.Last7Days | src/pages/Progress.jsx:16-20 | seven labels, oldest first, ending today |
| ProgressPage.DailyCompletion | src/pages/Progress.jsx:22-27 | one count per day of the window, each the number of habits including that day |
| ProgressPage.WeeklyChartsAgree | src/pages/Progress.jsx:16-27 | the Progress chart and the Dashboard's weekly statistics show the same days and counts |
| ProgressPage.HabitStats | src/pages/Progress.jsx:29-32 | one entry per habit, in order, with its title and streak |
| ProgressPage.MaxOf | src/pages/Progress.jsx:46 | `Math.max` of a non-empty list is an element that no element exceeds |
| ProgressPage.BestStreak | src/pages/Progress.jsx:45-49 | 0 with no habits; otherwise a habit's streak that no habit exceeds |
| ProgressPage.TotalCompletions | src/pages/Progress.jsx:55-58 | the total is at least the record count of every single habit |
| ProgressPage.CompletedToday | src/pages/Progress.jsx:63-67 | at most the number of habits |
| ProgressPage.CompletedTodayAtMostTotal | src/pages/Progress.jsx:55-67 | "Completed Today" never exceeds "Total Completions" |
| ProgressPage.BestStreakPositiveIffDoneToday | src/pages/Progress.jsx:45-67 | "Best Streak" is positive iff "Completed Today" is |
| ProgressPage.TotalZeroIffNoFirstStep | src/pages/Progress.jsx:55-58 | "Total Completions" is 0 iff "First Step" is not earned |
| ProgressPage.Earned | src/pages/Progress.jsx:127-136 | the shown badges are exactly those whose condition holds |
| ProgressPage.NoAchievements | src/pages/Progress.jsx:138 | "No achievements yet" shows iff "First Step" is not earned |
| ProgressPage.NoAchievementsIff | src/pages/Progress.jsx:138 | "No achievements yet" shows iff no badge is shown, iff no habit has any record |
| ContributionCalendar.CalendarDays | src/components/ContributionCalendar.jsx:2-6 | 30 labels, oldest first, ending today |
| ContributionCalendar.GetCompletionCount | src/components/ContributionCalendar.jsx:8-9 | at most the number of habits |
| ContributionCalendar.GetColor | src/components/ContributionCalendar.jsx:11-16 | 0 gray-800, 1 green-700, 2 green-600, 3 or more green-500 |
| ContributionCalendar.ColorBuckets | src/components/ContributionCalendar.jsx:11-16 | the colour is constant from 3 on, and the four buckets have different colours |
| ContributionCalendar.Cells | src/components/ContributionCalendar.jsx:23-33 | 30 cells in window order, each with its day's count and that count's colour |
| ContributionCalendar.GrayIffNoHabit | src/components/ContributionCalendar.jsx:8-16 | a cell is gray iff no habit holds that day |
| Reminders.InitEnabled | src/components/Reminders.jsx:8-11 | enabled starts true iff the stored value is exactly "true" (false when missing or empty) |
| Reminders.EnabledText | src/components/Reminders.jsx:27 | `String(enabled)` is "true" or "false" |
| Reminders.EnabledRoundTrip | src/components/Reminders.jsx:8-28 | writing the flag and reading it back gives the flag |
| Reminders.InitTime | src/components/Reminders.jsx:13-15 | the stored time unless missing or empty, then "21:00"; never empty |
| Reminders.SettingsSurviveReload | src/components/Reminders.jsx:8-32 | after both settings are persisted, a reload restores them, and a cleared time becomes "21:00" |
| Reminders.Split | src/components/Reminders.jsx:36 | `split(":")` gives at least one piece and no piece holds a colon |
| Reminders.SplitJoin | src/components/Reminders.jsx:36 | joining the pieces with ":" gives the string back |
| Reminders.ToNumber | src/components/Reminders.jsx:36 | `Number` of a digit string is its decimal value |
| Reminders.ClockOffsetOfDigits | src/components/Reminders.jsx:36-39 | "HH:MM" sets the target to HH*60+MM minutes after midnight |
| Reminders.OffsetOfFields | src/components/Reminders.jsx:36-39 | a clock time results iff there are two fields and both read as numbers (a missing `mm` is NaN); it is hh*60+mm |
| Reminders.ClockOffset | src/components/Reminders.jsx:36-39 | a valid clock time needs a second field (`mm` is NaN otherwise) |
| Reminders.DayStart | src/components/Reminders.jsx:38-39 | midnight is a day boundary at or before now, less than a day before |
| Reminders.NextTrigger | src/components/Reminders.jsx:35-46 | invalid iff the time is invalid; the same clock time; today iff that is after now; for a time within the day, strictly after now and at most one day later |
| Reminders.NextTriggerDate | src/components/Reminders.jsx:35-46 | setting the hours and moving on a day when not in the future computes `NextTrigger` |
| Reminders.ArmTimer | src/components/Reminders.jsx:49-57 | no timer unless enabled with permission "granted"; a NaN delay exactly for an invalid time |
| Reminders.ArmedDelayWithinADay | src/components/Reminders.jsx:49-57 | for a valid time within the day, the delay is positive and at most one day |
| Reminders.ShowPermissionButton | src/components/Reminders.jsx:145-146 | the button shows for "default" and "denied" and never once permission is "granted" |
| Reminders.ButtonAndTimerExclusive | src/components/Reminders.jsx:145-146 | the permission button and an armed timer never occur together |
| Reminders.FireStep | src/components/Reminders.jsx:60-68 | notify iff last-fired differs from today; afterwards last-fired is today |
| Reminders.FireReminder | src/components/Reminders.jsx:59-69 | the storage read and write give exactly `FireStep`; nothing else in storage changes |
| Reminders.Notifications | src/components/Reminders.jsx:59-69 | successive firings notify at most once each, and the first notifies unless the reminder already fired that day |
| Reminders.SilentAfterFiring | src/components/Reminders.jsx:63-68 | once fired today, further firings today stay silent |
| Reminders.AtMostOncePerDay | src/components/Reminders.jsx:59-69 | any number of firings within one day notify at most once, and exactly once iff it had not fired that day |
| Storage.Lookup | src/pages/Dashboard.jsx:31-32 | `getItem` is null iff the key is absent, else the stored string |
| Storage.LocalStorage.GetItem | src/pages/Dashboard.jsx:31-32 | reads the stored value and changes nothing |
| Storage.LocalStorage.SetItem | src/pages/Dashboard.jsx:37-38 | sets one key and leaves every other key as it was |

## Left out

- Clock and time zone: the current date is a parameter. Days are integers and `DayLabel` stands for the `"YYYY-MM-DD"` string. The mix of `toISOString()` (a UTC date) with local `setDate` stepping inside one walk is not modelled.
- `todayString` (src/utils/date.js) is not part of this model. Its day need not be the UTC date that `toISOString()` gives the toggle, the numeric save and `calculateStreak`. So the Habits page takes it as a separate day, `localToday`, beside the UTC day.
- HabitsPage.HabitCard: the done flag agrees with "streak > 0" only when the page's day equals the UTC day. Near midnight the two can differ (see `HabitsPage.LocalDayAheadOfUtc`).
- HabitsPage.ToggleFlipsDone: Check flips the card's flag only when the page's day equals the UTC day; otherwise the flag does not move.
- HabitsPage.CheckStartsStreak: it is stated for a habit whose UTC day is not recorded. A habit the card shows as not done may still hold the UTC day, and then Check removes it.
- HabitModel.Amount: `true`, objects and other truthy non-string, non-number values are not represented; numbers are exact reals, not floating point.
- Locale formatting: the `tr-TR` day labels of the weekly statistics, `date.slice(5)` on the Progress chart, and the Journal's `formatDate` ("Today", "Yesterday", en-US labels). `Stats.Last7DaysStats` returns each day rather than its display label.
- The Journal's "This Month" figure (src/pages/Journal.jsx:166-173): it needs the calendar month of a date string, which the integer day model does not carry.
- ProgressPercent.GetProgressPercent: it uses exact rational rounding of `streak*100/goal`, not floating point, so results at float-rounding boundaries may differ. It requires goal > 0, since goal 0 gives NaN or Infinity.
- HabitModel.NumberOf: `Number(text)` for a habit's target is kept as the text converted; the float parse is not modelled.
- Reminders.ToNumber: it handles whitespace, the empty string and optionally signed digit runs only. Decimal points, exponents, hex and "Infinity" are treated as NaN.
- DailyQuote.CharCodeSum sums Dafny characters (code points), not UTF-16 code units. They agree on the date strings it is used with.
- The quote list lives in a module that is not part of this model; it is a non-empty parameter.
- Timers and notifications: `setTimeout`/`clearTimeout`, the Notification API and the asynchronous `requestPermission`. The timer's firing is modelled as a call to `FireReminder`, and the armed delay by `ArmTimer`.
- Rendering and styling: the permission status messages, the test-notification button, the icons and the drag handle in src/components/HabitItem.jsx.
- `JSON.stringify`/`JSON.parse` of habits and journal, and the `habits` persistence effects: storage is one string map, and the pages take the habit list and the journal as values.
- `crypto.randomUUID()` and `new Date().toISOString()` in `addHabit`: both are parameters of `DashboardPage.AddHabit`. The form reset and modal close after adding are UI state.
- Prop wiring: src/App.jsx does not pass `setHabits` to the Dashboard or Habits pages, and the Journal and Reminders routes are not registered. The transforms are modelled on their own.
- The unused `color` field of src/types/habit.js, src/pages/Home.jsx and its API module, src/layouts/MainLayout.jsx, src/components/Sidebar.jsx, src/components/WeeklyStats.jsx and src/pages/Reminders.jsx: navigation, charts and wrappers with no logic of their own.
