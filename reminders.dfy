/**
 * The daily reminder: the stored settings, the next trigger instant, when a
 * timer is armed, and the guard that lets the reminder notify at most once a day.
 * Instants are local minutes since the epoch; the clock is a parameter.
 */
module Reminders {
  import opened Options
  import opened Text
  import opened Storage

  const REMINDER_KEY: string := "daily_reminder_time"
  const REMINDER_ENABLED_KEY: string := "daily_reminder_enabled"
  const LAST_FIRED_KEY: string := "daily_reminder_last_fired"
  const DEFAULT_TIME: string := "21:00"

  /** Minutes in a day. */
  const DAY: int := 1440

  // ---------------------------------------------------------------- settings

  /** The initial `enabled`: false for a missing or empty value, otherwise whether it is "true". */
  function InitEnabled(stored: Option<string>): (r: bool)
    ensures r <==> stored == Some("true")
  {
    match stored
    case None => false
    case Some(v) => if v != "" then v == "true" else false
  }

  /** `String(enabled)`, the value the persistence effect writes. */
  function EnabledText(enabled: bool): (s: string)
    ensures s == "true" || s == "false"
  {
    if enabled then "true" else "false"
  }

  /** Writing `enabled` and reading it back gives the same flag. */
  lemma EnabledRoundTrip(enabled: bool)
    ensures InitEnabled(Some(EnabledText(enabled))) == enabled
  {
  }

  /** The initial `time`: the stored string unless it is missing or empty, then "21:00". */
  function InitTime(stored: Option<string>): (r: string)
    ensures stored.Some? && stored.value != "" ==> r == stored.value
    ensures stored == None || stored == Some("") ==> r == DEFAULT_TIME
    ensures r != ""
  {
    match stored
    case None => DEFAULT_TIME
    case Some(v) => if v != "" then v else DEFAULT_TIME
  }

  /** After the persistence effects ran, a reload restores both settings; a cleared time falls back to the default. */
  lemma SettingsSurviveReload(items: map<string, string>, enabled: bool, time: string)
    ensures var saved := items[REMINDER_ENABLED_KEY := EnabledText(enabled)][REMINDER_KEY := time];
      InitEnabled(Lookup(saved, REMINDER_ENABLED_KEY)) == enabled
      && InitTime(Lookup(saved, REMINDER_KEY)) == (if time == "" then DEFAULT_TIME else time)
  {
    var saved := items[REMINDER_ENABLED_KEY := EnabledText(enabled)][REMINDER_KEY := time];
    assert REMINDER_ENABLED_KEY != REMINDER_KEY by { assert |REMINDER_ENABLED_KEY| != |REMINDER_KEY|; }
    assert Lookup(saved, REMINDER_ENABLED_KEY) == Some(EnabledText(enabled));
  }

  // ---------------------------------------------------------------- parsing "hh:mm"

  /** `s.split(sep)`: the pieces between separators; always at least one. */
  function Split(s: string, sep: char): (r: seq<string>)
    ensures |r| >= 1
    ensures forall i :: 0 <= i < |r| ==> sep !in r[i]
    decreases |s|
  {
    if s == [] then [""]
    else
      var rest := Split(s[1..], sep);
      if s[0] == sep then [""] + rest
      else [[s[0]] + rest[0]] + rest[1..]
  }

  /** `pieces.join(sep)`. */
  function Join(pieces: seq<string>, sep: char): string
    requires |pieces| >= 1
  {
    if |pieces| == 1 then pieces[0] else pieces[0] + [sep] + Join(pieces[1..], sep)
  }

  /** Splitting loses nothing: joining the pieces gives the string back. */
  lemma {:induction false} SplitJoin(s: string, sep: char)
    ensures Join(Split(s, sep), sep) == s
    decreases |s|
  {
    if s != [] {
      var rest := Split(s[1..], sep);
      SplitJoin(s[1..], sep);
      if s[0] == sep {
        assert Split(s, sep) == [""] + rest;
        assert ([""] + rest)[1..] == rest;
      } else {
        var r := Split(s, sep);
        assert r == [[s[0]] + rest[0]] + rest[1..];
        if |rest| == 1 {
          assert r == [[s[0]] + rest[0]];
        } else {
          assert r[1..] == rest[1..];
          assert Join(rest, sep) == rest[0] + [sep] + Join(rest[1..], sep);
        }
      }
    }
  }

  /**
   * `Number(field)` for the strings a time field can hold: surrounding
   * whitespace is ignored, the empty string is 0, an optionally signed run of
   * decimal digits is its value, and anything else is NaN (None).
   */
  function ToNumber(field: string): (r: Option<int>)
    ensures IsDecimal(field) ==> r == Some(DecimalValue(field))
  {
    var t := Trim(field);
    if IsDecimal(t) then Some(DecimalValue(t))
    else if |t| > 1 && t[0] == '-' && IsDecimal(t[1..]) then Some(0 - DecimalValue(t[1..]))
    else if |t| > 1 && t[0] == '+' && IsDecimal(t[1..]) then Some(DecimalValue(t[1..]))
    else None
  }

  /**
   * `[hh, mm] = fields.map(Number)` followed by `setHours(hh, mm, 0, 0)`: the
   * minute of the day the target is set to, or None when either field is NaN
   * (a missing second field is `Number(undefined)`).
   */
  function OffsetOfFields(fields: seq<string>): (r: Option<int>)
    requires |fields| >= 1
    ensures r.Some? <==> |fields| >= 2 && ToNumber(fields[0]).Some? && ToNumber(fields[1]).Some?
    ensures r.Some? ==> r.value == ToNumber(fields[0]).value * 60 + ToNumber(fields[1]).value
  {
    var hh := ToNumber(fields[0]);
    var mm := if |fields| >= 2 then ToNumber(fields[1]) else None;
    if hh.Some? && mm.Some? then Some(hh.value * 60 + mm.value) else None
  }

  /** The clock time of `time.split(":")`, as the minute of the day. */
  function ClockOffset(time: string): (r: Option<int>)
    ensures r.Some? ==> |Split(time, ':')| >= 2
  {
    OffsetOfFields(Split(time, ':'))
  }

  /** The offset of a well-formed "HH:MM" string is its minute of the day. */
  lemma ClockOffsetOfDigits(hh: string, mm: string)
    requires hh != [] && IsDecimal(hh) && mm != [] && IsDecimal(mm)
    ensures ClockOffset(hh + ":" + mm) == Some(DecimalValue(hh) * 60 + DecimalValue(mm))
  {
    DigitsHaveNoColon(hh);
    DigitsHaveNoColon(mm);
    SplitOfColon(hh, mm);
    OffsetOfDigitFields(hh, mm);
  }

  lemma DigitsHaveNoColon(s: string)
    requires IsDecimal(s)
    ensures ':' !in s
  {
    assert !IsDigit(':');
  }

  lemma OffsetOfDigitFields(hh: string, mm: string)
    requires IsDecimal(hh) && IsDecimal(mm)
    ensures OffsetOfFields([hh, mm]) == Some(DecimalValue(hh) * 60 + DecimalValue(mm))
  {
    var fields := [hh, mm];
    assert fields[0] == hh && fields[1] == mm;
    var h := ToNumber(hh);
    var m := ToNumber(mm);
    assert h == Some(DecimalValue(hh));
    assert m == Some(DecimalValue(mm));
    assert OffsetOfFields(fields) == Some(h.value * 60 + m.value);
  }

  /** Splitting two colon-free pieces joined by one colon gives those two pieces. */
  lemma {:induction false} SplitOfColon(a: string, b: string)
    requires ':' !in a && ':' !in b
    ensures Split(a + ":" + b, ':') == [a, b]
    decreases |a|
  {
    if a == [] {
      assert a + ":" + b == [':'] + b;
      assert ([':'] + b)[1..] == b;
      SplitNoColon(b);
    } else {
      SplitOfColon(a[1..], b);
      assert (a + ":" + b)[1..] == a[1..] + ":" + b;
      assert [a[0]] + a[1..] == a;
    }
  }

  lemma {:induction false} SplitNoColon(s: string)
    requires ':' !in s
    ensures Split(s, ':') == [s]
    decreases |s|
  {
    if s != [] {
      SplitNoColon(s[1..]);
      assert [s[0]] + s[1..] == s;
    }
  }

  // ---------------------------------------------------------------- next trigger

  /** Midnight of the local day holding `now`. */
  function DayStart(now: int): (r: int)
    ensures r <= now < r + DAY
    ensures r % DAY == 0
  {
    now - now % DAY
  }

  /**
   * The next trigger: today at the clock time if that is strictly later than
   * now, otherwise one day later; None stands for an Invalid Date.
   */
  function NextTrigger(time: string, now: int): (r: Option<int>)
    ensures r.Some? <==> ClockOffset(time).Some?
    ensures r.Some? ==> (r.value - ClockOffset(time).value) % DAY == 0
    ensures r.Some? ==> (r.value == DayStart(now) + ClockOffset(time).value
                         <==> DayStart(now) + ClockOffset(time).value > now)
    ensures r.Some? && 0 <= ClockOffset(time).value < DAY ==> now < r.value <= now + DAY
  {
    match ClockOffset(time)
    case None => None
    case Some(offset) =>
      var today := DayStart(now) + offset;
      if today <= now then Some(today + DAY) else Some(today)
  }

  /** `nextTriggerDate`: the target starts as now, takes the clock time, and moves a day on if it is not in the future. */
  method NextTriggerDate(time: string, now: int) returns (target: Option<int>)
    ensures target == NextTrigger(time, now)
  {
    var fields := Split(time, ':');
    var hh := ToNumber(fields[0]);
    var mm := if |fields| >= 2 then ToNumber(fields[1]) else None;
    target := Some(now);
    if hh.Some? && mm.Some? {
      target := Some(DayStart(now) + hh.value * 60 + mm.value);
    } else {
      target := None;
    }
    if target.Some? && target.value <= now {
      target := Some(target.value + DAY);
    }
  }

  // ---------------------------------------------------------------- scheduling

  /** The armed timer: none, a delay in minutes, or a NaN delay from an Invalid Date. */
  datatype Timer = NoTimer | After(delay: int) | AfterNaN

  /** The scheduler effect: it arms a timer only when enabled with permission "granted". */
  function ArmTimer(enabled: bool, permission: string, trigger: Option<int>, now: int): (t: Timer)
    ensures t.NoTimer? <==> !(enabled && permission == "granted")
    ensures t.AfterNaN? <==> enabled && permission == "granted" && trigger.None?
  {
    if !enabled || permission != "granted" then NoTimer
    else if trigger.Some? then After(trigger.value - now)
    else AfterNaN
  }

  /** For a valid clock time within the day, the armed delay is positive and at most one day. */
  lemma ArmedDelayWithinADay(time: string, now: int)
    requires ClockOffset(time).Some? && 0 <= ClockOffset(time).value < DAY
    ensures var t := ArmTimer(true, "granted", NextTrigger(time, now), now);
      t.After? && 0 < t.delay <= DAY
  {
  }

  /**
   * The permission button shows unless permission is "granted" or
   * "unsupported": it shows for "default" and "denied", never once granted.
   */
  predicate ShowPermissionButton(permission: string)
    ensures permission == "default" || permission == "denied" ==> ShowPermissionButton(permission)
    ensures ShowPermissionButton(permission) ==> permission != "granted"
  {
    permission != "granted" && permission != "unsupported"
  }

  /** A timer is never armed while the permission button is shown. */
  lemma ButtonAndTimerExclusive(enabled: bool, permission: string, trigger: Option<int>, now: int)
    ensures ShowPermissionButton(permission) ==> ArmTimer(enabled, permission, trigger, now).NoTimer?
    ensures ArmTimer(enabled, permission, trigger, now) != NoTimer ==> !ShowPermissionButton(permission)
  {
  }

  // ---------------------------------------------------------------- firing

  /** One firing on `today`: whether to notify, and the last-fired value afterwards. */
  function FireStep(lastFired: Option<string>, today: string): (r: (bool, Option<string>))
    ensures r.0 <==> lastFired != Some(today)
    ensures r.1 == Some(today)
  {
    if lastFired != Some(today) then (true, Some(today)) else (false, lastFired)
  }

  /** The timer callback: notify and record today unless the reminder already fired today. */
  method FireReminder(store: LocalStorage, today: string) returns (notified: bool)
    modifies store
    ensures (notified, Lookup(store.items, LAST_FIRED_KEY)) == FireStep(Lookup(old(store.items), LAST_FIRED_KEY), today)
    ensures notified ==> store.items == old(store.items)[LAST_FIRED_KEY := today]
    ensures !notified ==> store.items == old(store.items)
  {
    var lastFired := store.GetItem(LAST_FIRED_KEY);
    notified := false;
    if lastFired != Some(today) {
      notified := true;
      store.SetItem(LAST_FIRED_KEY, today);
    }
  }

  /**
   * The number of notifications over successive firings on the given days:
   * at most one per firing, and the first firing notifies unless the
   * reminder already fired that day.
   */
  function Notifications(lastFired: Option<string>, days: seq<string>): (r: nat)
    ensures r <= |days|
    ensures days != [] && lastFired != Some(days[0]) ==> r >= 1
    decreases |days|
  {
    if days == [] then 0
    else
      var step := FireStep(lastFired, days[0]);
      (if step.0 then 1 else 0) + Notifications(step.1, days[1..])
  }

  /** Once the reminder fired on `today`, further firings on the same day stay silent. */
  lemma {:induction false} SilentAfterFiring(today: string, days: seq<string>)
    requires forall i :: 0 <= i < |days| ==> days[i] == today
    ensures Notifications(Some(today), days) == 0
    decreases |days|
  {
    if days != [] {
      SilentAfterFiring(today, days[1..]);
    }
  }

  /** However many times the timer fires within one day, it notifies at most once. */
  lemma AtMostOncePerDay(lastFired: Option<string>, today: string, days: seq<string>)
    requires forall i :: 0 <= i < |days| ==> days[i] == today
    ensures Notifications(lastFired, days) <= 1
    ensures Notifications(lastFired, days) == 1 <==> days != [] && lastFired != Some(today)
  {
    if days != [] {
      SilentAfterFiring(today, days[1..]);
    }
  }
}
