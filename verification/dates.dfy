/** The day arithmetic of `src/lib/utils.ts`: `formatDate`, `isSameDay`
    and `getRelativeDateTime`, which label messages in the chat.

    Instants are milliseconds since the epoch.  The local time zone is a
    fixed offset from UTC, so every local day is 24 hours long; a local
    calendar date (year, month, day of month) is identified by its day
    number since the epoch.  The locale-dependent rendering of a label
    is not modelled: a label says which format the source picks and for
    which day or time. */
module Dates {
  import opened Wrappers

  const MsPerDay := 24 * 60 * 60 * 1000
  const MsPerHour := 60 * 60 * 1000
  const MsPerMinute := 60 * 1000

  /** The local day number of instant `ms` in a zone `offset` ms ahead of
      UTC.  Dafny's `/` rounds down for a positive divisor, so instants
      before the epoch fall on negative days. */
  function Day(ms: int, offset: int): int {
    (ms + offset) / MsPerDay
  }

  /** `startOfDay`: the instant of local midnight that begins the day of
      `ms` (`setHours(0, 0, 0, 0)`). */
  function StartOfDay(ms: int, offset: int): (s: int)
    ensures s <= ms < s + MsPerDay
    ensures Day(s, offset) == Day(ms, offset)
    ensures (s + offset) % MsPerDay == 0
  {
    Day(ms, offset) * MsPerDay - offset
  }

  /** Local hour and minute, `getHours()` and `getMinutes()`. */
  function Hour(ms: int, offset: int): (h: nat)
    ensures h < 24
  {
    ((ms + offset) % MsPerDay) / MsPerHour
  }

  function Minute(ms: int, offset: int): (m: nat)
    ensures m < 60
  {
    ((ms + offset) % MsPerHour) / MsPerMinute
  }

  /** `isSameDay`: the two instants fall on the same local calendar date,
      that is, they share its midnight; and then they are less than a day
      apart. */
  function IsSameDay(a: int, b: int, offset: int): (same: bool)
    ensures same <==> StartOfDay(a, offset) == StartOfDay(b, offset)
    ensures same ==> -MsPerDay < a - b < MsPerDay
  {
    Day(a, offset) == Day(b, offset)
  }

  /** `day * MsPerDay / MsPerDay == day`, which Dafny's nonlinear
      arithmetic does not find unaided. */
  lemma DivExact(day: int)
    ensures (day * MsPerDay) / MsPerDay == day
  {
  }

  /** Going back `k` whole days from an instant goes back `k` local days. */
  lemma DayShift(ms: int, k: int, offset: int)
    ensures Day(ms - k * MsPerDay, offset) == Day(ms, offset) - k
  {
    assert ms - k * MsPerDay + offset == (ms + offset) + (-k) * MsPerDay;
  }

  /** What a date label shows. */
  datatype Label =
    | Clock(hour: nat, minute: nat)  // `toLocaleTimeString` with hour and minute
    | Today
    | Yesterday
    | Weekday(day: int)              // the name of the weekday of local day `day`
    | NumericDate(day: int)          // month, day and year of local day `day`

  /** `formatDate(dateMs)` at instant `now`: the time for today,
      "Yesterday", the weekday for the five days before that, and the
      numeric date for anything older or in the future. */
  function FormatDate(ms: int, now: int, offset: int): (l: Label)
    ensures var d := Day(ms, offset) - Day(now, offset);
      && (l.Clock? <==> d == 0)
      && (l == Yesterday <==> d == -1)
      && (l.Weekday? <==> -6 <= d <= -2)
      && (l.NumericDate? <==> d < -6 || d > 0)
      && !l.Today?
    ensures l.Clock? ==> l == Clock(Hour(ms, offset), Minute(ms, offset))
    ensures l.Weekday? || l.NumericDate? ==> l.day == Day(ms, offset)
  {
    var diff := Day(ms, offset) - Day(now, offset);
    var span := StartOfDay(ms, offset) - StartOfDay(now, offset);
    assert span == diff * MsPerDay;
    DivExact(diff);
    var diffDays := span / MsPerDay;
    if diffDays == 0 then Clock(Hour(ms, offset), Minute(ms, offset))
    else if diffDays == -1 then Yesterday
    else if -6 <= diffDays <= -1 then Weekday(Day(ms, offset))
    else NumericDate(Day(ms, offset))
  }

  /** `getRelativeDateTime(message, previousMessage)` at instant `now`:
      no label (`undefined`) when the previous message is on the same
      day; otherwise "Today", "Yesterday", the weekday for any later day
      than a week ago (including days after today), else the numeric
      date. */
  function RelativeDateTime(msg: int, prev: Option<int>, now: int, offset: int): (r: Option<Label>)
    ensures r.None? <==> prev.Some? && IsSameDay(prev.value, msg, offset)
    ensures r.Some? ==>
      var d := Day(msg, offset) - Day(now, offset);
      && (r.value == Today <==> d == 0)
      && (r.value == Yesterday <==> d == -1)
      && (r.value.Weekday? <==> d > -7 && d != 0 && d != -1)
      && (r.value.NumericDate? <==> d <= -7)
      && !r.value.Clock?
    ensures r.Some? && (r.value.Weekday? || r.value.NumericDate?) ==> r.value.day == Day(msg, offset)
  {
    var today := StartOfDay(now, offset);
    var yesterday := StartOfDay(now - MsPerDay, offset);
    var oneWeekAgo := StartOfDay(now - 7 * MsPerDay, offset);
    var messageDay := StartOfDay(msg, offset);
    DayShift(now, 1, offset);
    DayShift(now, 7, offset);
    if prev.None? || !IsSameDay(prev.value, messageDay, offset) then
      if IsSameDay(messageDay, today, offset) then Some(Today)
      else if IsSameDay(messageDay, yesterday, offset) then Some(Yesterday)
      else if messageDay > oneWeekAgo then Some(Weekday(Day(msg, offset)))
      else Some(NumericDate(Day(msg, offset)))
    else None
  }

  /** Where the two labelling functions agree: on yesterday, on the five
      days before it and on anything a week or more old.  They differ on
      today (a clock time against "Today") and on days after today, which
      `formatDate` dates and `getRelativeDateTime` names by weekday. */
  lemma LabelsAgreeOnThePast(msg: int, now: int, offset: int)
    requires Day(msg, offset) < Day(now, offset)
    ensures RelativeDateTime(msg, None, now, offset) == Some(FormatDate(msg, now, offset))
  {
  }

  lemma FutureDaysDisagree(msg: int, now: int, offset: int)
    requires Day(msg, offset) > Day(now, offset)
    ensures FormatDate(msg, now, offset) == NumericDate(Day(msg, offset))
    ensures RelativeDateTime(msg, None, now, offset) == Some(Weekday(Day(msg, offset)))
  {
  }

  /** Whether a message gets a label at all depends only on its day and
      the previous message's day, not on the current time. */
  lemma LabelShownIndependentOfNow(msg: int, prev: Option<int>, now1: int, now2: int, offset: int)
    ensures RelativeDateTime(msg, prev, now1, offset).Some? == RelativeDateTime(msg, prev, now2, offset).Some?
  {
  }
}
