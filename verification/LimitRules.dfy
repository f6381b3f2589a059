/** When a limit applies: its time-of-day window and its custom period, with the checks on both. */
module LimitRules {
  import opened Prelude
  import opened Calendar
  import opened Periods

  const MINUTES_IN_A_DAY := 1440
  const MAX_CUSTOM_PERIOD_YEARS := 5

  // A time of day, in minutes since midnight.
  type TimeOfDay = m: nat | m < MINUTES_IN_A_DAY

  datatype LimitError =
    | TimeWindowMismatch | TimeWindowZeroWidth
    | CustomDatesRequired | CustomDatesOrder | CustomPeriodTooLong | CustomPeriodExpired | CustomDatesNotAllowed
    | InvalidName | InvalidDescription | InvalidType | InvalidMaxAmount | InvalidCurrency | InvalidScope
    | InvalidStatusChange | DeletedAtInvariant | InvalidTimeOfDay

  function MinuteOf(t: Instant): TimeOfDay {
    t % DAY / MINUTE
  }

  predicate WithinTimeWindow(start: Option<TimeOfDay>, end: Option<TimeOfDay>, t: Instant) {
    if start.None? || end.None? then true
    else if start.value < end.value then start.value <= MinuteOf(t) < end.value
    else start.value <= MinuteOf(t) || MinuteOf(t) < end.value
  }

  predicate WithinCustomPeriod(lt: LimitType, start: Option<Instant>, end: Option<Instant>, t: Instant) {
    if !lt.Custom? || start.None? || end.None? then true else start.value <= t < end.value
  }

  function ValidateTimeWindow(start: Option<TimeOfDay>, end: Option<TimeOfDay>): Option<LimitError> {
    if start.None? && end.None? then None
    else if start.None? != end.None? then Some(TimeWindowMismatch)
    else if start.value == end.value then Some(TimeWindowZeroWidth)
    else None
  }

  // Go's date normalisation: a February 29th that does not exist is March 1st.
  function DateYearsLater(d: Date, years: nat): (r: Date)
    requires ValidDate(d)
    ensures ValidDate(r)
  {
    var date := Date(d.year + years, d.month, d.day);
    if ValidDate(date) then date else Date(date.year, 3, 1)
  }

  // AddDate(years, 0, 0): the same time of day on that date.
  function YearsLater(t: Instant, years: nat): Instant {
    var shifted := DateYearsLater(FromDays(DayOf(t)), years);
    DateRoundTrip(shifted);
    Midnight(ToDays(shifted)) + t % DAY
  }

  // By civil dates: same time of day, same day of the same month, n years later, except that from February 29th
  // to a year without one it is March 1st.
  lemma YearsLaterOnTheSameDate(t: Instant, years: nat)
    ensures YearsLater(t, years) % DAY == t % DAY
    ensures var date := FromDays(DayOf(t));
            DayOf(YearsLater(t, years)) == DayYearsLater(date.year + years, date.month, date.day)
  {
    var date := FromDays(DayOf(t));
    SameDateLater(date, years);
    DayOfYearsLater(t, years, DateYearsLater(date, years));
  }

  lemma DayOfYearsLater(t: Instant, years: nat, shifted: Date)
    requires shifted == DateYearsLater(FromDays(DayOf(t)), years)
    ensures DayOf(YearsLater(t, years)) == ToDays(shifted) && YearsLater(t, years) % DAY == t % DAY
  {
    DateRoundTrip(shifted);
    DayAndTime(ToDays(shifted), t % DAY);
  }

  // That day of a year as a day number.
  function DayYearsLater(year: nat, month: nat, day: nat): int
    requires 1 <= year && 1 <= month <= 12
  {
    if month == 2 && day == 29 && !IsLeap(year) then FirstOf(year, 3) else FirstOf(year, month) + day - 1
  }

  lemma SameDateLater(date: Date, years: nat)
    requires ValidDate(date)
    ensures ToDays(DateYearsLater(date, years)) == DayYearsLater(date.year + years, date.month, date.day)
  {
  }

  lemma DayAndTime(d: nat, time: nat)
    requires time < DAY
    ensures DayOf(Midnight(d) + time) == d && (Midnight(d) + time) % DAY == time
  {
  }

  // Presence, order and duration of the custom dates.
  function PeriodFault(lt: LimitType, start: Option<Instant>, end: Option<Instant>): Option<LimitError> {
    if !lt.Custom? then
      if start.Some? || end.Some? then Some(CustomDatesNotAllowed) else None
    else if start.None? || end.None? then Some(CustomDatesRequired)
    else if end.value <= start.value then Some(CustomDatesOrder)
    else if YearsLater(start.value, MAX_CUSTOM_PERIOD_YEARS) < end.value then Some(CustomPeriodTooLong)
    else None
  }

  // A period that is set must also not have ended before today.
  function ValidateCustomPeriod(lt: LimitType, start: Option<Instant>, end: Option<Instant>, now: Instant): Option<LimitError> {
    if PeriodFault(lt, start, end).Some? then PeriodFault(lt, start, end)
    else if lt.Custom? && end.Some? && end.value < Midnight(DayOf(now)) then Some(CustomPeriodExpired)
    else None
  }

  lemma FaultlessDates(lt: LimitType, start: Option<Instant>, end: Option<Instant>)
    requires PeriodFault(lt, start, end).None?
    ensures lt.Custom? == start.Some? == end.Some?
    ensures start.Some? ==> start.value < end.value
  {
  }

  /* ---- what they mean ---- */

  // Nanoseconds from one point of the clock forward to another, across midnight if need be.
  function Onward(from: int, to: int): nat {
    (to - from) % DAY
  }

  lemma OnwardIs(from: nat, to: nat)
    requires from < DAY && to < DAY
    ensures Onward(from, to) == if from <= to then to - from else to - from + DAY
  {
  }

  // A valid window, overnight or not, is the arc of the clock from start up to but excluding end, to the nanosecond.
  lemma WindowIsAnArc(start: TimeOfDay, end: TimeOfDay, t: Instant)
    requires ValidateTimeWindow(Some(start), Some(end)).None?
    ensures WithinTimeWindow(Some(start), Some(end), t)
            <==> Onward(start * MINUTE, t % DAY) < Onward(start * MINUTE, end * MINUTE)
  {
    OnwardIs(start * MINUTE, t % DAY);
    OnwardIs(start * MINUTE, end * MINUTE);
    ReachedMinute(t % DAY, start);
    ReachedMinute(t % DAY, end);
  }

  lemma ReachedMinute(time: nat, m: nat)
    ensures m <= time / MINUTE <==> m * MINUTE <= time
  {
  }

  // A valid window is open for part of the day and closed for the rest.
  lemma WindowOpensAndCloses(start: TimeOfDay, end: TimeOfDay, midnight: nat)
    requires ValidateTimeWindow(Some(start), Some(end)).None?
    ensures WithinTimeWindow(Some(start), Some(end), midnight * DAY + start * MINUTE)
    ensures !WithinTimeWindow(Some(start), Some(end), midnight * DAY + end * MINUTE)
  {
    MinuteBack(midnight, start);
    MinuteBack(midnight, end);
  }

  lemma MinuteBack(midnight: nat, m: TimeOfDay)
    ensures MinuteOf(midnight * DAY + m * MINUTE) == m
  {
    var t := midnight * DAY + m * MINUTE;
    assert 0 <= m * MINUTE < DAY;
    assert t % DAY == m * MINUTE;
  }
}
