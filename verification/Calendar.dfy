/**
 * Civil calendar arithmetic on UTC instants: nanoseconds since 0001-01-01T00:00:00Z, a Monday.
 */
module Calendar {
  type Instant = t: int | 0 <= t witness 0

  const DAY := 86_400_000_000_000
  const MINUTE := 60_000_000_000

  datatype Date = Date(year: nat, month: nat, day: nat)

  predicate IsLeap(y: nat) {
    y % 4 == 0 && (y % 100 != 0 || y % 400 == 0)
  }

  function DaysIn(y: nat, m: nat): (n: nat)
    requires 1 <= m <= 12
    ensures 28 <= n <= 31
  {
    if m == 2 then (if IsLeap(y) then 29 else 28)
    else if m in {4, 6, 9, 11} then 30
    else 31
  }

  // Days from 0001-01-01 to January 1st of year y.
  function YearStart(y: nat): int
    requires 1 <= y
  {
    365 * (y - 1) + (y - 1) / 4 - (y - 1) / 100 + (y - 1) / 400
  }

  // Days from January 1st of year y to the first of month m; m == 13 is the whole year.
  function MonthStart(y: nat, m: nat): nat
    requires 1 <= m <= 13
  {
    if m == 1 then 0 else MonthStart(y, m - 1) + DaysIn(y, m - 1)
  }

  predicate ValidDate(d: Date) {
    1 <= d.year && 1 <= d.month <= 12 && 1 <= d.day <= DaysIn(d.year, d.month)
  }

  function FirstOf(y: nat, m: nat): int
    requires 1 <= y && 1 <= m <= 13
  {
    YearStart(y) + MonthStart(y, m)
  }

  function ToDays(d: Date): int
    requires ValidDate(d)
  {
    FirstOf(d.year, d.month) + d.day - 1
  }

  lemma DivStep4(n: nat)
    requires 1 <= n
    ensures n / 4 == (n - 1) / 4 + (if n % 4 == 0 then 1 else 0)
  {
  }

  lemma DivStep100(n: nat)
    requires 1 <= n
    ensures n / 100 == (n - 1) / 100 + (if n % 100 == 0 then 1 else 0)
    ensures n % 100 == 0 ==> n % 4 == 0
  {
  }

  lemma DivStep400(n: nat)
    requires 1 <= n
    ensures n / 400 == (n - 1) / 400 + (if n % 400 == 0 then 1 else 0)
  {
  }

  lemma Hundreds(n: nat)
    requires n % 400 == 0
    ensures n % 100 == 0
  {
    assert n == 100 * (4 * (n / 400));
  }

  lemma YearLength(y: nat)
    requires 1 <= y
    ensures YearStart(y + 1) == YearStart(y) + (if IsLeap(y) then 366 else 365)
  {
    DivStep4(y);
    DivStep100(y);
    DivStep400(y);
    if y % 400 == 0 { Hundreds(y); }
  }

  lemma MonthsMakeAYear(y: nat)
    requires 1 <= y
    ensures FirstOf(y, 13) == YearStart(y + 1)
  {
    YearLength(y);
    assert MonthStart(y, 1) == 0 && MonthStart(y, 2) == 31;
    assert MonthStart(y, 3) == 31 + DaysIn(y, 2);
    assert MonthStart(y, 5) == MonthStart(y, 3) + 61;
    assert MonthStart(y, 7) == MonthStart(y, 5) + 61;
    assert MonthStart(y, 9) == MonthStart(y, 7) + 62;
    assert MonthStart(y, 11) == MonthStart(y, 9) + 61;
    assert MonthStart(y, 13) == MonthStart(y, 11) + 61;
  }

  lemma {:induction false} YearStartsGrow(y: nat, z: nat)
    requires 1 <= y <= z
    ensures YearStart(y) + 365 * (z - y) <= YearStart(z)
    decreases z - y
  {
    if y < z {
      YearLength(y);
      YearStartsGrow(y + 1, z);
    }
  }

  function YearFrom(d: nat, y: nat): (r: nat)
    requires 1 <= y && YearStart(y) <= d
    ensures y <= r && YearStart(r) <= d < YearStart(r + 1)
    decreases d - YearStart(y)
  {
    YearLength(y);
    if d < YearStart(y + 1) then y else YearFrom(d, y + 1)
  }

  function YearOf(d: nat): (r: nat)
    ensures 1 <= r && YearStart(r) <= d < YearStart(r + 1)
  {
    YearFrom(d, 1)
  }

  // A day before the end of year z that is not before the start of year y: y is no later than z.
  lemma YearsInOrder(d: nat, y: nat, z: nat)
    requires 1 <= y && 1 <= z && YearStart(y) <= d < YearStart(z + 1)
    ensures y <= z
  {
    if z < y { YearStartsGrow(z + 1, y); }
  }

  lemma YearIsUnique(d: nat, y: nat)
    requires 1 <= y && YearStart(y) <= d < YearStart(y + 1)
    ensures YearOf(d) == y
  {
    YearsInOrder(d, y, YearOf(d));
    YearsInOrder(d, YearOf(d), y);
  }

  function MonthFrom(y: nat, n: nat, m: nat): (r: nat)
    requires 1 <= y && 1 <= m <= 12 && MonthStart(y, m) <= n < MonthStart(y, 13)
    ensures m <= r <= 12 && MonthStart(y, r) <= n < MonthStart(y, r + 1)
    decreases 12 - m
  {
    if m == 12 || n < MonthStart(y, m + 1) then m else MonthFrom(y, n, m + 1)
  }

  // The civil date of a day number.
  function FromDays(d: nat): (r: Date)
    ensures ValidDate(r) && ToDays(r) == d
  {
    var y := YearOf(d);
    MonthsMakeAYear(y);
    var m := MonthFrom(y, d - YearStart(y), 1);
    Date(y, m, d - FirstOf(y, m) + 1)
  }

  lemma {:induction false} MonthStartsGrow(y: nat, m: nat, n: nat)
    requires 1 <= m <= n <= 13
    ensures MonthStart(y, m) <= MonthStart(y, n)
    ensures m < n ==> MonthStart(y, m) + DaysIn(y, m) <= MonthStart(y, n)
    decreases n
  {
    if m < n { MonthStartsGrow(y, m, n - 1); }
  }

  // A day number lies in one month of one year only.
  lemma MonthIsUnique(d: nat, y: nat, m: nat)
    requires 1 <= y && 1 <= m <= 12 && FirstOf(y, m) <= d < FirstOf(y, m) + DaysIn(y, m)
    ensures FromDays(d).year == y && FromDays(d).month == m
  {
    var r := FromDays(d);
    MonthsMakeAYear(y);
    MonthStartsGrow(y, m, 13);
    MonthStartsGrow(y, 1, m);
    YearIsUnique(d, y);
    if r.month < m { MonthStartsGrow(y, r.month, m); }
    if m < r.month { MonthStartsGrow(y, m, r.month); }
  }

  // Dates and day numbers are two names of the same thing.
  lemma DateRoundTrip(date: Date)
    requires ValidDate(date)
    ensures 0 <= ToDays(date) && FromDays(ToDays(date)) == date
  {
    YearStartsGrow(1, date.year);
    MonthIsUnique(ToDays(date), date.year, date.month);
  }

  // Four centuries have 146097 days, whatever the year they start in.
  lemma FourCenturies(y: nat, m: nat)
    requires 1 <= y && 1 <= m <= 13
    ensures FirstOf(y + 400, m) == FirstOf(y, m) + 146_097
  {
    var n := y - 1;
    assert (n + 400) / 4 == n / 4 + 100 && (n + 400) / 100 == n / 100 + 4 && (n + 400) / 400 == n / 400 + 1;
    SameMonthsLater(y, m);
  }

  lemma SameRemainder(y: nat, m: nat, k: nat)
    requires m in {4, 100, 400} && m * k == 400
    ensures (y + 400) % m == y % m
  {
    assert y + 400 == m * (y / m + k) + y % m;
  }

  lemma LeapAgain(y: nat)
    ensures IsLeap(y + 400) == IsLeap(y)
  {
    SameRemainder(y, 4, 100);
    SameRemainder(y, 100, 4);
    SameRemainder(y, 400, 1);
  }

  lemma {:induction false} SameMonthsLater(y: nat, m: nat)
    requires 1 <= m <= 13
    ensures MonthStart(y + 400, m) == MonthStart(y, m)
    decreases m
  {
    LeapAgain(y);
    if m > 1 { SameMonthsLater(y, m - 1); }
  }

  lemma SameWeekday(d: nat)
    ensures Weekday(d + 146_097) == Weekday(d)
  {
    assert 146_097 == 7 * 20_871;
  }

  // The calendar repeats itself after 400 years, weekdays included.
  lemma CalendarRepeats(date: Date)
    requires ValidDate(date)
    ensures var later := Date(date.year + 400, date.month, date.day);
            ValidDate(later) && ToDays(later) == ToDays(date) + 146_097
            && Weekday(ToDays(later)) == Weekday(ToDays(date))
  {
    LeapAgain(date.year);
    FourCenturies(date.year, date.month);
    YearStartsGrow(1, date.year);
    SameWeekday(ToDays(date));
  }

  // Its anchor: the Unix epoch is a Thursday.
  lemma UnixEpoch()
    ensures ToDays(Date(1970, 1, 1)) == 719_162 && Weekday(719_162) == 4
  {
    assert YearStart(1970) == 719_162 && MonthStart(1970, 1) == 0;
  }

  // time.Date(year, month, 1) normalises month 13 to January of the next year.
  function FirstOfNextMonth(d: Date): (r: Date)
    requires ValidDate(d)
    ensures ValidDate(r)
  {
    if d.month == 12 then Date(d.year + 1, 1, 1) else Date(d.year, d.month + 1, 1)
  }

  lemma NextMonthStartsAfter(d: Date)
    requires ValidDate(d)
    ensures ToDays(FirstOfNextMonth(d)) == FirstOf(d.year, d.month) + DaysIn(d.year, d.month)
  {
    if d.month == 12 { MonthsMakeAYear(d.year); }
  }

  /* ---- weeks ---- */

  // Sunday is 0.
  function Weekday(d: nat): (w: nat)
    ensures w < 7
  {
    (d + 1) % 7
  }

  // The Thursday that decides which year a week belongs to.
  function ThursdayOf(d: nat): (t: nat)
    ensures t % 7 == 3 && t / 7 == d / 7
  {
    var shift := 4 - Weekday(d);
    d + (if shift == 4 then -3 else shift)
  }

  function WeekOfThursday(t: nat): (nat, nat) {
    (YearOf(t), (t - YearStart(YearOf(t))) / 7 + 1)
  }

  // ISO 8601:2004, section 2.2.10: weeks start on Monday, week 1 holds the year's first Thursday.
  function IsoWeek(d: nat): (r: (nat, nat)) {
    WeekOfThursday(ThursdayOf(d))
  }

  lemma IsoWeekInRange(d: nat)
    ensures 1 <= IsoWeek(d).0 && 1 <= IsoWeek(d).1 <= 53
  {
    YearLength(YearOf(ThursdayOf(d)));
  }

  lemma SevensApart(a: nat, b: nat, base: nat)
    requires a % 7 == b % 7 && base <= a && base <= b && (a - base) / 7 == (b - base) / 7
    ensures a == b
  {
  }

  // Days of one week share their Thursday, and so their week number.
  lemma SameWeek(d: nat, e: nat)
    requires d / 7 == e / 7
    ensures IsoWeek(d) == IsoWeek(e)
  {
    var t, u := ThursdayOf(d), ThursdayOf(e);
    assert t == 7 * (t / 7) + 3 && u == 7 * (u / 7) + 3;
  }

  lemma SameWeekNumber(d: nat, e: nat)
    requires IsoWeek(d) == IsoWeek(e)
    ensures d / 7 == e / 7
  {
    YearStartsGrow(1, IsoWeek(d).0);
    SevensApart(ThursdayOf(d), ThursdayOf(e), YearStart(IsoWeek(d).0));
  }

  // (ISO year, ISO week) names one week.
  lemma IsoWeekIsInjective(d: nat, e: nat)
    ensures IsoWeek(d) == IsoWeek(e) <==> d / 7 == e / 7
  {
    if d / 7 == e / 7 { SameWeek(d, e); }
    if IsoWeek(d) == IsoWeek(e) { SameWeekNumber(d, e); }
  }

  // Seven days later it is the same year or the next one.
  lemma YearSevenDaysOn(t: nat)
    ensures var y := YearOf(t); YearOf(t + 7) == (if t + 7 < YearStart(y + 1) then y else y + 1)
  {
    var y := YearOf(t);
    YearLength(y + 1);
    if t + 7 < YearStart(y + 1) { YearIsUnique(t + 7, y); } else { YearIsUnique(t + 7, y + 1); }
  }

  lemma WeekNumberAdvances(t: nat, base: nat)
    requires base <= t
    ensures (t + 7 - base) / 7 == (t - base) / 7 + 1
  {
  }

  lemma ThursdaySevenDaysOn(d: nat)
    ensures ThursdayOf(d + 7) == ThursdayOf(d) + 7
  {
    var t, u := ThursdayOf(d), ThursdayOf(d + 7);
    assert t == 7 * (t / 7) + 3 && u == 7 * (u / 7) + 3;
  }

  lemma ThursdayAdvances(t: nat)
    ensures var (y, w) := WeekOfThursday(t); WeekOfThursday(t + 7) == (y, w + 1) || WeekOfThursday(t + 7) == (y + 1, 1)
  {
    YearSevenDaysOn(t);
    WeekNumberAdvances(t, YearStart(YearOf(t)));
  }

  // Weeks are numbered consecutively, starting again from 1 in the next ISO year.
  lemma IsoWeekAdvances(d: nat)
    ensures var (y, w) := IsoWeek(d); IsoWeek(d + 7) == (y, w + 1) || IsoWeek(d + 7) == (y + 1, 1)
  {
    ThursdaySevenDaysOn(d);
    ThursdayAdvances(ThursdayOf(d));
  }

  /* which week is the first */

  // The Thursday of January 4th's week, at most three days before or after it, is in the first seven days of the year.
  lemma FirstThursday(y: nat)
    requires 1 <= y
    ensures 0 <= YearStart(y)
    ensures var first := 7 * ((YearStart(y) + 3) / 7) + 3; YearStart(y) <= first < YearStart(y) + 7
  {
    YearStartsGrow(1, y);
  }

  lemma WeeksSince(t: nat, first: nat, base: nat)
    requires t % 7 == first % 7 == 3 && base <= first < base + 7 && first <= t
    ensures (t - base) / 7 == t / 7 - first / 7
  {
    assert t - base == 7 * (t / 7 - first / 7) + (first - base);
  }

  lemma ThursdayIn(week: nat)
    ensures (7 * week + 3) % 7 == 3 && (7 * week + 3) / 7 == week
  {
  }

  // The Thursdays of an ISO year, between its first one and that of the next year.
  lemma ThursdayInYear(t: nat, y: nat, w: nat, first: nat, next: nat)
    requires 1 <= y && t % 7 == first % 7 == next % 7 == 3
    requires 0 <= YearStart(y) <= first < YearStart(y) + 7 && YearStart(y + 1) <= next < YearStart(y + 1) + 7
    ensures WeekOfThursday(t) == (y, w) <==> first / 7 <= t / 7 < next / 7 && w == t / 7 - first / 7 + 1
  {
    if first / 7 <= t / 7 < next / 7 {
      YearIsUnique(t, y);
      WeeksSince(t, first, YearStart(y));
    }
  }

  // January 4th and December 28th as day numbers.
  function January4(y: nat): (d: nat)
    requires 1 <= y
  {
    YearStartsGrow(1, y);
    YearStart(y) + 3
  }

  function December28(y: nat): (d: nat)
    requires 1 <= y
  {
    YearLength(y);
    YearStart(y + 1) - 4
  }

  lemma TheirDates(y: nat)
    requires 1 <= y
    ensures January4(y) == ToDays(Date(y, 1, 4)) && December28(y) == ToDays(Date(y, 12, 28))
  {
    MonthsMakeAYear(y);
    assert MonthStart(y, 1) == 0 && MonthStart(y, 13) == MonthStart(y, 12) + 31;
  }

  // By civil dates alone: week 1 of an ISO year is the week of January 4th, and the weeks are counted from
  // there up to the week before that of the next January 4th.
  lemma IsoWeekIff(d: nat, y: nat, w: nat)
    requires 1 <= y
    ensures January4(y) == ToDays(Date(y, 1, 4)) && January4(y + 1) == ToDays(Date(y + 1, 1, 4))
    ensures IsoWeek(d) == (y, w)
            <==> January4(y) / 7 <= d / 7 < January4(y + 1) / 7 && w == d / 7 - January4(y) / 7 + 1
  {
    WeeksFromJanuary4(d, y, w);
    TheirDates(y);
    TheirDates(y + 1);
  }

  lemma WeeksFromJanuary4(d: nat, y: nat, w: nat)
    requires 1 <= y
    ensures IsoWeek(d) == (y, w)
            <==> January4(y) / 7 <= d / 7 < January4(y + 1) / 7 && w == d / 7 - January4(y) / 7 + 1
  {
    FirstThursday(y);
    FirstThursday(y + 1);
    var a, b := January4(y) / 7, January4(y + 1) / 7;
    ThursdayIn(a);
    ThursdayIn(b);
    ThursdayInYear(ThursdayOf(d), y, w, 7 * a + 3, 7 * b + 3);
  }

  // January 4th is always in week 1 of its year, December 28th always in a week of its year.
  lemma YearEnds(y: nat)
    requires 1 <= y
    ensures January4(y) == ToDays(Date(y, 1, 4)) && December28(y) == ToDays(Date(y, 12, 28))
    ensures IsoWeek(January4(y)) == (y, 1) && IsoWeek(December28(y)).0 == y
  {
    TheirDates(y);
    FirstWeek(y);
    LastWeek(y);
  }

  lemma FirstWeek(y: nat)
    requires 1 <= y
    ensures IsoWeek(January4(y)) == (y, 1)
  {
    YearStartsGrow(y, y + 1);
    WeekBefore(January4(y), December28(y));
    WeeksFromJanuary4(January4(y), y, 1);
  }

  lemma LastWeek(y: nat)
    requires 1 <= y
    ensures IsoWeek(December28(y)).0 == y
  {
    YearStartsGrow(y, y + 1);
    WeekBefore(January4(y), December28(y));
    WeeksFromJanuary4(December28(y), y, December28(y) / 7 - January4(y) / 7 + 1);
  }

  lemma WeekBefore(first: nat, last: nat)
    requires first <= last
    ensures first / 7 <= last / 7 < (last + 7) / 7
  {
  }
}
