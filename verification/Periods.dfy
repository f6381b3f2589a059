/**
 * Usage counters are never reset: a new period simply gets a new key. These are the key, the
 * instant at which a limit resets, and the proof that the two agree at every instant.
 */
module Periods {
  import opened Prelude
  import opened Calendar

  datatype LimitType = Daily | Weekly | Monthly | Custom | PerTransaction | Other(name: string)

  predicate Periodic(lt: LimitType) {
    lt.Daily? || lt.Weekly? || lt.Monthly?
  }

  function Midnight(d: nat): Instant {
    d * DAY
  }

  function DayOf(t: Instant): nat {
    t / DAY
  }

  /* ---- the reset instant ---- */

  function ResetDay(lt: LimitType, d: nat): nat
    requires Periodic(lt)
  {
    match lt
    case Daily => d + 1
    case Monthly => NextMonthDay(d)
    case _ => d + DaysUntilMonday(Weekday(d))
  }

  function NextMonthDay(d: nat): nat {
    var first := FirstOfNextMonth(FromDays(d));
    DateRoundTrip(first);
    ToDays(first)
  }

  function DaysUntilMonday(weekday: nat): nat
    requires weekday < 7
  {
    if (8 - weekday) % 7 == 0 then 7 else (8 - weekday) % 7
  }

  function CalculateResetAt(lt: LimitType, now: Instant): Option<Instant> {
    if Periodic(lt) then Some(Midnight(ResetDay(lt, DayOf(now)))) else None
  }

  function CalculateCustomResetAt(end: Instant): Instant {
    Midnight(DayOf(end) + 1)
  }

  /* ---- the key, as printed ---- */

  function Digit(n: nat): char
    requires n < 10
  {
    '0' + n as char
  }

  function ValueOf(s: string): int {
    if s == "" then 0 else 10 * ValueOf(s[..|s| - 1]) + (s[|s| - 1] as int - '0' as int)
  }

  // Decimal digits, padded with zeros to at least width characters.
  function Padded(n: nat, width: nat): (s: string)
    ensures '-' !in s && ValueOf(s) == n
  {
    if n == 0 && width == 0 then "" else Padded(n / 10, if width == 0 then 0 else width - 1) + [Digit(n % 10)]
  }

  function DateKey(d: Date): string {
    Padded(d.year, 4) + ("-" + (Padded(d.month, 2) + ("-" + Padded(d.day, 2))))
  }

  function MonthKey(d: Date): string {
    Padded(d.year, 4) + ("-" + Padded(d.month, 2))
  }

  function WeekKey(week: (nat, nat)): string {
    Padded(week.0, 1) + ("-" + ("W" + Padded(week.1, 2)))
  }

  function CalculatePeriodKey(lt: LimitType, now: Instant): Option<string> {
    match lt
    case Daily => Some(DateKey(FromDays(DayOf(now))))
    case Monthly => Some(MonthKey(FromDays(DayOf(now))))
    case Weekly => Some(WeekKey(IsoWeek(DayOf(now))))
    case Custom => Some("custom")
    case PerTransaction => Some("")
    case Other(_) => None
  }

  function PowerOfTen(n: nat): nat {
    if n == 0 then 1 else 10 * PowerOfTen(n - 1)
  }

  lemma TenthFits(n: nat, p: nat)
    requires n < 10 * p
    ensures n / 10 < p
  {
  }

  lemma {:induction false} PaddedLength(n: nat, width: nat)
    requires n < PowerOfTen(width)
    ensures |Padded(n, width)| == width
  {
    if width > 0 {
      assert PowerOfTen(width) == 10 * PowerOfTen(width - 1);
      TenthFits(n, PowerOfTen(width - 1));
      PaddedLength(n / 10, width - 1);
    }
  }

  // Up to the year 9999 a DAILY key is YYYY-MM-DD: each field is read back from its place.
  lemma DateKeyReadsBack(d: Date)
    requires ValidDate(d) && d.year <= 9999
    ensures var k := DateKey(d);
            |k| == 10 && k[4] == k[7] == '-'
            && ValueOf(k[..4]) == d.year && ValueOf(k[5..7]) == d.month && ValueOf(k[8..]) == d.day
  {
    assert PowerOfTen(2) == 100 && PowerOfTen(4) == 100 * PowerOfTen(2);
    PaddedLength(d.year, 4);
    PaddedLength(d.month, 2);
    PaddedLength(d.day, 2);
    var k := DateKey(d);
    assert k[..4] == Padded(d.year, 4);
    assert k[5..7] == Padded(d.month, 2);
    assert k[8..] == Padded(d.day, 2);
  }

  // A MONTHLY key is YYYY-MM.
  lemma MonthKeyReadsBack(d: Date)
    requires ValidDate(d) && d.year <= 9999
    ensures var k := MonthKey(d); |k| == 7 && k[4] == '-' && ValueOf(k[..4]) == d.year && ValueOf(k[5..]) == d.month
  {
    assert PowerOfTen(2) == 100 && PowerOfTen(4) == 100 * PowerOfTen(2);
    PaddedLength(d.year, 4);
    PaddedLength(d.month, 2);
    var k := MonthKey(d);
    assert k[..4] == Padded(d.year, 4);
    assert k[5..] == Padded(d.month, 2);
  }

  // At every instant, up to the year 9999, the DAILY key reads back as the civil date of its day.
  lemma DailyKeyReadsBack(t: Instant)
    requires FromDays(DayOf(t)).year <= 9999
    ensures var k := CalculatePeriodKey(Daily, t).value;
            |k| == 10 && k[4] == k[7] == '-'
            && (var d := Date(ValueDigits(k[..4]), ValueDigits(k[5..7]), ValueDigits(k[8..])); ValidDate(d) && ToDays(d) == DayOf(t))
  {
    DateKeyReadsBack(FromDays(DayOf(t)));
  }

  // The MONTHLY key reads back as the month that its day lies in.
  lemma MonthlyKeyReadsBack(t: Instant)
    requires FromDays(DayOf(t)).year <= 9999
    ensures var k := CalculatePeriodKey(Monthly, t).value;
            |k| == 7 && k[4] == '-'
            && (var y, m := ValueDigits(k[..4]), ValueDigits(k[5..]);
                1 <= y && 1 <= m <= 12 && FirstOf(y, m) <= DayOf(t) < FirstOf(y, m + 1))
  {
    MonthKeyReadsBack(FromDays(DayOf(t)));
  }

  // A number read from a key.
  function ValueDigits(s: string): nat {
    if ValueOf(s) < 0 then 0 else ValueOf(s)
  }

  // The year before "-Www", and the week after "-W".
  function KeyYear(k: string): nat
    requires 4 <= |k|
  {
    ValueDigits(k[..|k| - 4])
  }

  function KeyWeek(k: string): nat
    requires 4 <= |k|
  {
    ValueDigits(k[|k| - 2..])
  }

  // A WEEKLY key is the year, -W and two digits of the week.
  lemma WeekKeyReadsBack(year: nat, week: nat)
    requires week <= 53
    ensures var k := WeekKey((year, week));
            4 <= |k| && k[|k| - 4..|k| - 2] == "-W" && KeyYear(k) == year && KeyWeek(k) == week
  {
    assert PowerOfTen(2) == 100;
    PaddedLength(week, 2);
    var k := WeekKey((year, week));
    assert k[..|k| - 4] == Padded(year, 1);
    assert k[|k| - 2..] == Padded(week, 2);
  }

  // At every instant the WEEKLY key reads back as a year and a week number, 01 to 53, and these are the week of
  // the day, counted from the week that January 4th of that year lies in.
  lemma WeeklyKeyReadsBack(t: Instant)
    ensures var k := CalculatePeriodKey(Weekly, t).value;
            4 <= |k| && k[|k| - 4..|k| - 2] == "-W" && 1 <= KeyYear(k) && 1 <= KeyWeek(k) <= 53
            && January4(KeyYear(k)) / 7 <= DayOf(t) / 7 < January4(KeyYear(k) + 1) / 7
            && DayOf(t) / 7 == January4(KeyYear(k)) / 7 + KeyWeek(k) - 1
  {
    var (year, week) := IsoWeek(DayOf(t));
    IsoWeekInRange(DayOf(t));
    WeekKeyReadsBack(year, week);
    WeeksFromJanuary4(DayOf(t), year, week);
  }

  // A text is cut at its first hyphen in one way only.
  lemma {:induction false} SplitsOnce(a: string, x: string, b: string, y: string)
    requires '-' !in a && '-' !in b && a + ("-" + x) == b + ("-" + y)
    ensures a == b && x == y
  {
    var l, r := a + ("-" + x), b + ("-" + y);
    assert l[|a|] == '-' && r[|b|] == '-';
    assert forall i :: 0 <= i < |a| ==> l[i] == a[i];
    assert forall i :: 0 <= i < |b| ==> r[i] == b[i];
    assert a == l[..|a|] && b == r[..|b|];
    assert x == l[|a| + 1..] && y == r[|b| + 1..];
  }

  lemma DateKeyNames(d: Date, e: Date)
    requires DateKey(d) == DateKey(e)
    ensures d == e
  {
    SplitsOnce(Padded(d.year, 4), Padded(d.month, 2) + ("-" + Padded(d.day, 2)),
               Padded(e.year, 4), Padded(e.month, 2) + ("-" + Padded(e.day, 2)));
    SplitsOnce(Padded(d.month, 2), Padded(d.day, 2), Padded(e.month, 2), Padded(e.day, 2));
  }

  lemma MonthKeyNames(d: Date, e: Date)
    requires MonthKey(d) == MonthKey(e)
    ensures d.year == e.year && d.month == e.month
  {
    SplitsOnce(Padded(d.year, 4), Padded(d.month, 2), Padded(e.year, 4), Padded(e.month, 2));
  }

  lemma WeekKeyNames(v: (nat, nat), w: (nat, nat))
    requires WeekKey(v) == WeekKey(w)
    ensures v == w
  {
    SplitsOnce(Padded(v.0, 1), "W" + Padded(v.1, 2), Padded(w.0, 1), "W" + Padded(w.1, 2));
    assert Padded(v.1, 2) == ("W" + Padded(v.1, 2))[1..] && Padded(w.1, 2) == ("W" + Padded(w.1, 2))[1..];
  }

  /* ---- what a key stands for ---- */

  // Two days belong to the same period of a limit.
  predicate SamePeriod(lt: LimitType, d: nat, e: nat)
    requires Periodic(lt)
  {
    match lt
    case Daily => d == e
    case Monthly => FromDays(d).year == FromDays(e).year && FromDays(d).month == FromDays(e).month
    case _ => d / 7 == e / 7
  }

  lemma KeyNamesPeriod(lt: LimitType, t: Instant, u: Instant)
    requires Periodic(lt)
    ensures CalculatePeriodKey(lt, t) == CalculatePeriodKey(lt, u) <==> SamePeriod(lt, DayOf(t), DayOf(u))
  {
    var d, e := DayOf(t), DayOf(u);
    match lt
    case Daily =>
      if DateKey(FromDays(d)) == DateKey(FromDays(e)) {
        DateKeyNames(FromDays(d), FromDays(e));
        assert d == ToDays(FromDays(d)) == ToDays(FromDays(e)) == e;
      }
    case Monthly =>
      if MonthKey(FromDays(d)) == MonthKey(FromDays(e)) { MonthKeyNames(FromDays(d), FromDays(e)); }
    case Weekly =>
      IsoWeekIsInjective(d, e);
      if WeekKey(IsoWeek(d)) == WeekKey(IsoWeek(e)) { WeekKeyNames(IsoWeek(d), IsoWeek(e)); }
  }

  lemma MondayAfter(d: nat)
    ensures ResetDay(Weekly, d) == 7 * (d / 7) + 7
  {
    assert Weekday(d) == (if d % 7 == 6 then 0 else d % 7 + 1);
  }

  lemma MonthSpan(d: nat, e: nat)
    requires d <= e
    ensures SamePeriod(Monthly, d, e) <==> e < ResetDay(Monthly, d)
  {
    var date := FromDays(d);
    NextMonthStartsAfter(date);
    if e < ResetDay(Monthly, d) { MonthIsUnique(e, date.year, date.month); }
  }

  // A period runs up to its reset day.
  lemma PeriodSpan(lt: LimitType, d: nat, e: nat)
    requires Periodic(lt) && d <= e
    ensures SamePeriod(lt, d, e) <==> e < ResetDay(lt, d)
    ensures d < ResetDay(lt, d)
  {
    if lt.Weekly? { MondayAfter(d); }
    if lt.Monthly? { MonthSpan(d, d); MonthSpan(d, e); }
  }

  lemma NextOfSameMonth(a: Date, b: Date)
    requires ValidDate(a) && ValidDate(b) && a.year == b.year && a.month == b.month
    ensures FirstOfNextMonth(a) == FirstOfNextMonth(b)
  {
  }

  lemma SameMonthSameReset(d: nat, e: nat)
    requires SamePeriod(Monthly, d, e)
    ensures ResetDay(Monthly, d) == ResetDay(Monthly, e)
  {
    NextOfSameMonth(FromDays(d), FromDays(e));
  }

  lemma SamePeriodSameReset(lt: LimitType, d: nat, e: nat)
    requires Periodic(lt) && d <= e
    ensures SamePeriod(lt, d, e) <==> ResetDay(lt, d) == ResetDay(lt, e)
  {
    PeriodSpan(lt, d, e);
    PeriodSpan(lt, e, e);
    if SamePeriod(lt, d, e) {
      match lt
      case Daily =>
      case Monthly => SameMonthSameReset(d, e);
      case Weekly => MondayAfter(d); MondayAfter(e);
    }
  }

  lemma MidnightOrder(d: nat, t: Instant)
    ensures t < Midnight(d) <==> DayOf(t) < d
    ensures DayOf(Midnight(d)) == d
  {
  }

  lemma MidnightsDiffer(d: nat, e: nat)
    ensures Midnight(d) == Midnight(e) <==> d == e
  {
  }

  /* ---- key and reset agree ---- */

  // Two instants share a counter exactly when they share a reset instant.
  lemma SameKeyIffSameReset(lt: LimitType, t: Instant, u: Instant)
    requires Periodic(lt)
    ensures CalculatePeriodKey(lt, t) == CalculatePeriodKey(lt, u) <==> CalculateResetAt(lt, t) == CalculateResetAt(lt, u)
  {
    KeyNamesPeriod(lt, t, u);
    if DayOf(t) <= DayOf(u) { SamePeriodSameReset(lt, DayOf(t), DayOf(u)); } else { SamePeriodSameReset(lt, DayOf(u), DayOf(t)); }
    MidnightsDiffer(ResetDay(lt, DayOf(t)), ResetDay(lt, DayOf(u)));
  }

  // From any instant on, the key holds until the reset instant and not a moment longer.
  lemma KeyHoldsUntilReset(lt: LimitType, t: Instant, u: Instant)
    requires Periodic(lt) && t <= u
    ensures t < CalculateResetAt(lt, t).value
    ensures CalculatePeriodKey(lt, u) == CalculatePeriodKey(lt, t) <==> u < CalculateResetAt(lt, t).value
  {
    KeyNamesPeriod(lt, t, u);
    PeriodSpan(lt, DayOf(t), DayOf(u));
    MidnightOrder(ResetDay(lt, DayOf(t)), t);
    MidnightOrder(ResetDay(lt, DayOf(t)), u);
  }

  // The reset instant is the first instant of the next period: it has a key of its own.
  lemma ResetOpensNextPeriod(lt: LimitType, t: Instant)
    requires Periodic(lt)
    ensures var r := CalculateResetAt(lt, t).value;
            CalculatePeriodKey(lt, r) != CalculatePeriodKey(lt, t)
            && CalculateResetAt(lt, r).value > r
            && (forall u: Instant :: t <= u && CalculatePeriodKey(lt, u) != CalculatePeriodKey(lt, t) ==> r <= u)
  {
    var r := CalculateResetAt(lt, t).value;
    KeyHoldsUntilReset(lt, t, t);
    KeyHoldsUntilReset(lt, t, r);
    KeyHoldsUntilReset(lt, r, r);
    forall u: Instant | t <= u && CalculatePeriodKey(lt, u) != CalculatePeriodKey(lt, t) ensures r <= u {
      KeyHoldsUntilReset(lt, t, u);
    }
  }
}
