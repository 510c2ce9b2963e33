/** Lease-end dates. Day numbers and civil dates follow section 21.4.1 of ECMA-262
    (ES2021 and later): a date is a day number, month and day setters let their argument
    overflow, and the year is recovered from the day number. */
module Calendar {

  datatype Date = Date(year: int, month: int, day: int) // month is 1 to 12

  // ---- years and months ----------------------------------------------------------------

  predicate Leap(y: int) {
    y % 4 == 0 && (y % 100 != 0 || y % 400 == 0)
  }

  function DaysInYear(y: int): int {
    if Leap(y) then 366 else 365
  }

  /** Day number of 1 January. */
  function DayFromYear(y: int): int {
    365 * (y - 1970) + (y - 1969) / 4 - (y - 1901) / 100 + (y - 1601) / 400
  }

  /** Days before month `m` (0 to 11, and 12 for the whole year) of a year. */
  function DaysBefore(leap: bool, m: int): int
    requires 0 <= m <= 12
  {
    var feb := if leap then 29 else 28;
    match m
    case 0 => 0
    case 1 => 31
    case 2 => 31 + feb
    case 3 => 62 + feb
    case 4 => 92 + feb
    case 5 => 123 + feb
    case 6 => 153 + feb
    case 7 => 184 + feb
    case 8 => 215 + feb
    case 9 => 245 + feb
    case 10 => 276 + feb
    case 11 => 306 + feb
    case _ => 337 + feb
  }

  /** Months are counted from year 0: month index 12 * year + zero-based month. */
  function MonthIndex(d: Date): int {
    12 * d.year + d.month - 1
  }

  function MonthLength(k: int): int {
    DaysBefore(Leap(k / 12), k % 12 + 1) - DaysBefore(Leap(k / 12), k % 12)
  }

  /** Day number of the first day of month `k`. */
  function FirstDay(k: int): int {
    DayFromYear(k / 12) + DaysBefore(Leap(k / 12), k % 12)
  }

  /** MakeDay: month and day-of-month overflow into the neighbouring months. */
  function MakeDay(year: int, month0: int, day: int): int {
    FirstDay(12 * year + month0) + day - 1
  }

  ghost predicate Valid(d: Date) {
    1 <= d.month <= 12 && 1 <= d.day <= MonthLength(MonthIndex(d))
  }

  function DayNumber(d: Date): int {
    MakeDay(d.year, d.month - 1, d.day)
  }

  /** Total length of `n` calendar months beginning with month `k`. */
  function SpanOfMonths(k: int, n: nat): int {
    if n == 0 then 0 else SpanOfMonths(k, n - 1) + MonthLength(k + n - 1)
  }

  // ---- day number back to civil date ----------------------------------------------------

  lemma YearStep(y: int)
    ensures DayFromYear(y + 1) == DayFromYear(y) + DaysInYear(y)
  {
    Every4(y);
    Every100(y);
    Every400(y);
  }

  lemma Every4(y: int)
    ensures (y - 1968) / 4 == (y - 1969) / 4 + (if y % 4 == 0 then 1 else 0)
  {
  }

  lemma Every100(y: int)
    ensures (y - 1900) / 100 == (y - 1901) / 100 + (if y % 100 == 0 then 1 else 0)
    ensures y % 100 == 0 ==> y % 4 == 0
  {
    var q, r := y / 100, y % 100;
    assert y == 100 * q + r;
    Floor100(y - 1900, q - 19);
    Floor100(y - 1901, if r == 0 then q - 20 else q - 19);
    if r == 0 {
      FourthOf(y, 25 * q);
    }
  }

  lemma FourthOf(x: int, k: int)
    requires x == 4 * k
    ensures x % 4 == 0
  {
  }

  lemma HundredthOf(x: int, k: int)
    requires x == 100 * k
    ensures x % 100 == 0
  {
  }

  lemma Floor100(x: int, q: int)
    requires 100 * q <= x < 100 * q + 100
    ensures x / 100 == q
  {
  }

  lemma Floor400(x: int, q: int)
    requires 400 * q <= x < 400 * q + 400
    ensures x / 400 == q
  {
  }

  lemma Every400(y: int)
    ensures (y - 1600) / 400 == (y - 1601) / 400 + (if y % 400 == 0 then 1 else 0)
    ensures y % 400 == 0 ==> y % 100 == 0
  {
    var q, r := y / 400, y % 400;
    assert y == 400 * q + r;
    Floor400(y - 1600, q - 4);
    Floor400(y - 1601, if r == 0 then q - 5 else q - 4);
    if r == 0 {
      HundredthOf(y, 4 * q);
    }
  }

  lemma {:induction false} YearsMonotone(y: int, z: int)
    requires y <= z
    ensures DayFromYear(y) + 365 * (z - y) <= DayFromYear(z) <= DayFromYear(y) + 366 * (z - y)
    decreases z - y
  {
    if y < z {
      YearsMonotone(y, z - 1);
      YearStep(z - 1);
    }
  }

  /** YearFromTime: the largest year whose first day is not after day `t`. */
  function YearFromDay(t: int): (y: int)
    ensures DayFromYear(y) <= t < DayFromYear(y + 1)
  {
    if t >= 0 then
      YearsMonotone(1970, 1970 + t / 366);
      SearchYear(t, 1970 + t / 366)
    else
      YearsMonotone(1970 + t / 365, 1970);
      SearchYear(t, 1970 + t / 365)
  }

  function SearchYear(t: int, y: int): (r: int)
    requires DayFromYear(y) <= t
    ensures DayFromYear(r) <= t < DayFromYear(r + 1)
    decreases t - DayFromYear(y)
  {
    YearStep(y);
    if DayFromYear(y + 1) <= t then SearchYear(t, y + 1) else y
  }

  /** MonthFromTime, zero-based, from the day within the year. */
  function MonthFromDayInYear(leap: bool, d: int, m: int): (r: int)
    requires 0 <= m <= 11 && DaysBefore(leap, m) <= d < DaysBefore(leap, 12)
    ensures m <= r <= 11 && DaysBefore(leap, r) <= d < DaysBefore(leap, r + 1)
    decreases 12 - m
  {
    if d < DaysBefore(leap, m + 1) then m else MonthFromDayInYear(leap, d, m + 1)
  }

  lemma YearEnds(leap: bool)
    ensures DaysBefore(leap, 0) == 0 && DaysBefore(leap, 12) == if leap then 366 else 365
  {
  }

  lemma IndexParts(y: int, m: int)
    requires 0 <= m <= 11
    ensures FirstDay(12 * y + m) == DayFromYear(y) + DaysBefore(Leap(y), m)
    ensures MonthLength(12 * y + m) == DaysBefore(Leap(y), m + 1) - DaysBefore(Leap(y), m)
  {
    assert (12 * y + m) / 12 == y && (12 * y + m) % 12 == m;
  }

  function DateFromDay(t: int): Date {
    var y := YearFromDay(t);
    YearStep(y);
    var m := MonthFromDayInYear(Leap(y), t - DayFromYear(y), 0);
    Date(y, m + 1, t - DayFromYear(y) - DaysBefore(Leap(y), m) + 1)
  }

  lemma DateFromDayCorrect(t: int)
    ensures Valid(DateFromDay(t)) && DayNumber(DateFromDay(t)) == t
  {
    hide DayFromYear, DaysBefore, Leap, FirstDay, MonthLength;
    var y := YearFromDay(t);
    YearStep(y);
    YearEnds(Leap(y));
    var m := MonthFromDayInYear(Leap(y), t - DayFromYear(y), 0);
    IndexParts(y, m);
  }

  /** Consecutive months abut, across year ends and leap days alike. */
  lemma MonthStep(k: int)
    ensures FirstDay(k + 1) == FirstDay(k) + MonthLength(k)
    ensures 28 <= MonthLength(k) <= 31
  {
    var y, m := k / 12, k % 12;
    if m == 11 {
      YearStep(y);
      assert (k + 1) / 12 == y + 1 && (k + 1) % 12 == 0;
    } else {
      assert (k + 1) / 12 == y && (k + 1) % 12 == m + 1;
    }
  }

  lemma {:induction false} MonthsMonotone(k: int, l: int)
    requires k <= l
    ensures FirstDay(k) + 28 * (l - k) <= FirstDay(l)
    decreases l - k
  {
    hide FirstDay, MonthLength, DateFromDay;
    if k < l {
      MonthsMonotone(k, l - 1);
      MonthStep(l - 1);
    }
  }

  /** The closed day-number formula agrees with adding month lengths one by one. */
  lemma {:induction false} SpanIsDifference(k: int, n: nat)
    ensures FirstDay(k + n) == FirstDay(k) + SpanOfMonths(k, n)
  {
    hide FirstDay, MonthLength, DateFromDay;
    if n > 0 {
      SpanIsDifference(k, n - 1);
      MonthStep(k + n - 1);
    }
  }

  /** Day numbers and valid civil dates are one-to-one: with `DateFromDayCorrect`, the two
      conversions are inverse on every date, leap days included. */
  lemma CivilRoundTrip(d: Date)
    requires Valid(d)
    ensures DateFromDay(DayNumber(d)) == d
  {
    hide FirstDay, MonthLength, DateFromDay;
    DateFromDayCorrect(DayNumber(d));
    DayNumberInjective(d, DateFromDay(DayNumber(d)));
  }

  lemma DayNumberInjective(d: Date, e: Date)
    requires Valid(d) && Valid(e) && DayNumber(d) == DayNumber(e)
    ensures d == e
  {
    hide FirstDay, MonthLength, DateFromDay;
    var k, l := MonthIndex(d), MonthIndex(e);
    MonthStep(k);
    MonthStep(l);
    if k < l {
      MonthsMonotone(k + 1, l);
    } else if l < k {
      MonthsMonotone(l + 1, k);
    }
  }

  // ---- the Date object and addMonthsMinusDay -----------------------------------------

  /** `Date.UTC(y, month0, d)`: years 0 to 99 stand for 1900 to 1999. */
  function DateUTC(y: int, month0: int, d: int): int {
    MakeDay(if 0 <= y <= 99 then 1900 + y else y, month0, d)
  }

  /** A date object holding a UTC midnight as its day number. */
  class JsDate {
    var time: int

    constructor UTC(y: int, month0: int, d: int)
      ensures time == DateUTC(y, month0, d)
    {
      time := DateUTC(y, month0, d);
    }

    function Fields(): Date
      reads this
    {
      DateFromDay(time)
    }

    method SetUTCMonth(month0: int)
      modifies this
      ensures time == MakeDay(old(Fields()).year, month0, old(Fields()).day)
    {
      var f := Fields();
      time := MakeDay(f.year, month0, f.day);
    }

    method SetUTCDate(day: int)
      modifies this
      ensures time == old(time) + day - old(Fields()).day
    {
      hide FirstDay, DateFromDay;
      DateFromDayCorrect(time);
      var f := Fields();
      time := MakeDay(f.year, f.month - 1, day);
    }
  }

  /** Where `addMonthsMinusDay` ends up, as a day number. */
  function EndDay(start: Date, months: int): int {
    var date := DateFromDay(DateUTC(start.year, start.month - 1, start.day));
    MakeDay(date.year, date.month - 1 + months, date.day) - 1
  }

  function LeaseEnd(start: Date, months: int): Date {
    DateFromDay(EndDay(start, months))
  }

  function DayAfter(d: Date): Date {
    DateFromDay(DayNumber(d) + 1)
  }

  /** The lease term: shift the month, let the day overflow, step back one day. */
  method AddMonthsMinusDay(start: Date, months: int) returns (end: Date)
    ensures end == LeaseEnd(start, months)
  {
    hide FirstDay, MonthLength, DateFromDay;
    var date := new JsDate.UTC(start.year, start.month - 1, start.day);
    date.SetUTCMonth(date.Fields().month - 1 + months);
    DateFromDayCorrect(date.time);
    date.SetUTCDate(date.Fields().day - 1);
    end := date.Fields();
  }

  // ---- what the convention promises ----------------------------------------------------

  lemma EndDayClosed(start: Date, months: int)
    requires Valid(start) && !(0 <= start.year <= 99)
    ensures EndDay(start, months) == FirstDay(MonthIndex(start) + months) + start.day - 2
    ensures DayNumber(LeaseEnd(start, months)) == EndDay(start, months) && Valid(LeaseEnd(start, months))
  {
    hide FirstDay, MonthLength, DateFromDay;
    CivilRoundTrip(start);
    DateFromDayCorrect(EndDay(start, months));
  }

  lemma TwoDigitYearsShift(start: Date, months: nat)
    requires Valid(start) && 0 <= start.year <= 99
    ensures DayNumber(LeaseEnd(start, months)) > FirstDay(MonthIndex(start) + months) + start.day
  {
    hide FirstDay, MonthLength, DateFromDay;
    var t := DateUTC(start.year, start.month - 1, start.day);
    var date := DateFromDay(t);
    DateFromDayCorrect(t);
    DateFromDayCorrect(EndDay(start, months));
    MonthStep(MonthIndex(date));
    MonthStep(MonthIndex(start));
    MonthsMonotone(22800, 22800 + MonthIndex(start));
    if MonthIndex(date) + 1 <= 22800 {
      MonthsMonotone(MonthIndex(date) + 1, 22800);
      assert false;
    }
    MonthsMonotone(MonthIndex(start) + months, MonthIndex(date) + months);
  }

  /** Counting both ends, the term from `start` is exactly the summed length of `months`
      calendar months beginning with the start's month, for every valid start of year 100
      or later, days 29 to 31 included; for the years `Date.UTC` reads as 19xx it never is. */
  lemma LeaseSpan(start: Date, months: nat)
    requires Valid(start) && start.year >= 0
    ensures DayNumber(LeaseEnd(start, months)) - DayNumber(start) + 1 == SpanOfMonths(MonthIndex(start), months)
       <==> start.year >= 100
  {
    hide FirstDay, MonthLength, DateFromDay;
    SpanIsDifference(MonthIndex(start), months);
    if start.year >= 100 {
      EndDayClosed(start, months);
    } else {
      TwoDigitYearsShift(start, months);
    }
  }

  /** A lease of a + b months against an a-month lease followed by a b-month lease starting
      the next day: they end on the same day exactly when the start's day of the month
      exists in the month a later, or the months a and a + b later have one length. */
  lemma LeaseSplits(start: Date, a: nat, b: nat)
    requires Valid(start) && start.year >= 100
    ensures LeaseEnd(DayAfter(LeaseEnd(start, a)), b) == LeaseEnd(start, a + b)
       <==> (start.day <= MonthLength(MonthIndex(start) + a)
             || MonthLength(MonthIndex(start) + a) == MonthLength(MonthIndex(start) + a + b))
  {
    hide FirstDay, MonthLength, DateFromDay;
    var k := MonthIndex(start) + a;
    var next := DayAfter(LeaseEnd(start, a));
    EndDayClosed(start, a);
    EndDayClosed(start, a + b);
    DateFromDayCorrect(EndDay(start, a) + 1);
    MonthStep(MonthIndex(start));
    MonthStep(k);
    MonthStep(k + 1);
    MonthStep(k + b);
    var expected := if start.day <= MonthLength(k) then FromIndex(k, start.day)
                    else FromIndex(k + 1, start.day - MonthLength(k));
    MonthsMonotone(MonthIndex(start), k);
    assert MonthIndex(expected) >= 12 * 100;
    assert DayNumber(next) == DayNumber(expected);
    DayNumberInjective(next, expected);
    EndDayClosed(next, b);
    assert EndDay(next, b) - EndDay(start, a + b)
        == if start.day <= MonthLength(k) then 0 else MonthLength(k + b) - MonthLength(k);
  }

  function FromIndex(k: int, day: int): (d: Date)
    ensures MonthIndex(d) == k && d.day == day && 1 <= d.month <= 12
  {
    Date(k / 12, k % 12 + 1, day)
  }

  /** Days 1 to 28 exist in every month, so such leases always split. */
  lemma EarlyStartsSplit(start: Date, a: nat, b: nat)
    requires Valid(start) && start.year >= 100 && start.day <= 28
    ensures DayAfter(LeaseEnd(start, a)).day == start.day
    ensures LeaseEnd(DayAfter(LeaseEnd(start, a)), b) == LeaseEnd(start, a + b)
  {
    hide FirstDay, MonthLength, DateFromDay;
    var k := MonthIndex(start) + a;
    MonthStep(k);
    LeaseSplits(start, a, b);
    EndDayClosed(start, a);
    DateFromDayCorrect(EndDay(start, a) + 1);
    var next := DayAfter(LeaseEnd(start, a));
    DayNumberInjective(next, FromIndex(k, start.day));
  }

  /** Exactly when a later start ends earlier: the start is in the very next month, and the
      earlier day overflows the target month by more than the later day reaches into its own. */
  lemma EndsOutOfOrder(s: Date, t: Date, months: nat)
    requires Valid(s) && Valid(t) && s.year >= 100 && DayNumber(s) <= DayNumber(t)
    ensures DayNumber(LeaseEnd(t, months)) < DayNumber(LeaseEnd(s, months))
       <==> (MonthIndex(t) == MonthIndex(s) + 1 && s.day > MonthLength(MonthIndex(s) + months) + t.day)
  {
    hide FirstDay, MonthLength, DateFromDay;
    var k, l := MonthIndex(s), MonthIndex(t);
    MonthStep(k);
    MonthStep(k + months);
    MonthStep(k + 1 + months);
    MonthStep(l);
    if l < k {
      MonthsMonotone(l + 1, k);
      assert false;
    }
    assert t.year >= 100;
    EndDayClosed(s, months);
    EndDayClosed(t, months);
    if l > k {
      MonthsMonotone(k + 1 + months, l + months);
    }
  }

  /** In particular the end is monotone for starts on days 1 to 28, and 31 January against
      1 February is out of order for a one-month lease. */
  lemma EarlyStartsMonotone(s: Date, t: Date, months: nat)
    requires Valid(s) && Valid(t) && s.year >= 100 && DayNumber(s) <= DayNumber(t) && s.day <= 28
    ensures DayNumber(LeaseEnd(s, months)) <= DayNumber(LeaseEnd(t, months))
  {
    hide FirstDay, MonthLength, DateFromDay;
    MonthStep(MonthIndex(s) + months);
    EndsOutOfOrder(s, t, months);
  }

  lemma JanuaryOutOfOrder()
    ensures LeaseEnd(Date(2026, 1, 31), 1) == Date(2026, 3, 2)
    ensures LeaseEnd(Date(2026, 2, 1), 1) == Date(2026, 2, 28)
  {
    hide FirstDay, MonthLength, DateFromDay;
    MonthsOf2026();
    EndDayClosed(Date(2026, 1, 31), 1);
    EndDayClosed(Date(2026, 2, 1), 1);
    DayNumberInjective(LeaseEnd(Date(2026, 1, 31), 1), Date(2026, 3, 2));
    DayNumberInjective(LeaseEnd(Date(2026, 2, 1), 1), Date(2026, 2, 28));
  }

  lemma MonthsOf2026()
    ensures MonthLength(24312) == 31 && MonthLength(24313) == 28 && MonthLength(24314) == 31
    ensures FirstDay(24314) == FirstDay(24313) + 28
  {
    hide FirstDay;
    MonthStep(24313);
  }

  // ---- the civil calendar itself ----------------------------------------------------------

  /** Thirty days have April, June, September and November; February has 28, and 29 in years
      divisible by 4 but not by 100 unless by 400; the rest have 31. */
  lemma MonthLengths(year: int, month: int)
    requires 1 <= month <= 12
    ensures month in {4, 6, 9, 11} ==> MonthLength(12 * year + month - 1) == 30
    ensures month in {1, 3, 5, 7, 8, 10, 12} ==> MonthLength(12 * year + month - 1) == 31
    ensures month == 2 ==> MonthLength(12 * year + month - 1)
                           == if year % 400 == 0 || (year % 4 == 0 && year % 100 != 0) then 29 else 28
  {
    IndexParts(year, month - 1);
    LeapRule(year);
    TableLengths(Leap(year), month);
    hide Leap, DaysBefore, MonthLength;
  }

  lemma LeapRule(year: int)
    ensures Leap(year) <==> year % 400 == 0 || (year % 4 == 0 && year % 100 != 0)
  {
    if year % 400 == 0 {
      assert year == 4 * (100 * (year / 400));
      assert year % 4 == 0;
    }
  }

  lemma TableLengths(leap: bool, month: int)
    requires 1 <= month <= 12
    ensures DaysBefore(leap, month) - DaysBefore(leap, month - 1)
         == if month in {4, 6, 9, 11} then 30 else if month != 2 then 31 else if leap then 29 else 28
  {
  }

  /** Day 0 is 1 January 1970, and each day's number is one more than the day's before it. */
  lemma DaysAreCounted(d: Date)
    requires Valid(d)
    ensures DayNumber(Date(1970, 1, 1)) == 0
    ensures d.day < MonthLength(MonthIndex(d)) ==> DayNumber(d.(day := d.day + 1)) == DayNumber(d) + 1
    ensures d.day == MonthLength(MonthIndex(d)) ==>
              DayNumber(if d.month == 12 then Date(d.year + 1, 1, 1) else Date(d.year, d.month + 1, 1)) == DayNumber(d) + 1
  {
    hide FirstDay, MonthLength;
    MonthStep(MonthIndex(d));
    Epoch();
  }

  lemma Epoch()
    ensures FirstDay(12 * 1970) == 0
  {
  }

  lemma MonthLeaseEnds(year: int, month: int)
    requires year >= 100 && 1 <= month <= 12
    ensures LeaseEnd(Date(year, month, 1), 1) == Date(year, month, MonthLength(12 * year + month - 1))
  {
    hide FirstDay, MonthLength, DateFromDay;
    var start, k := Date(year, month, 1), 12 * year + month - 1;
    MonthStep(k);
    EndDayClosed(start, 1);
    CivilRoundTrip(Date(year, month, MonthLength(k)));
  }

  /** From year 100 on, a one-month lease from the first of a month ends on that month's last day. */
  lemma MonthLeaseEndsWithMonth(year: int, month: int)
    requires year >= 100 && 1 <= month <= 12
    ensures var end := LeaseEnd(Date(year, month, 1), 1);
            && end.year == year && end.month == month
            && (month in {4, 6, 9, 11} ==> end.day == 30)
            && (month in {1, 3, 5, 7, 8, 10, 12} ==> end.day == 31)
            && (month == 2 ==> end.day == if year % 400 == 0 || (year % 4 == 0 && year % 100 != 0) then 29 else 28)
  {
    MonthLeaseEnds(year, month);
    MonthLengths(year, month);
    hide LeaseEnd, MonthLength;
  }
}
