/** The proleptic Gregorian calendar from 0000-01-01 on, counted in whole months and days. */
module Calendar {

  predicate Leap(year: nat) {
    year % 4 == 0 && (year % 100 != 0 || year % 400 == 0)
  }

  /** Months are numbered from January of year 0. */
  function MonthLen(month: nat): nat {
    MonthDays(month % 12 + 1, Leap(month / 12))
  }

  function MonthDays(m: nat, leap: bool): nat {
    if m == 2 then (if leap then 29 else 28)
    else if m == 4 || m == 6 || m == 9 || m == 11 then 30
    else 31
  }

  function MonthIndex(year: nat, month: nat): nat
    requires 1 <= month <= 12
  {
    12 * year + month - 1
  }

  /** Days from 0000-01-01 to the first day of `month`. */
  function DaysBefore(month: nat): nat {
    if month == 0 then 0 else DaysBefore(month - 1) + MonthLen(month - 1)
  }

  /** A calendar day: a month and a day of that month, counted from 1. */
  datatype Date = Date(month: nat, day: nat)

  predicate Valid(d: Date) {
    1 <= d.day <= MonthLen(d.month)
  }

  function DayNumber(d: Date): nat
    requires d.day >= 1
  {
    DaysBefore(d.month) + d.day - 1
  }

  /** The date `n` days after the first day of `month`. */
  function DateFrom(month: nat, n: nat): (d: Date)
    ensures Valid(d) && d.month >= month
    decreases n
  {
    if n < MonthLen(month) then Date(month, n + 1) else DateFrom(month + 1, n - MonthLen(month))
  }

  function DateOf(n: nat): (d: Date)
    ensures Valid(d)
  {
    DateFrom(0, n)
  }

  lemma {:induction false} DateFromNumber(month: nat, n: nat)
    ensures DayNumber(DateFrom(month, n)) == DaysBefore(month) + n
    decreases n
  {
    if n >= MonthLen(month) {
      DateFromNumber(month + 1, n - MonthLen(month));
    }
  }

  lemma {:induction false} DaysBeforeMonotone(a: nat, b: nat)
    requires a < b
    ensures DaysBefore(a) + MonthLen(a) <= DaysBefore(b)
    decreases b
  {
    if a < b - 1 {
      DaysBeforeMonotone(a, b - 1);
    }
  }

  /** Dates compare month first and then day exactly as the days they denote. */
  lemma DateOrder(a: Date, b: Date)
    requires Valid(a) && Valid(b)
    ensures DayNumber(a) < DayNumber(b) <==> a.month < b.month || (a.month == b.month && a.day < b.day)
    ensures DayNumber(a) == DayNumber(b) <==> a == b
  {
    if a.month < b.month {
      DaysBeforeMonotone(a.month, b.month);
    } else if b.month < a.month {
      DaysBeforeMonotone(b.month, a.month);
    }
  }

  lemma NoLaterMonth(a: nat, b: nat)
    requires a <= b
    ensures DateOf(a).month <= DateOf(b).month
  {
    DateRoundTrip(a, DateOf(a));
    DateRoundTrip(b, DateOf(b));
    DateOrder(DateOf(b), DateOf(a));
  }

  /** Day numbers and valid dates are in one-to-one correspondence. */
  lemma DateRoundTrip(n: nat, d: Date)
    ensures DayNumber(DateOf(n)) == n
    ensures Valid(d) ==> DateOf(DayNumber(d)) == d
  {
    DateFromNumber(0, n);
    if Valid(d) {
      DateFromNumber(0, DayNumber(d));
      DateOrder(DateOf(DayNumber(d)), d);
    }
  }

  /** The twelve lengths of the months of a year. */
  lemma MonthLengths(year: nat, m: nat)
    requires m < 12
    ensures MonthLen(12 * year + m)
         == [31, if Leap(year) then 29 else 28, 31, 30, 31, 30, 31, 31, 30, 31, 30, 31][m]
  {
    SplitMonth(year, m);
  }

  function DaysInto(m: nat, leap: bool): nat {
    if m == 0 then 0 else DaysInto(m - 1, leap) + MonthDays(m, leap)
  }

  lemma SplitMonth(year: nat, m: nat)
    requires m < 12
    ensures (12 * year + m) / 12 == year && (12 * year + m) % 12 == m
  {
  }

  lemma {:induction false} WithinYear(year: nat, m: nat)
    requires m <= 12
    ensures DaysBefore(12 * year + m) == DaysBefore(12 * year) + DaysInto(m, Leap(year))
  {
    if m > 0 {
      WithinYear(year, m - 1);
      SplitMonth(year, m - 1);
      assert DaysBefore(12 * year + m) == DaysBefore(12 * year + (m - 1)) + MonthLen(12 * year + (m - 1));
    }
  }

  /** A year has 365 days, or 366 if it is a leap year. */
  lemma YearSpan(year: nat)
    ensures DaysBefore(12 * year + 12) == DaysBefore(12 * year) + if Leap(year) then 366 else 365
  {
    WithinYear(year, 12);
    assert DaysInto(12, true) == 366 && DaysInto(12, false) == 365;
  }

  /** The closed Gregorian rule for the days before a year. */
  function ClosedDaysBeforeYear(year: nat): int {
    365 * year + (year + 3) / 4 - (year + 99) / 100 + (year + 399) / 400
  }

  /** The month-by-month count agrees with the closed rule. */
  lemma {:induction false} GregorianYears(year: nat)
    ensures DaysBefore(12 * year) == ClosedDaysBeforeYear(year)
  {
    if year > 0 {
      var y := year - 1;
      GregorianYears(y);
      YearSpan(y);
      ClosedStep(y);
      assert 12 * year == 12 * y + 12;
    }
  }

  lemma ClosedStep(y: nat)
    ensures ClosedDaysBeforeYear(y + 1) == ClosedDaysBeforeYear(y) + if Leap(y) then 366 else 365
  {
    CeilStep(y, 4);
    CeilStep(y, 100);
    CeilStep(y, 400);
    Multiples(y, 25, 4);
    Multiples(y, 4, 100);
  }

  lemma Multiples(y: nat, k: nat, n: nat)
    requires n == 4 || n == 100
    requires k == if n == 4 then 25 else 4
    ensures y % (k * n) == 0 ==> y % n == 0
  {
    var q := y / (k * n);
    if y % (k * n) == 0 {
      assert y == n * (k * q);
    }
  }

  lemma CeilStep(y: nat, n: nat)
    requires n == 4 || n == 100 || n == 400
    ensures (y + n) / n == (y + n - 1) / n + if y % n == 0 then 1 else 0
  {
  }
}
