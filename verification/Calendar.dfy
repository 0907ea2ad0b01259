/** Days since the Unix epoch as dates of the Gregorian calendar. */
module Calendar {
  import opened Bits

  predicate IsLeap(year: int) {
    (year % 4 == 0 && year % 100 != 0) || year % 400 == 0
  }

  function DaysInYear(year: int): int { if IsLeap(year) then 366 else 365 }

  function MonthDays(leap: bool): (days: seq<int>)
    ensures |days| == 12
  {
    if leap then [31, 29, 31, 30, 31, 30, 31, 31, 30, 31, 30, 31] else [31, 28, 31, 30, 31, 30, 31, 31, 30, 31, 30, 31]
  }

  /** Leap years from year 1 up to and including `year`. */
  function LeapsUpTo(year: int): int { year / 4 - year / 100 + year / 400 }

  /** Days from the epoch to the first of January of `year`, in closed form. */
  function DaysBeforeYear(year: int): int {
    365 * (year - 1970) + LeapsUpTo(year - 1) - LeapsUpTo(1969)
  }

  /** Days of the first `months` months of a year. */
  function DaysBeforeMonth(leap: bool, months: nat): (days: int)
    requires months <= 12
    ensures days >= 0
  {
    if months == 0 then 0 else DaysBeforeMonth(leap, months - 1) + MonthDays(leap)[months - 1]
  }

  predicate ValidDate(year: int, month: int, day: int) {
    year >= 1970 && 1 <= month <= 12 && 1 <= day <= MonthDays(IsLeap(year))[month - 1]
  }

  function DayNumber(year: int, month: int, day: int): int
    requires ValidDate(year, month, day)
  {
    DaysBeforeYear(year) + DaysBeforeMonth(IsLeap(year), month - 1) + day - 1
  }

  lemma YearStep(year: int)
    ensures DaysBeforeYear(year + 1) == DaysBeforeYear(year) + DaysInYear(year)
  {
    QuotientStep(year, 4);
    QuotientStep(year, 100);
    QuotientStep(year, 400);
    Centuries(year);
  }

  lemma Centuries(year: int)
    ensures year % 400 == 0 ==> year % 100 == 0
    ensures year % 100 == 0 ==> year % 4 == 0
  {
  }

  lemma QuotientStep(n: int, d: int)
    requires d >= 2
    ensures n / d - (n - 1) / d == if n % d == 0 then 1 else 0
  {
    var q, r := n / d, n % d;
    if r == 0 {
      assert n - 1 == (q - 1) * d + (d - 1) by { assert (q - 1) * d == q * d - d; }
      DivModUnique(n - 1, d, q - 1, d - 1);
    } else {
      DivModUnique(n - 1, d, q, r - 1);
    }
  }

  /** The days in front of each month and the lengths of the months, in closed form. */
  lemma {:induction false} MonthsClosedForm(leap: bool, m: int)
    requires 1 <= m <= 12
    ensures DaysBeforeMonth(leap, m - 1) == (367 * m - 362) / 12 - (if m <= 2 then 0 else if leap then 1 else 2)
    ensures MonthDays(leap)[m - 1] ==
            if m == 2 then (if leap then 29 else 28) else if m == 4 || m == 6 || m == 9 || m == 11 then 30 else 31
    decreases m
  {
    if m > 1 { MonthsClosedForm(leap, m - 1); }
  }

  lemma WholeYear(leap: bool)
    ensures DaysBeforeMonth(leap, 12) == if leap then 366 else 365
  {
    MonthsClosedForm(leap, 12);
  }

  lemma NoMonths(leap: bool)
    ensures DaysBeforeMonth(leap, 0) == 0
  {
  }

  lemma MonthStep(leap: bool, m: nat)
    requires m < 12
    ensures DaysBeforeMonth(leap, m + 1) == DaysBeforeMonth(leap, m) + MonthDays(leap)[m]
  {
  }

  /** The month with index `m` holds what is left of the days. */
  lemma Found(y: int, m: nat, d: int, days: int)
    requires y >= 1970 && m <= 12 && DaysBeforeYear(y) + DaysBeforeMonth(IsLeap(y), m) + d == days
    requires m < 12 ==> d < MonthDays(IsLeap(y))[m]
    requires m == 12 ==> d < 0
    ensures d >= 0 ==>
              (d + 1) % 0x1_0000_0000 == d + 1 && ValidDate(y, m + 1, d + 1) && DayNumber(y, m + 1, d + 1) == days
  {
    hide DaysBeforeYear, DaysBeforeMonth, IsLeap;
    if d >= 0 { MonthLength(IsLeap(y), m); SmallMod(d + 1, 0x1_0000_0000); }
  }

  lemma MonthLength(leap: bool, m: nat)
    requires m < 12
    ensures 28 <= MonthDays(leap)[m] <= 31
  {
  }

  /** A date of the Gregorian calendar from 1970 on, and its day number, without tables and loops. */
  lemma DatesClosedForm(y: int, m: int, d: int)
    ensures ValidDate(y, m, d) <==>
            y >= 1970 && 1 <= m <= 12 && 1 <= d &&
            d <= if m == 2 then (if y % 4 == 0 && (y % 100 != 0 || y % 400 == 0) then 29 else 28)
                 else if m == 4 || m == 6 || m == 9 || m == 11 then 30 else 31
    ensures ValidDate(y, m, d) ==>
              DayNumber(y, m, d) ==
              365 * (y - 1970) + (y - 1) / 4 - (y - 1) / 100 + (y - 1) / 400 - 477 +
              (367 * m - 362) / 12 - (if m <= 2 then 0
                                      else if y % 4 == 0 && (y % 100 != 0 || y % 400 == 0) then 1 else 2) + d - 1
  {
    hide MonthDays, DaysBeforeMonth;
    if 1 <= m <= 12 {
      MonthsClosedForm(IsLeap(y), m);
      FourHundred(y);
    }
  }

  lemma FourHundred(y: int)
    ensures y % 400 == 0 ==> y % 4 == 0
  {
    Centuries(y);
  }

  /** For days from the epoch on, the date whose day number they are; before it, the loops do not
      run and the day wraps around in 32 bits. */
  method EpochDaysToDate(days: int) returns (year: int, month: int, day: int)
    ensures days >= 0 ==> ValidDate(year, month, day) && DayNumber(year, month, day) == days
    ensures days < 0 ==> year == 1970 && month == 1 && day == (days + 1) % 0x1_0000_0000
  {
    assert DaysBeforeYear(1970) == 0;
    hide DaysBeforeYear, IsLeap, LeapsUpTo, MonthDays, DaysBeforeMonth, ValidDate, DayNumber;
    var y, d := 1970, days;
    while true
      invariant y >= 1970 && DaysBeforeYear(y) + d == days
      invariant days >= 0 ==> d >= 0
      invariant days < 0 ==> y == 1970 && d == days
      decreases d
    {
      var diy := if IsLeap(y) then 366 else 365;
      if d < diy {
        break;
      }
      YearStep(y);
      d := d - diy;
      y := y + 1;
    }
    var monthDays := MonthDays(IsLeap(y));
    WholeYear(IsLeap(y));
    NoMonths(IsLeap(y));
    var m := 0;
    while m < |monthDays|
      invariant 0 <= m <= 12
      invariant DaysBeforeYear(y) + DaysBeforeMonth(IsLeap(y), m) + d == days
      invariant days >= 0 ==> d >= 0
      invariant days < 0 ==> m == 0 && d == days && y == 1970
      invariant d < DaysInYear(y) - DaysBeforeMonth(IsLeap(y), m)
    {
      if d < monthDays[m] {
        break;
      }
      MonthStep(IsLeap(y), m);
      d := d - monthDays[m];
      m := m + 1;
    }
    Found(y, m, d, days);
    return y, m + 1, (d + 1) % 0x1_0000_0000;
  }

  predicate Earlier(y: int, m: int, d: int, y': int, m': int, d': int) {
    y < y' || (y == y' && (m < m' || (m == m' && d < d')))
  }

  lemma {:induction false} YearsApart(y: int, y': int)
    requires y < y'
    ensures DaysBeforeYear(y) + DaysInYear(y) <= DaysBeforeYear(y')
    decreases y' - y
  {
    YearStep(y' - 1);
    if y < y' - 1 { YearsApart(y, y' - 1); }
  }

  lemma {:induction false} MonthsApart(leap: bool, m: nat, m': nat)
    requires m < m' <= 12
    ensures DaysBeforeMonth(leap, m) + MonthDays(leap)[m] <= DaysBeforeMonth(leap, m')
    decreases m'
  {
    if m < m' - 1 { MonthsApart(leap, m, m' - 1); }
  }

  /** Later dates have larger day numbers, so the conversion is strictly monotone and inverts the closed form. */
  lemma DayNumberMonotone(y: int, m: int, d: int, y': int, m': int, d': int)
    requires ValidDate(y, m, d) && ValidDate(y', m', d')
    ensures Earlier(y, m, d, y', m', d') <==> DayNumber(y, m, d) < DayNumber(y', m', d')
    ensures (y, m, d) == (y', m', d') <==> DayNumber(y, m, d) == DayNumber(y', m', d')
  {
    OneWay(y, m, d, y', m', d');
    OneWay(y', m', d', y, m, d);
  }

  lemma OneWay(y: int, m: int, d: int, y': int, m': int, d': int)
    requires ValidDate(y, m, d) && ValidDate(y', m', d')
    ensures Earlier(y, m, d, y', m', d') ==> DayNumber(y, m, d) < DayNumber(y', m', d')
  {
    hide DaysBeforeYear, MonthDays;
    var leap := IsLeap(y);
    WithinYear(leap, m, d);
    if y < y' {
      YearsApart(y, y');
    } else if y == y' && m < m' {
      MonthsApart(leap, m - 1, m' - 1);
    }
  }

  lemma WithinYear(leap: bool, m: int, d: int)
    requires 1 <= m <= 12 && d <= MonthDays(leap)[m - 1]
    ensures DaysBeforeMonth(leap, m - 1) + d <= if leap then 366 else 365
  {
    WholeYear(leap);
    if m < 12 { MonthsApart(leap, m - 1, 12); }
  }

  /** Every date from 1970 on comes back from its day number. */
  method RoundTrip(year: int, month: int, day: int) returns (y: int, m: int, d: int)
    requires ValidDate(year, month, day)
    ensures (y, m, d) == (year, month, day)
  {
    EpochFirst(year, month, day);
    y, m, d := EpochDaysToDate(DayNumber(year, month, day));
    DayNumberMonotone(y, m, d, year, month, day);
  }

  lemma EpochFirst(year: int, month: int, day: int)
    requires ValidDate(year, month, day)
    ensures DayNumber(year, month, day) >= 0
  {
    if year > 1970 { YearsApart(1970, year); }
  }
}
