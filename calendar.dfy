/**
 * Calendar dates as Python's `date` and `datetime` treat them: the proleptic Gregorian
 * calendar for years 1 to 9999, compared field by field, advanced one day at a time.
 */
module Calendar {

  datatype Date = Date(year: int, month: int, day: int)

  /** The year the pipeline reconciles: the forced year of the consumption file and the report's year. */
  const ProcessingYear := 2024

  /** Python's `MINYEAR` and `MAXYEAR`. */
  const MinYear := 1
  const MaxYear := 9999

  predicate IsLeapYear(y: int) {
    y % 4 == 0 && (y % 100 != 0 || y % 400 == 0)
  }

  function DaysInMonth(y: int, m: int): (n: int)
    requires 1 <= m <= 12
    ensures 28 <= n <= 31
    ensures n == 29 <==> m == 2 && IsLeapYear(y)
  {
    if m == 2 then (if IsLeapYear(y) then 29 else 28)
    else if m == 4 || m == 6 || m == 9 || m == 11 then 30
    else 31
  }

  function DaysInYear(y: int): int {
    if IsLeapYear(y) then 366 else 365
  }

  /** A date Python's `date` constructor accepts. */
  predicate ValidDate(d: Date) {
    MinYear <= d.year <= MaxYear && 1 <= d.month <= 12 && 1 <= d.day <= DaysInMonth(d.year, d.month)
  }

  /** `date.max`: the one valid date that has no successor. */
  const LastDate := Date(MaxYear, 12, 31)

  /** Date comparison `a < b`: by year, then month, then day. */
  predicate Before(a: Date, b: Date) {
    a.year < b.year || (a.year == b.year && (a.month < b.month || (a.month == b.month && a.day < b.day)))
  }

  /** `min(a, b)` for dates. */
  function Earlier(a: Date, b: Date): (r: Date)
    ensures r == a || r == b
    ensures !Before(a, r) && !Before(b, r)
  {
    if Before(b, a) then b else a
  }

  // ---------------------------------------------------------------------------------------
  // Day numbers: the count of days since 0001-01-01, which is day 1 (`date.toordinal()`).

  function DaysBeforeYear(y: int): int
    requires y >= 1
  {
    var n := y - 1;
    365 * n + n / 4 - n / 100 + n / 400
  }

  function DaysBeforeMonth(y: int, m: int): int
    requires 1 <= m <= 12
  {
    (if m > 2 && IsLeapYear(y) then 1 else 0) +
    (if m == 1 then 0 else if m == 2 then 31 else if m == 3 then 59 else if m == 4 then 90
     else if m == 5 then 120 else if m == 6 then 151 else if m == 7 then 181 else if m == 8 then 212
     else if m == 9 then 243 else if m == 10 then 273 else if m == 11 then 304 else 334)
  }

  function Ordinal(d: Date): int
    requires ValidDate(d)
  {
    DaysBeforeYear(d.year) + DaysBeforeMonth(d.year, d.month) + d.day
  }

  lemma YearLength(y: int)
    requires y >= 1
    ensures DaysBeforeYear(y + 1) == DaysBeforeYear(y) + DaysInYear(y)
  {
    var n := y - 1;
    DivStep4(n);
    DivStep100(n);
    DivStep400(n);
    if y % 100 == 0 { CenturyByFour(y / 100); }
    if y % 400 == 0 { FourCenturiesByHundred(y / 400); }
  }

  // Counting step of each leap-year rule: one more multiple of K exactly when n + 1 is one.

  lemma DivStep4(n: nat)
    ensures (n + 1) / 4 - n / 4 == if (n + 1) % 4 == 0 then 1 else 0
  {
  }

  lemma DivStep100(n: nat)
    ensures (n + 1) / 100 - n / 100 == if (n + 1) % 100 == 0 then 1 else 0
  {
  }

  lemma DivStep400(n: nat)
    ensures (n + 1) / 400 - n / 400 == if (n + 1) % 400 == 0 then 1 else 0
  {
  }

  /** Every century year is divisible by 4. */
  lemma CenturyByFour(k: int)
    ensures (100 * k) % 4 == 0
  {
  }

  /** Every year divisible by 400 is a century year. */
  lemma FourCenturiesByHundred(k: int)
    ensures (400 * k) % 100 == 0
  {
  }

  lemma MonthLength(y: int, m: int)
    requires 1 <= m <= 12
    ensures m < 12 ==> DaysBeforeMonth(y, m + 1) == DaysBeforeMonth(y, m) + DaysInMonth(y, m)
    ensures m == 12 ==> DaysBeforeMonth(y, m) + DaysInMonth(y, m) == DaysInYear(y)
  {
  }

  /** Years that come later start later. */
  lemma {:induction false} YearsIncrease(y: int, z: int)
    requires 1 <= y <= z
    ensures DaysBeforeYear(y) + 365 * (z - y) <= DaysBeforeYear(z)
    decreases z - y
  {
    if y < z {
      YearLength(y);
      YearsIncrease(y + 1, z);
    }
  }

  /** Every date of year `y` lies between the first and the last day number of that year. */
  lemma DayWithinYear(d: Date)
    requires ValidDate(d)
    ensures DaysBeforeYear(d.year) < Ordinal(d) <= DaysBeforeYear(d.year) + DaysInYear(d.year)
  {
    MonthLength(d.year, d.month);
    if d.month < 12 {
      MonthsIncrease(d.year, d.month + 1, 12);
      MonthLength(d.year, 12);
    }
  }

  lemma {:induction false} MonthsIncrease(y: int, m: int, n: int)
    requires 1 <= m <= n <= 12
    ensures DaysBeforeMonth(y, m) <= DaysBeforeMonth(y, n)
  {
  }

  /**
   * Field-by-field order and day-number order agree on valid dates, so
   * `Before` is a strict total order and day numbers identify dates.
   */
  lemma {:induction false} BeforeIffOrdinalLess(a: Date, b: Date)
    requires ValidDate(a) && ValidDate(b)
    ensures Before(a, b) <==> Ordinal(a) < Ordinal(b)
    ensures a == b <==> Ordinal(a) == Ordinal(b)
  {
    if Before(a, b) {
      OrdinalIncreases(a, b);
    } else if Before(b, a) {
      OrdinalIncreases(b, a);
    }
  }

  lemma {:induction false} OrdinalIncreases(a: Date, b: Date)
    requires ValidDate(a) && ValidDate(b) && Before(a, b)
    ensures Ordinal(a) < Ordinal(b)
  {
    if a.year < b.year {
      DayWithinYear(a);
      DayWithinYear(b);
      YearLength(a.year);
      YearsIncrease(a.year + 1, b.year);
    } else if a.month < b.month {
      MonthLength(a.year, a.month);
      MonthsIncrease(a.year, a.month + 1, b.month);
    }
  }

  /** `d + timedelta(days=1)`: the next calendar day, across month and year ends and 29 February. */
  function NextDay(d: Date): (r: Date)
    requires ValidDate(d) && d != LastDate
    ensures ValidDate(r) && Before(d, r)
    ensures Ordinal(r) == Ordinal(d) + 1
  {
    MonthLength(d.year, d.month);
    if d.day < DaysInMonth(d.year, d.month) then Date(d.year, d.month, d.day + 1)
    else if d.month < 12 then Date(d.year, d.month + 1, 1)
    else
      YearLength(d.year);
      Date(d.year + 1, 1, 1)
  }

  /** No valid date lies strictly between a date and the next one. */
  lemma NothingBetween(d: Date, e: Date)
    requires ValidDate(d) && d != LastDate && ValidDate(e)
    ensures !(Before(d, e) && Before(e, NextDay(d)))
  {
    BeforeIffOrdinalLess(d, e);
    BeforeIffOrdinalLess(e, NextDay(d));
  }
}
