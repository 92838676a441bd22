/**
  Calendar dates in the proleptic Gregorian calendar, with the month lengths and
  leap-year rule of RFC 3339 section 5.7. This is the arithmetic that a JavaScript
  `Date` performs when `setDate(getDate() + 1)` or `setDate(getDate() - 1)` moves it
  by one day in UTC.

  `DayNumber` counts days from 0000-01-01, year by year and month by month; it
  agrees with the Gregorian closed form (`DaysBeforeYearClosedForm`) and is
  ECMAScript's day from the epoch plus 719528, that is the time value of the
  date's midnight divided by 86400000, plus 719528 (`DayNumberIsEpochDay`). It is
  the independent reference against which `NextDay` and `PrevDay` are proved.
 */
module Calendar {

  datatype Date = Date(year: int, month: int, day: int)

  /** Leap years: divisible by 4, except centuries not divisible by 400. */
  predicate IsLeapYear(y: int) {
    y % 4 == 0 && (y % 100 != 0 || y % 400 == 0)
  }

  function DaysInMonth(year: int, month: int): (n: int)
    requires 1 <= month <= 12
    ensures 28 <= n <= 31
  {
    if month == 2 then (if IsLeapYear(year) then 29 else 28)
    else if month == 4 || month == 6 || month == 9 || month == 11 then 30
    else 31
  }

  predicate IsValid(d: Date) {
    1 <= d.month <= 12 && 1 <= d.day <= DaysInMonth(d.year, d.month)
  }

  /** The following calendar day. */
  function NextDay(d: Date): (r: Date)
    requires IsValid(d)
    ensures IsValid(r)
  {
    if d.day < DaysInMonth(d.year, d.month) then Date(d.year, d.month, d.day + 1)
    else if d.month < 12 then Date(d.year, d.month + 1, 1)
    else Date(d.year + 1, 1, 1)
  }

  /** The preceding calendar day. */
  function PrevDay(d: Date): (r: Date)
    requires IsValid(d)
    ensures IsValid(r)
  {
    if d.day > 1 then Date(d.year, d.month, d.day - 1)
    else if d.month > 1 then Date(d.year, d.month - 1, DaysInMonth(d.year, d.month - 1))
    else Date(d.year - 1, 12, 31)
  }

  /** Chronological order: year first, then month, then day. */
  predicate Before(a: Date, b: Date) {
    a.year < b.year
    || (a.year == b.year && (a.month < b.month || (a.month == b.month && a.day < b.day)))
  }

  function YearLength(y: int): int {
    if IsLeapYear(y) then 366 else 365
  }

  /** Days from 0000-01-01 to January 1 of year `y` (negative before year 0), year by year. */
  function DaysBeforeYear(y: int): int
    decreases if y < 0 then -y else y
  {
    if y == 0 then 0
    else if y > 0 then DaysBeforeYear(y - 1) + YearLength(y - 1)
    else DaysBeforeYear(y + 1) - YearLength(y)
  }

  /** The Gregorian closed form of the day count: 365 a year plus the leap days before `y`. */
  function ClosedDaysBeforeYear(y: int): int {
    365 * y + (y + 3) / 4 - (y + 99) / 100 + (y + 399) / 400
  }

  /** Days from January 1 to the first day of `month` in `year`. */
  function DaysBeforeMonth(year: int, month: int): int
    requires 1 <= month <= 12
  {
    var common :=
      match month
      case 1 => 0 case 2 => 31 case 3 => 59 case 4 => 90 case 5 => 120 case 6 => 151
      case 7 => 181 case 8 => 212 case 9 => 243 case 10 => 273 case 11 => 304 case _ => 334;
    common + (if month > 2 && IsLeapYear(year) then 1 else 0)
  }

  function DayNumber(d: Date): int
    requires IsValid(d)
  {
    DaysBeforeYear(d.year) + DaysBeforeMonth(d.year, d.month) + d.day - 1
  }

  /** Stepping `y + c` and `y + c - 1` through a division by `c` gains one exactly at multiples of `c`. */
  lemma DivisionStep(y: int, c: int)
    requires c > 0
    ensures (y + c) / c - (y + c - 1) / c == if y % c == 0 then 1 else 0
  {
    var q, r := y / c, y % c;
    assert y == c * q + r && 0 <= r < c;
    assert y + c == c * (q + 1) + r;
    DivisionOf(y + c, c, q + 1, r);
    if r == 0 {
      assert y + c - 1 == c * q + (c - 1);
      DivisionOf(y + c - 1, c, q, c - 1);
    } else {
      assert y + c - 1 == c * (q + 1) + (r - 1);
      DivisionOf(y + c - 1, c, q + 1, r - 1);
    }
  }

  lemma DivisionOf(n: int, c: int, q: int, r: int)
    requires c > 0 && n == c * q + r && 0 <= r < c
    ensures n / c == q
  {
    var q', r' := n / c, n % c;
    assert n == c * q' + r' && 0 <= r' < c;
    if q' > q {
      assert c * q' >= c * (q + 1) by { MultiplyMonotone(c, q + 1, q'); }
    } else if q' < q {
      assert c * q >= c * (q' + 1) by { MultiplyMonotone(c, q' + 1, q); }
    }
  }

  lemma MultiplyMonotone(c: int, a: int, b: int)
    requires c > 0 && a <= b
    ensures c * a <= c * b
  {
    assert c * b - c * a == c * (b - a);
  }

  /** Each year contributes its own length to the day count. */
  lemma YearStep(y: int)
    ensures DaysBeforeYear(y + 1) == DaysBeforeYear(y) + YearLength(y)
  {
  }

  /** The closed form also grows by each year's length. */
  lemma ClosedYearStep(y: int)
    ensures ClosedDaysBeforeYear(y + 1) == ClosedDaysBeforeYear(y) + YearLength(y)
  {
    var fours := (y + 4) / 4 - (y + 3) / 4;
    var centuries := (y + 100) / 100 - (y + 99) / 100;
    var quads := (y + 400) / 400 - (y + 399) / 400;
    assert ClosedDaysBeforeYear(y + 1) - ClosedDaysBeforeYear(y) == 365 + fours - centuries + quads;
    DivisionStep(y, 4);
    DivisionStep(y, 100);
    DivisionStep(y, 400);
    CenturiesAreLeapCandidates(y);
  }

  /** Counting year by year agrees with the closed form, for every year. */
  lemma {:induction false} DaysBeforeYearClosedForm(y: int)
    ensures DaysBeforeYear(y) == ClosedDaysBeforeYear(y)
    decreases if y < 0 then -y else y
  {
    if y > 0 {
      DaysBeforeYearClosedForm(y - 1);
      ClosedYearStep(y - 1);
    } else if y < 0 {
      DaysBeforeYearClosedForm(y + 1);
      ClosedYearStep(y);
    }
  }

  /**
    ECMAScript's `DayFromYear` (ECMA-262, "Year Number"): the day, counted from
    1970-01-01, on which year `y` begins. Its divisions are floor divisions, as
    Dafny's are for a positive divisor.
   */
  function DayFromYear(y: int): int {
    365 * (y - 1970) + (y - 1969) / 4 - (y - 1901) / 100 + (y - 1601) / 400
  }

  /**
    ECMAScript's `MakeDay(year, month - 1, day)` for a valid date: the day,
    counted from 1970-01-01, whose midnight has time value `EpochDay(d) * 86400000`.
   */
  function EpochDay(d: Date): int
    requires IsValid(d)
  {
    DayFromYear(d.year) + DaysBeforeMonth(d.year, d.month) + d.day - 1
  }

  /** Adding `k` multiples of `c` adds `k` to the quotient. */
  lemma DivisionShift(n: int, c: int, k: int)
    requires c > 0
    ensures (n + c * k) / c == n / c + k
  {
    assert n + c * k == c * (n / c + k) + n % c;
    DivisionOf(n + c * k, c, n / c + k, n % c);
  }

  /** For every year, the day count from 0000-01-01 is ECMAScript's day count from 1970-01-01 plus 719528. */
  lemma DaysBeforeYearIsDayFromYear(y: int)
    ensures DaysBeforeYear(y) == DayFromYear(y) + 719528
  {
    DaysBeforeYearClosedForm(y);
    DivisionShift(y - 1969, 4, 493);
    DivisionShift(y - 1901, 100, 20);
    DivisionShift(y - 1601, 400, 5);
  }

  /** For every valid date, `DayNumber` is ECMAScript's day from the epoch plus 719528. */
  lemma DayNumberIsEpochDay(d: Date)
    requires IsValid(d)
    ensures DayNumber(d) == EpochDay(d) + 719528
  {
    DaysBeforeYearIsDayFromYear(d.year);
  }

  /** The Unix epoch, 1970-01-01, is day 719528: the shift between day numbers and JavaScript time values. */
  lemma UnixEpochDayNumber()
    ensures DayNumber(Date(1970, 1, 1)) == 719528
  {
    DayNumberIsEpochDay(Date(1970, 1, 1));
  }

  /** A multiple of 400 is a multiple of 100, which is a multiple of 4. */
  lemma CenturiesAreLeapCandidates(y: int)
    ensures y % 400 == 0 ==> y % 100 == 0
    ensures y % 100 == 0 ==> y % 4 == 0
  {
    if y % 400 == 0 {
      DivisionOf(y, 100, 4 * (y / 400), 0);
    }
    if y % 100 == 0 {
      DivisionOf(y, 4, 25 * (y / 100), 0);
    }
  }

  /** The day of the year of a valid date lies within the year's length. */
  lemma DayOfYearBounds(d: Date)
    requires IsValid(d)
    ensures 0 <= DayNumber(d) - DaysBeforeYear(d.year) < YearLength(d.year)
  {
  }

  /** Each month contributes its own length to the day count of its year. */
  lemma MonthStep(year: int, month: int)
    requires 1 <= month < 12
    ensures DaysBeforeMonth(year, month + 1) == DaysBeforeMonth(year, month) + DaysInMonth(year, month)
  {
  }

  /** `NextDay` moves the day count forward by exactly one. */
  lemma NextDayIsOneDayLater(d: Date)
    requires IsValid(d)
    ensures DayNumber(NextDay(d)) == DayNumber(d) + 1
  {
    if d.day < DaysInMonth(d.year, d.month) {
    } else if d.month < 12 {
      MonthStep(d.year, d.month);
    } else {
      YearStep(d.year);
      assert DaysBeforeMonth(d.year, 12) + 31 == YearLength(d.year);
    }
  }

  /** `PrevDay` moves the day count back by exactly one. */
  lemma PrevDayIsOneDayEarlier(d: Date)
    requires IsValid(d)
    ensures DayNumber(PrevDay(d)) == DayNumber(d) - 1
  {
    if d.day > 1 {
    } else if d.month > 1 {
      MonthStep(d.year, d.month - 1);
    } else {
      YearStep(d.year - 1);
      assert DaysBeforeMonth(d.year - 1, 12) + 31 == YearLength(d.year - 1);
    }
  }

  /** Day steps are mutually inverse on every valid date. */
  lemma NextPrevInverse(d: Date)
    requires IsValid(d)
    ensures PrevDay(NextDay(d)) == d
    ensures NextDay(PrevDay(d)) == d
  {
  }

  /** The day count of January 1 grows strictly from year to year. */
  lemma {:induction false} DaysBeforeYearMonotone(a: int, b: int)
    requires a < b
    ensures DaysBeforeYear(a) + YearLength(a) <= DaysBeforeYear(b)
    decreases b - a
  {
    YearStep(a);
    if a + 1 < b {
      DaysBeforeYearMonotone(a + 1, b);
      YearStep(a + 1);
    }
  }

  /** Chronological order coincides with the order of day numbers. */
  lemma BeforeIffEarlierDayNumber(a: Date, b: Date)
    requires IsValid(a) && IsValid(b)
    ensures Before(a, b) <==> DayNumber(a) < DayNumber(b)
  {
    DayOfYearBounds(a);
    DayOfYearBounds(b);
    if a.year < b.year {
      DaysBeforeYearMonotone(a.year, b.year);
    } else if b.year < a.year {
      DaysBeforeYearMonotone(b.year, a.year);
    }
  }

  /** Distinct valid dates have distinct day numbers. */
  lemma DayNumberInjective(a: Date, b: Date)
    requires IsValid(a) && IsValid(b) && DayNumber(a) == DayNumber(b)
    ensures a == b
  {
    BeforeIffEarlierDayNumber(a, b);
    BeforeIffEarlierDayNumber(b, a);
  }

  /** `NextDay(d)` is the earliest valid date after `d`: no valid date lies strictly between. */
  lemma NextDayIsSuccessor(d: Date, e: Date)
    requires IsValid(d) && IsValid(e)
    ensures Before(d, NextDay(d))
    ensures Before(d, e) ==> e == NextDay(d) || Before(NextDay(d), e)
  {
    var n := NextDay(d);
    NextDayIsOneDayLater(d);
    BeforeIffEarlierDayNumber(d, n);
    BeforeIffEarlierDayNumber(d, e);
    BeforeIffEarlierDayNumber(n, e);
    if Before(d, e) && DayNumber(e) == DayNumber(n) {
      DayNumberInjective(e, n);
    }
  }

  /** `PrevDay(d)` is the latest valid date before `d`: no valid date lies strictly between. */
  lemma PrevDayIsPredecessor(d: Date, e: Date)
    requires IsValid(d) && IsValid(e)
    ensures Before(PrevDay(d), d)
    ensures Before(e, d) ==> e == PrevDay(d) || Before(e, PrevDay(d))
  {
    var p := PrevDay(d);
    PrevDayIsOneDayEarlier(d);
    BeforeIffEarlierDayNumber(p, d);
    BeforeIffEarlierDayNumber(e, d);
    BeforeIffEarlierDayNumber(e, p);
    if Before(e, d) && DayNumber(e) == DayNumber(p) {
      DayNumberInjective(e, p);
    }
  }
}
