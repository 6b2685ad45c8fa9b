/**
  The proleptic Gregorian calendar on day numbers counted from 1 January 1970: which year and month
  a day falls in, and the first days of that month and year. Defined from year and month lengths
  alone, so every fact below is proved, not looked up.
*/
module Calendar {

  const EPOCH_YEAR := 1970

  predicate IsLeap(y: int) {
    y % 4 == 0 && (y % 100 != 0 || y % 400 == 0)
  }

  function YearLength(y: int): int {
    if IsLeap(y) then 366 else 365
  }

  /** Day number of 1 January of year `y`. */
  function YearStart(y: int): int
    decreases if y >= EPOCH_YEAR then y - EPOCH_YEAR else EPOCH_YEAR - y
  {
    if y == EPOCH_YEAR then 0
    else if y > EPOCH_YEAR then YearStart(y - 1) + YearLength(y - 1)
    else YearStart(y + 1) - YearLength(y)
  }

  /** Leap years from year 1 up to but not including `y`, counted backwards before that. */
  function LeapsBefore(y: int): int {
    (y - 1) / 4 - (y - 1) / 100 + (y - 1) / 400
  }

  lemma FourthsNext(y: int)
    ensures y / 4 == (y - 1) / 4 + (if y % 4 == 0 then 1 else 0)
  {
  }

  lemma HundredthsNext(y: int)
    ensures y / 100 == (y - 1) / 100 + (if y % 100 == 0 then 1 else 0)
    ensures y % 100 == 0 ==> y % 4 == 0
  {
  }

  lemma FourHundredthsNext(y: int)
    ensures y / 400 == (y - 1) / 400 + (if y % 400 == 0 then 1 else 0)
    ensures y % 400 == 0 ==> y % 100 == 0
  {
  }

  /** Every leap year adds one. */
  lemma LeapsNext(y: int)
    ensures LeapsBefore(y + 1) == LeapsBefore(y) + (if IsLeap(y) then 1 else 0)
  {
    FourthsNext(y);
    HundredthsNext(y);
    FourHundredthsNext(y);
  }

  /** The usual closed form: 365 days a year and one for every leap year on the way. */
  lemma {:induction false} YearStartIs(y: int)
    ensures YearStart(y) == 365 * (y - EPOCH_YEAR) + LeapsBefore(y) - 477
    decreases if y >= EPOCH_YEAR then y - EPOCH_YEAR else EPOCH_YEAR - y
  {
    if y > EPOCH_YEAR {
      YearStartIs(y - 1);
      LeapsNext(y - 1);
    } else if y < EPOCH_YEAR {
      YearStartIs(y + 1);
      LeapsNext(y);
    }
  }

  lemma {:induction false} YearsAscend(a: int, b: int)
    requires a <= b
    ensures 365 * (b - a) <= YearStart(b) - YearStart(a) <= 366 * (b - a)
    decreases b - a
  {
    if a < b {
      YearsAscend(a, b - 1);
    }
  }

  ghost predicate InYear(d: int, y: int) {
    YearStart(y) <= d < YearStart(y + 1)
  }

  function YearUp(d: int, y: int): (r: int)
    requires YearStart(y) <= d
    ensures InYear(d, r)
    decreases d - YearStart(y)
  {
    if d < YearStart(y + 1) then y else YearUp(d, y + 1)
  }

  function YearDown(d: int, y: int): (r: int)
    requires d < YearStart(y + 1)
    ensures InYear(d, r)
    decreases YearStart(y + 1) - d
  {
    if YearStart(y) <= d then y else YearDown(d, y - 1)
  }

  /** The year of a day. */
  function YearOf(d: int): (y: int)
    ensures InYear(d, y)
  {
    if d >= 0 then YearUp(d, EPOCH_YEAR) else YearDown(d, EPOCH_YEAR - 1)
  }

  lemma YearIsUnique(d: int, y: int, z: int)
    requires InYear(d, y) && InYear(d, z)
    ensures y == z
  {
    if y < z {
      YearsAscend(y + 1, z);
    } else if z < y {
      YearsAscend(z + 1, y);
    }
  }

  lemma YearOfAscends(d: int, e: int)
    requires d <= e
    ensures YearOf(d) <= YearOf(e)
  {
    if YearOf(e) < YearOf(d) {
      YearsAscend(YearOf(e) + 1, YearOf(d));
    }
  }

  // ---------------------------------------------------------------- months

  const DAYS_BEFORE: seq<int> := [0, 31, 59, 90, 120, 151, 181, 212, 243, 273, 304, 334]

  /** Days of the year before month `m`; month 13 stands for the end of the year. */
  function DaysBefore(y: int, m: int): int
    requires 1 <= m <= 13
  {
    if m == 13 then YearLength(y) else DAYS_BEFORE[m - 1] + (if m > 2 && IsLeap(y) then 1 else 0)
  }

  function MonthLength(y: int, m: int): int
    requires 1 <= m <= 12
  {
    if m == 2 then (if IsLeap(y) then 29 else 28)
    else if m == 4 || m == 6 || m == 9 || m == 11 then 30
    else 31
  }

  /** The table of month starts is the running sum of the month lengths. */
  lemma MonthLengths(y: int, m: int)
    requires 1 <= m <= 12
    ensures DaysBefore(y, m + 1) == DaysBefore(y, m) + MonthLength(y, m)
  {
  }

  lemma {:induction false} MonthsAscend(y: int, a: int, b: int)
    requires 1 <= a <= b <= 13
    ensures DaysBefore(y, a) <= DaysBefore(y, b)
    decreases b - a
  {
    if a < b {
      MonthsAscend(y, a, b - 1);
      MonthLengths(y, b - 1);
    }
  }

  ghost predicate InMonth(d: int, y: int, m: int) {
    1 <= m <= 12 && YearStart(y) + DaysBefore(y, m) <= d < YearStart(y) + DaysBefore(y, m + 1)
  }

  function MonthDown(d: int, y: int, m: int): (r: int)
    requires 1 <= m <= 12 && YearStart(y) <= d < YearStart(y) + DaysBefore(y, m + 1)
    ensures InMonth(d, y, r)
    decreases m
  {
    if YearStart(y) + DaysBefore(y, m) <= d then m else MonthDown(d, y, m - 1)
  }

  function MonthOf(d: int): (m: int)
    ensures InMonth(d, YearOf(d), m)
  {
    MonthDown(d, YearOf(d), 12)
  }

  lemma MonthIsUnique(d: int, y: int, m: int)
    requires InMonth(d, y, m)
    ensures YearOf(d) == y && MonthOf(d) == m
  {
    YearIsUnique(d, y, YearOf(d));
    if m < MonthOf(d) {
      MonthsAscend(y, m + 1, MonthOf(d));
    } else if MonthOf(d) < m {
      MonthsAscend(y, MonthOf(d) + 1, m);
    }
  }

  // ---------------------------------------------------------------- first days

  function FirstOfYear(d: int): int {
    YearStart(YearOf(d))
  }

  function FirstOfMonth(d: int): int {
    YearStart(YearOf(d)) + DaysBefore(YearOf(d), MonthOf(d))
  }

  lemma FirstDays(d: int)
    ensures FirstOfYear(d) <= FirstOfMonth(d) <= d
    ensures YearOf(FirstOfMonth(d)) == YearOf(d) && YearOf(FirstOfYear(d)) == YearOf(d)
    ensures FirstOfMonth(FirstOfMonth(d)) == FirstOfMonth(d)
    ensures FirstOfYear(FirstOfMonth(d)) == FirstOfYear(d) == FirstOfYear(FirstOfYear(d))
  {
    var y, m := YearOf(d), MonthOf(d);
    MonthsAscend(y, 1, m);
    MonthIsUnique(FirstOfMonth(d), y, m);
    YearIsUnique(FirstOfYear(d), y, YearOf(FirstOfYear(d)));
  }

  lemma FirstOfYearTells(d: int, e: int)
    ensures FirstOfYear(d) == FirstOfYear(e) <==> YearOf(d) == YearOf(e)
  {
    FirstDays(d);
    FirstDays(e);
  }

  /** Days have the same first of the month exactly when they are in the same month of the same year. */
  lemma FirstOfMonthTells(d: int, e: int)
    ensures FirstOfMonth(d) == FirstOfMonth(e) <==> YearOf(d) == YearOf(e) && MonthOf(d) == MonthOf(e)
  {
    FirstDays(d);
    FirstDays(e);
  }

  lemma FirstOfYearAscends(d: int, e: int)
    requires d <= e
    ensures FirstOfYear(d) <= FirstOfYear(e)
  {
    YearOfAscends(d, e);
    YearsAscend(YearOf(d), YearOf(e));
  }

  lemma FirstOfMonthAscends(d: int, e: int)
    requires d <= e
    ensures FirstOfMonth(d) <= FirstOfMonth(e)
  {
    YearOfAscends(d, e);
    FirstDays(d);
    FirstDays(e);
    if YearOf(d) < YearOf(e) {
      YearsAscend(YearOf(d) + 1, YearOf(e));
    } else if MonthOf(e) < MonthOf(d) {
      MonthsAscend(YearOf(d), MonthOf(e) + 1, MonthOf(d));
    } else {
      MonthsAscend(YearOf(d), MonthOf(d), MonthOf(e));
    }
  }
}
