/** The part of ECMAScript's `Date` that renewals use: the proleptic Gregorian calendar, without time zones. */
module Calendar {

  const DAY := 86400000

  predicate Leap(y: int) {
    y % 4 == 0 && (y % 100 != 0 || y % 400 == 0)
  }

  /** Months are counted as 12 * year + month, with month 0 for January. */
  function MonthLength(m: int): (n: int)
    ensures 28 <= n <= 31
  {
    match m % 12
    case 1 => if Leap(m / 12) then 29 else 28
    case 3 => 30
    case 5 => 30
    case 8 => 30
    case 10 => 30
    case _ => 31
  }

  const EPOCH := 1970 * 12

  /** Day number of the first of a month: months laid end to end, with day 0 on 1 January 1970. */
  function MonthStart(m: int): int
    decreases if m < EPOCH then EPOCH - m else m - EPOCH
  {
    if m == EPOCH then 0
    else if m > EPOCH then MonthStart(m - 1) + MonthLength(m - 1)
    else MonthStart(m + 1) - MonthLength(m)
  }

  /** Months tile the days: each starts where the one before ends. */
  lemma MonthStep(m: int)
    ensures MonthStart(m + 1) == MonthStart(m) + MonthLength(m)
  {
  }

  /** The summed lengths of `k` calendar months, starting with month `m`. */
  function Span(m: int, k: nat): int
    decreases k
  {
    if k == 0 then 0 else MonthLength(m) + Span(m + 1, k - 1)
  }

  lemma {:induction false} SpanTelescopes(m: int, k: nat)
    ensures MonthStart(m + k) == MonthStart(m) + Span(m, k)
    ensures 28 * k <= Span(m, k) <= 31 * k
    decreases k
  {
    if k > 0 {
      MonthStep(m);
      SpanTelescopes(m + 1, k - 1);
    }
  }

  // -------------------------------------------------------- the standard's formula

  /** `DayFromYear` of ECMA-262, section 21.4.1.3: the day number of 1 January. */
  function DayFromYear(y: int): int {
    365 * (y - 1970) + (y - 1969) / 4 - (y - 1901) / 100 + (y - 1601) / 400
  }

  lemma DivStep4(a: int)
    ensures (a + 1) / 4 == a / 4 + if (a + 1) % 4 == 0 then 1 else 0
  {
  }

  lemma DivStep100(a: int)
    ensures (a + 1) / 100 == a / 100 + if (a + 1) % 100 == 0 then 1 else 0
  {
  }

  lemma DivStep400(a: int)
    ensures (a + 1) / 400 == a / 400 + if (a + 1) % 400 == 0 then 1 else 0
  {
  }

  lemma Same4(y: int)
    ensures (y - 1969 + 1) % 4 == y % 4
  {
  }

  lemma Same100(y: int)
    ensures (y - 1901 + 1) % 100 == y % 100
  {
  }

  lemma Same400(y: int)
    ensures (y - 1601 + 1) % 400 == y % 400
  {
  }

  lemma YearStep(y: int)
    ensures DayFromYear(y + 1) == DayFromYear(y) + if Leap(y) then 366 else 365
  {
    DivStep4(y - 1969);
    DivStep100(y - 1901);
    DivStep400(y - 1601);
    Same4(y);
    Same100(y);
    Same400(y);
    RemaindersNest(y);
  }

  lemma RemaindersNest(y: int)
    ensures (y % 400 == 0 ==> y % 100 == 0) && (y % 100 == 0 ==> y % 4 == 0)
  {
  }

  lemma Split12(y: int, k: int)
    requires 0 <= k < 12
    ensures (12 * y + k) / 12 == y && (12 * y + k) % 12 == k
  {
  }

  /** The three months of quarter `q` of year `y`. */
  lemma QuarterOfYear(y: int, q: int)
    requires 0 <= q < 4
    ensures Span(12 * y + 3 * q, 3) == if q == 0 then (if Leap(y) then 91 else 90) else if q == 1 then 91 else 92
  {
    Split12(y, 3 * q);
    Split12(y, 3 * q + 1);
    Split12(y, 3 * q + 2);
    SpanThree(12 * y + 3 * q);
  }

  lemma FourQuarters(m: int)
    ensures MonthStart(m + 12) == MonthStart(m) + Span(m, 3) + Span(m + 3, 3) + Span(m + 6, 3) + Span(m + 9, 3)
  {
    SpanTelescopes(m, 3);
    SpanTelescopes(m + 3, 3);
    SpanTelescopes(m + 6, 3);
    SpanTelescopes(m + 9, 3);
  }

  lemma YearLength(y: int)
    ensures MonthStart(12 * y + 12) == MonthStart(12 * y) + if Leap(y) then 366 else 365
  {
    FourQuarters(12 * y);
    QuarterOfYear(y, 0);
    QuarterOfYear(y, 1);
    QuarterOfYear(y, 2);
    QuarterOfYear(y, 3);
  }

  lemma SpanThree(m: int)
    ensures Span(m, 3) == MonthLength(m) + MonthLength(m + 1) + MonthLength(m + 2)
  {
    assert Span(m + 2, 1) == MonthLength(m + 2) + Span(m + 3, 0);
    assert Span(m + 1, 2) == MonthLength(m + 1) + Span(m + 2, 1);
  }

  lemma NewYears(y: int)
    ensures MonthStart(12 * (y + 1)) - MonthStart(12 * y) == DayFromYear(y + 1) - DayFromYear(y)
  {
    YearStep(y);
    YearLength(y);
    assert 12 * (y + 1) == 12 * y + 12;
  }

  /** Months laid end to end agree with the standard's closed formula at every new year. */
  lemma {:induction false} AgreesWithStandard(y: int)
    ensures MonthStart(12 * y) == DayFromYear(y)
    decreases if y < 1970 then 1970 - y else y - 1970
  {
    if y > 1970 {
      AgreesWithStandard(y - 1);
      NewYears(y - 1);
    } else if y < 1970 {
      AgreesWithStandard(y + 1);
      NewYears(y);
    }
  }

  /** Days of the year before a month, in a year that is not a leap year (ECMA-262, section 21.4.1.4). */
  function DaysBefore(month: int): int
    requires 0 <= month < 12
  {
    [0, 31, 59, 90, 120, 151, 181, 212, 243, 273, 304, 334][month]
  }

  lemma {:induction false} MonthStartInYear(y: int, k: nat)
    requires k < 12
    ensures MonthStart(12 * y + k) == MonthStart(12 * y) + DaysBefore(k) + if k >= 2 && Leap(y) then 1 else 0
    decreases k
  {
    if k > 0 {
      MonthStartInYear(y, k - 1);
      MonthStep(12 * y + k - 1);
      Split12(y, k - 1);
    }
  }

  /** Every month starts where the standard's table puts it, in every year before and after 1970. */
  lemma MonthsAgreeWithStandard(y: int, month: nat)
    requires month < 12
    ensures MonthStart(12 * y + month) == DayFromYear(y) + DaysBefore(month) + if month >= 2 && Leap(y) then 1 else 0
  {
    AgreesWithStandard(y);
    MonthStartInYear(y, month);
  }

  // ------------------------------------------------------- reading a day's fields

  function Later(day: int, m: int): (r: int)
    requires MonthStart(m) <= day
    ensures MonthStart(r) <= day < MonthStart(r + 1)
    decreases day - MonthStart(m)
  {
    MonthStep(m);
    if day < MonthStart(m + 1) then m else Later(day, m + 1)
  }

  function Earlier(day: int, m: int): (r: int)
    requires day < MonthStart(m)
    ensures MonthStart(r) <= day < MonthStart(r + 1)
    decreases MonthStart(m) - day
  {
    MonthStep(m - 1);
    if MonthStart(m - 1) <= day then m - 1 else Earlier(day, m - 1)
  }

  /** The month a day lies in. */
  function MonthOf(day: int): (m: int)
    ensures MonthStart(m) <= day < MonthStart(m + 1)
  {
    if MonthStart(EPOCH) <= day then Later(day, EPOCH) else Earlier(day, EPOCH)
  }

  /** The day of its month, from 1. */
  function DateOf(day: int): (d: int)
    ensures 1 <= d <= MonthLength(MonthOf(day))
  {
    MonthStep(MonthOf(day));
    day - MonthStart(MonthOf(day)) + 1
  }

  lemma MonthOfUnique(day: int, m: int)
    requires MonthStart(m) <= day < MonthStart(m + 1)
    ensures MonthOf(day) == m
  {
    var r := MonthOf(day);
    if r < m { SpanTelescopes(r + 1, m - r - 1); }
    if m < r { SpanTelescopes(m + 1, r - m - 1); }
  }

  /** `MakeDay`: a date past the end of its month runs over into the next. */
  function MakeDay(month: int, date: int): int {
    MonthStart(month) + date - 1
  }
}
