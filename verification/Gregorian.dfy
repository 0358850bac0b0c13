/**
 The proleptic Gregorian calendar (leap years as in Appendix C of RFC 3339) on day numbers: day 0 is
 the first of January of year 1, a Monday, and the day of Go's zero time. Months are also numbered through,
 month 12 * y + m - 1 being month m of year y.
 */
module Gregorian {

  predicate Leap(y: int) {
    y % 4 == 0 && (y % 100 != 0 || y % 400 == 0)
  }

  function YearLength(y: int): int {
    if Leap(y) then 366 else 365
  }

  /** The number of the first day of a year. */
  function DaysBeforeYear(y: int): int {
    var z := y - 1;
    365 * z + z / 4 - z / 100 + z / 400
  }

  lemma QuotientSteps(y: int, d: int)
    requires d == 4 || d == 100 || d == 400
    ensures y / d == (y - 1) / d + if y % d == 0 then 1 else 0
  {
  }

  lemma MultiplesOf400(y: int)
    ensures y % 400 == 0 ==> y % 100 == 0
    ensures y % 100 == 0 ==> y % 4 == 0
  {
  }

  lemma YearsTile(y: int)
    ensures DaysBeforeYear(y + 1) == DaysBeforeYear(y) + YearLength(y)
  {
    QuotientSteps(y, 4);
    QuotientSteps(y, 100);
    QuotientSteps(y, 400);
    MultiplesOf400(y);
  }

  /** Days before month m of the year, for m from 1 to 13. */
  function DaysBeforeMonth(m: int, leap: bool): int
    requires 1 <= m <= 13
  {
    var february := if leap then 29 else 28;
    if m == 1 then 0
    else if m == 2 then 31
    else if m == 3 then 31 + february
    else if m == 4 then 62 + february
    else if m == 5 then 92 + february
    else if m == 6 then 123 + february
    else if m == 7 then 153 + february
    else if m == 8 then 184 + february
    else if m == 9 then 215 + february
    else if m == 10 then 245 + february
    else if m == 11 then 276 + february
    else if m == 12 then 306 + february
    else 337 + february
  }

  /** The number of the first day of a month. */
  function FirstDay(k: int): int {
    DaysBeforeYear(k / 12) + DaysBeforeMonth(k % 12 + 1, Leap(k / 12))
  }

  function MonthLength(k: int): (r: int)
    ensures 28 <= r <= 31
  {
    var m, leap := k % 12 + 1, Leap(k / 12);
    DaysBeforeMonth(m + 1, leap) - DaysBeforeMonth(m, leap)
  }

  lemma MonthsTile(k: int)
    ensures FirstDay(k + 1) == FirstDay(k) + MonthLength(k)
  {
    if k % 12 == 11 {
      assert (k + 1) / 12 == k / 12 + 1 && (k + 1) % 12 == 0;
      YearsTile(k / 12);
    } else {
      assert (k + 1) / 12 == k / 12 && (k + 1) % 12 == k % 12 + 1;
    }
  }

  /** The leap years: the multiples of 400, and those of 4 that are none of 100. */
  lemma LeapYears(y: int)
    ensures y % 400 == 0 ==> Leap(y)
    ensures y % 400 != 0 && y % 100 == 0 ==> !Leap(y)
    ensures y % 100 != 0 ==> (Leap(y) <==> y % 4 == 0)
  {
  }

  /** How long years are, as the difference of their first days. */
  lemma YearLengths(y: int)
    ensures DaysBeforeYear(y + 1) - DaysBeforeYear(y) == if Leap(y) then 366 else 365
    ensures FirstDay(12 * y) == DaysBeforeYear(y)
  {
    YearsTile(y);
    assert (12 * y) / 12 == y && (12 * y) % 12 == 0;
  }

  lemma MonthTable(m: int, leap: bool)
    requires 1 <= m <= 12
    ensures
      DaysBeforeMonth(m + 1, leap) - DaysBeforeMonth(m, leap) ==
      if m == 2 then if leap then 29 else 28 else if m in {4, 6, 9, 11} then 30 else 31
  {
  }

  /** Thirty days hath September, April, June and November. */
  lemma MonthLengths(y: int, m: int)
    requires 1 <= m <= 12
    ensures
      FirstDay(12 * y + m) - FirstDay(12 * y + m - 1) ==
      if m == 2 then if Leap(y) then 29 else 28 else if m in {4, 6, 9, 11} then 30 else 31
  {
    NumberParts(y, m);
    MonthsTile(12 * y + m - 1);
    MonthTable(m, Leap(y));
  }

  lemma NumberParts(y: int, m: int)
    requires 1 <= m <= 12
    ensures (12 * y + m - 1) / 12 == y && (12 * y + m - 1) % 12 + 1 == m
  {
  }

  /** The first of January of year 1 is day 0, that of 1970 day 719 162. */
  lemma EpochDay()
    ensures FirstDay(12 * 1) == 0
    ensures FirstDay(12 * 1970) == 719_162
  {
    YearLengths(1);
    YearLengths(1970);
  }

  /******* From a day to its date *******/

  /** The year by cycles of 400, 100, 4 and 1 years; the last year of a cycle of 4 or 400 may be a day longer. */
  function YearOf(n: int): int {
    var n400, d := n / 146097, n % 146097;
    var q100 := d / 36524;
    var n100 := q100 - q100 / 4;
    var d' := d - 36524 * n100;
    var n4, d'' := d' / 1461, d' % 1461;
    var q1 := d'' / 365;
    var n1 := q1 - q1 / 4;
    400 * n400 + 100 * n100 + 4 * n4 + n1 + 1
  }

  lemma CycleDays(a: int, b: int, c: int, e: int)
    requires 0 <= b < 4 && 0 <= c < 25 && 0 <= e < 4
    ensures DaysBeforeYear(400 * a + 100 * b + 4 * c + e + 1) == 146097 * a + 36524 * b + 1461 * c + 365 * e
  {
    var z := 400 * a + 100 * b + 4 * c + e;
    assert z / 4 == 100 * a + 25 * b + c;
    assert z / 100 == 4 * a + b;
    assert z / 400 == a;
  }

  lemma CycleLeap(a: int, b: int, c: int, e: int)
    requires 0 <= b < 4 && 0 <= c < 25 && 0 <= e < 4
    ensures Leap(400 * a + 100 * b + 4 * c + e + 1) <==> e == 3 && (c != 24 || b == 3)
  {
    var y := 400 * a + 100 * b + 4 * c + e + 1;
    if e < 3 {
      Remainder(y, 4, 100 * a + 25 * b + c, e + 1);
    } else {
      Remainder(y, 4, 100 * a + 25 * b + c + 1, 0);
      if c < 24 {
        Remainder(y, 100, 4 * a + b, 4 * c + 4);
      } else {
        Remainder(y, 100, 4 * a + b + 1, 0);
        if b < 3 {
          Remainder(y, 400, a, 100 * b + 100);
        } else {
          Remainder(y, 400, a + 1, 0);
        }
      }
    }
  }

  lemma Remainder(n: int, d: int, q: int, r: int)
    requires d == 4 || d == 100 || d == 400
    requires n == d * q + r && 0 <= r < d
    ensures n % d == r
  {
  }

  /** The cycle counts are in range, and only the last year of a cycle has a day 366. */
  lemma Cycles(n: int) returns (a: int, b: int, c: int, e: int, yday: int)
    ensures 0 <= b < 4 && 0 <= c < 25 && 0 <= e < 4 && 0 <= yday <= 365
    ensures YearOf(n) == 400 * a + 100 * b + 4 * c + e + 1
    ensures n == 146097 * a + 36524 * b + 1461 * c + 365 * e + yday
    ensures yday == 365 ==> e == 3 && (c != 24 || b == 3)
  {
    a := n / 146097;
    var d := n % 146097;
    var q100 := d / 36524;
    b := q100 - q100 / 4;
    var d' := d - 36524 * b;
    assert 0 <= b < 4 && 0 <= d' <= 36524;
    assert d' == 36524 ==> b == 3;
    c := d' / 1461;
    var d'' := d' % 1461;
    var q1 := d'' / 365;
    e := q1 - q1 / 4;
    yday := d'' - 365 * e;
  }

  lemma YearContains(n: int)
    ensures DaysBeforeYear(YearOf(n)) <= n < DaysBeforeYear(YearOf(n)) + YearLength(YearOf(n))
  {
    var a, b, c, e, yday := Cycles(n);
    CycleDays(a, b, c, e);
    CycleLeap(a, b, c, e);
  }

  /** The month of a day of the year, counted from 1. */
  function MonthInYear(yday: int, leap: bool): (m: int)
    requires 0 <= yday < if leap then 366 else 365
    ensures 1 <= m <= 12
    ensures DaysBeforeMonth(m, leap) <= yday < DaysBeforeMonth(m + 1, leap)
  {
    if yday < 31 then 1
    else
      var d := yday - if leap then 29 else 28;
      if d < 31 then 2
      else if d < 62 then 3
      else if d < 92 then 4
      else if d < 123 then 5
      else if d < 153 then 6
      else if d < 184 then 7
      else if d < 215 then 8
      else if d < 245 then 9
      else if d < 276 then 10
      else if d < 306 then 11
      else 12
  }

  datatype Civil = Civil(year: int, month: int, day: int)

  function CivilOf(n: int): Civil {
    YearContains(n);
    var y := YearOf(n);
    var yday := n - DaysBeforeYear(y);
    var m := MonthInYear(yday, Leap(y));
    Civil(y, m, yday - DaysBeforeMonth(m, Leap(y)) + 1)
  }

  /** The month a day lies in. */
  function MonthOf(n: int): int {
    12 * CivilOf(n).year + CivilOf(n).month - 1
  }

  /** A day lies in its month, at its day of the month. */
  lemma DayInMonth(n: int)
    ensures n == FirstDay(MonthOf(n)) + CivilOf(n).day - 1
    ensures 1 <= CivilOf(n).day <= MonthLength(MonthOf(n)) && 1 <= CivilOf(n).month <= 12
  {
    var c := CivilOf(n);
    assert MonthOf(n) / 12 == c.year && MonthOf(n) % 12 == c.month - 1;
  }

  /******* The calendar as a whole *******/

  /** The first day of each month, and the date of each day. */
  datatype Calendar = Calendar(first: int -> int, civil: int -> Civil)

  const GREGORIAN := Calendar(FirstDay, CivilOf)

  /** The number of the month a date names. */
  function Number(c: Civil): int {
    12 * c.year + c.month - 1
  }

  function Length(cal: Calendar, k: int): int {
    cal.first(k + 1) - cal.first(k)
  }

  /** Months have 28 to 31 days and follow each other, and the date of a day names its month and its place there. */
  ghost predicate Lawful(cal: Calendar) {
    && (forall k :: 28 <= Length(cal, k) <= 31)
    && (forall n :: Names(cal, cal.civil(n), n))
  }

  predicate Names(cal: Calendar, c: Civil, n: int) {
    && 1 <= c.month <= 12
    && 1 <= c.day <= Length(cal, Number(c))
    && n == cal.first(Number(c)) + c.day - 1
  }

  lemma GregorianLength(k: int)
    ensures Length(GREGORIAN, k) == MonthLength(k)
  {
    MonthsTile(k);
  }

  lemma GregorianNames(n: int)
    ensures Names(GREGORIAN, GREGORIAN.civil(n), n)
  {
    DayInMonth(n);
    GregorianLength(MonthOf(n));
  }

  lemma GregorianLawful()
    ensures Lawful(GREGORIAN)
  {
    forall k ensures 28 <= Length(GREGORIAN, k) <= 31 {
      GregorianLength(k);
    }
    forall n ensures Names(GREGORIAN, GREGORIAN.civil(n), n) {
      GregorianNames(n);
    }
  }

  lemma {:induction false} FirstIncreases(cal: Calendar, k: int, l: int)
    requires Lawful(cal) && k < l
    ensures cal.first(k + 1) <= cal.first(l)
    decreases l - k
  {
    if k + 1 < l {
      assert Length(cal, l - 1) >= 28;
      FirstIncreases(cal, k, l - 1);
    }
  }

  /** A day lies in the month its date names, and in no other. */
  lemma MonthOfDay(cal: Calendar, n: int, k: int)
    requires Lawful(cal)
    ensures Number(cal.civil(n)) == k <==> cal.first(k) <= n < cal.first(k + 1)
  {
    var l := Number(cal.civil(n));
    assert Names(cal, cal.civil(n), n);
    if k < l {
      FirstIncreases(cal, k, l);
    } else if l < k {
      FirstIncreases(cal, l, k);
    }
  }

  /** Every valid date is the date of one day: the way from days to dates and the way back are inverse. */
  lemma DateRoundTrip(cal: Calendar, k: int, day: int)
    requires Lawful(cal) && 1 <= day <= Length(cal, k)
    ensures Number(cal.civil(cal.first(k) + day - 1)) == k && cal.civil(cal.first(k) + day - 1).day == day
  {
    var n := cal.first(k) + day - 1;
    MonthOfDay(cal, n, k);
    assert Names(cal, cal.civil(n), n);
  }
}
