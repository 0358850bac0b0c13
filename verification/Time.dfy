/**
 The calendar helpers of internal/util/time.go in UTC, over a calendar as Gregorian describes it. An
 instant is a number of nanoseconds since Go's zero time, the midnight that begins day 0.
 */
module Time {
  import opened Gregorian

  type Instant = int

  const MONTHS_PER_QUARTER := 3
  const DAYS_PER_WEEK := 7

  /** The midnight that begins day n; a day has 86 400 seconds. */
  function Midnight(n: int): Instant {
    86_400_000_000_000 * n
  }

  function DayOf(t: Instant): int {
    t / 86_400_000_000_000
  }

  function TimeOfDay(t: Instant): int {
    t % 86_400_000_000_000
  }

  function Year(cal: Calendar, t: Instant): int {
    cal.civil(DayOf(t)).year
  }

  function Month(cal: Calendar, t: Instant): int {
    cal.civil(DayOf(t)).month
  }

  function Day(cal: Calendar, t: Instant): int {
    cal.civil(DayOf(t)).day
  }

  /** Go's Weekday, with Sunday 0; day 0 was a Monday. */
  function Weekday(t: Instant): int {
    (DayOf(t) + 1) % 7
  }

  /**
   Go's time.Date. A month outside 1 to 12 carries into the year and a day outside the month into other
   months; nanos is the time of day with all its parts, and carries into the days.
   */
  function Date(cal: Calendar, year: int, month: int, day: int, nanos: int): Instant {
    var year', month' := year + (month - 1) / 12, (month - 1) % 12 + 1;
    Midnight(cal.first(Number(Civil(year', month', 1))) + day - 1) + nanos
  }

  /** t.AddDate(0, months, days): the same time of day at the date with the month and the day shifted. */
  function AddDate(cal: Calendar, t: Instant, months: int, days: int): Instant {
    Date(cal, Year(cal, t), Month(cal, t) + months, Day(cal, t) + days, TimeOfDay(t))
  }

  lemma EpochDate()
    ensures Date(GREGORIAN, 1970, 1, 1, 0) == Midnight(719_162)
  {
    EpochDay();
    assert GREGORIAN.first(Number(Civil(1970, 1, 1))) == FirstDay(12 * 1970);
  }

  lemma DayAfterDay(n: int)
    ensures DayOf(Midnight(n)) == n && Weekday(Midnight(n)) == (n + 1) % 7
  {
  }

  /** A day is 24 hours of 60 minutes of 60 seconds, and the weekday after Saturday is Sunday. */
  lemma DaysAndWeekdays(n: int)
    ensures Midnight(n + 1) - Midnight(n) == 24 * 60 * 60 * 1_000_000_000
    ensures Weekday(Midnight(n + 1)) == if Weekday(Midnight(n)) == 6 then 0 else Weekday(Midnight(n)) + 1
  {
    DayAfterDay(n);
    DayAfterDay(n + 1);
  }

  /** The first of January 1970 is a Thursday and begins 62 135 596 800 seconds after the zero time. */
  lemma UnixEpoch()
    ensures Date(GREGORIAN, 1970, 1, 1, 0) == 62_135_596_800 * 1_000_000_000
    ensures Weekday(Date(GREGORIAN, 1970, 1, 1, 0)) == 4
  {
    EpochDate();
    DayAfterDay(719_162);
  }

  /******* The helpers *******/

  function EndOfMonth(cal: Calendar, d: Instant): Instant {
    Date(cal, Year(cal, d), Month(cal, d) + 1, 1, -1)
  }

  function EndOfPreviousMonth(cal: Calendar, d: Instant): Instant {
    Date(cal, Year(cal, d), Month(cal, d), 1, -1)
  }

  function EndOfDay(cal: Calendar, d: Instant): Instant {
    Date(cal, Year(cal, d), Month(cal, d), Day(cal, d) + 1, -1)
  }

  /** TruncateTime is the same. */
  function StartOfDay(cal: Calendar, d: Instant): Instant {
    Date(cal, Year(cal, d), Month(cal, d), Day(cal, d), 0)
  }

  function StartOfMonth(cal: Calendar, d: Instant): Instant {
    Date(cal, Year(cal, d), Month(cal, d), 1, 0)
  }

  function StartOfQuarter(cal: Calendar, d: Instant): Instant {
    var quarter := (Month(cal, d) - 1) / MONTHS_PER_QUARTER;
    var m := quarter * MONTHS_PER_QUARTER + 1;
    Date(cal, Year(cal, d), m, 1, 0)
  }

  /** Go's weeks start on Sunday, these on Monday. */
  function StartOfWeek(cal: Calendar, date: Instant): Instant {
    var offset := Weekday(date) - 1;
    var dayOffset := if offset < 0 then 6 else offset;
    Date(cal, Year(cal, date), Month(cal, date), Day(cal, date) - dayOffset, 0)
  }

  function AddWeeks(cal: Calendar, d: Instant, weeks: int): Instant {
    AddDate(cal, d, 0, DAYS_PER_WEEK * weeks)
  }

  function AddMonths(cal: Calendar, d: Instant, months: int): Instant {
    AddDate(cal, d, months, 0)
  }

  function DayBefore(cal: Calendar, d: Instant): Instant {
    Date(cal, Year(cal, d), Month(cal, d), Day(cal, d), -1)
  }

  /** Instants are numbers; the zero time is 0. */
  method MaxTime(times: seq<Instant>) returns (latestTime: Instant)
    ensures latestTime >= 0 && forall t :: t in times ==> t <= latestTime
    ensures latestTime == 0 || latestTime in times
    ensures latestTime in times <==> exists t :: t in times && t >= 0
  {
    latestTime := 0;
    for i := 0 to |times|
      invariant latestTime >= 0 && forall j :: 0 <= j < i ==> times[j] <= latestTime
      invariant latestTime == 0 || latestTime in times
    {
      if times[i] > latestTime {
        latestTime := times[i];
      }
    }
  }

  /******* What time.Date does with a shifted month or day *******/

  /** The month of the instant, numbered through. */
  function MonthNumber(cal: Calendar, t: Instant): int {
    Number(cal.civil(DayOf(t)))
  }

  lemma DateOfMonth(cal: Calendar, t: Instant, months: int, day: int, nanos: int)
    ensures Date(cal, Year(cal, t), Month(cal, t) + months, day, nanos) ==
      Midnight(cal.first(MonthNumber(cal, t) + months) + day - 1) + nanos
  {
    var y, m := Year(cal, t), Month(cal, t) + months;
    assert 12 * (y + (m - 1) / 12) + (m - 1) % 12 == 12 * y + m - 1;
  }

  /** Shifting the day alone shifts the day number, across months and years. */
  lemma DateOfDay(cal: Calendar, t: Instant, days: int, nanos: int)
    requires Lawful(cal)
    ensures Date(cal, Year(cal, t), Month(cal, t), Day(cal, t) + days, nanos) == Midnight(DayOf(t) + days) + nanos
  {
    DateOfMonth(cal, t, 0, Day(cal, t) + days, nanos);
    assert Names(cal, cal.civil(DayOf(t)), DayOf(t));
  }

  /** time.Date inverts the date and the time of day of an instant. */
  lemma DateInverts(cal: Calendar, t: Instant)
    requires Lawful(cal)
    ensures Date(cal, Year(cal, t), Month(cal, t), Day(cal, t), TimeOfDay(t)) == t
  {
    DateOfDay(cal, t, 0, TimeOfDay(t));
  }

  lemma DayReaches(t: Instant, n: int)
    ensures DayOf(t) >= n <==> t >= Midnight(n)
  {
  }

  lemma MonthReaches(cal: Calendar, t: Instant, k: int)
    requires Lawful(cal)
    ensures MonthNumber(cal, t) >= k <==> t >= Midnight(cal.first(k))
  {
    var l := MonthNumber(cal, t);
    DayReaches(t, cal.first(k));
    MonthOfDay(cal, DayOf(t), l);
    if k < l {
      FirstIncreases(cal, k, l);
      assert Length(cal, k) >= 28;
    } else if l < k {
      FirstIncreases(cal, l, k);
    }
  }

  lemma MonthBorders(cal: Calendar, d: Instant)
    ensures StartOfMonth(cal, d) == Midnight(cal.first(MonthNumber(cal, d)))
    ensures EndOfMonth(cal, d) == Midnight(cal.first(MonthNumber(cal, d) + 1)) - 1
    ensures EndOfPreviousMonth(cal, d) == Midnight(cal.first(MonthNumber(cal, d))) - 1
  {
    DateOfMonth(cal, d, 0, 1, 0);
    DateOfMonth(cal, d, 1, 1, -1);
    DateOfMonth(cal, d, 0, 1, -1);
  }

  /** The number of the quarter, counted like the months. */
  function QuarterNumber(cal: Calendar, t: Instant): int {
    MonthNumber(cal, t) / 3
  }

  lemma QuarterOfMonth(y: int, m: int)
    ensures 12 * y + (m - 1) / 3 * 3 == 3 * ((12 * y + m - 1) / 3)
  {
  }

  lemma QuarterBorder(cal: Calendar, d: Instant)
    ensures StartOfQuarter(cal, d) == Midnight(cal.first(3 * QuarterNumber(cal, d)))
  {
    var m := Month(cal, d);
    var first := (m - 1) / MONTHS_PER_QUARTER * MONTHS_PER_QUARTER + 1;
    DateOfMonth(cal, d, first - m, 1, 0);
    QuarterOfMonth(Year(cal, d), m);
  }

  lemma DayBorders(cal: Calendar, d: Instant)
    requires Lawful(cal)
    ensures StartOfDay(cal, d) == Midnight(DayOf(d))
    ensures EndOfDay(cal, d) == Midnight(DayOf(d) + 1) - 1
    ensures DayBefore(cal, d) == Midnight(DayOf(d)) - 1
  {
    DateOfDay(cal, d, 0, 0);
    DateOfDay(cal, d, 1, -1);
    DateOfDay(cal, d, 0, -1);
  }

  /** The number of the week: week 0 begins with day 0. */
  function WeekNumber(d: Instant): int {
    DayOf(d) / 7
  }

  lemma WeekBorder(cal: Calendar, d: Instant)
    requires Lawful(cal)
    ensures StartOfWeek(cal, d) == Midnight(7 * WeekNumber(d))
  {
    DateOfDay(cal, d, -(DayOf(d) % 7), 0);
  }

  lemma WeekReaches(d: Instant, w: int)
    ensures WeekNumber(d) >= w <==> d >= Midnight(7 * w)
  {
    DayReaches(d, 7 * w);
  }

  /******* The units tile time *******/

  /** Exactly the instants from StartOfMonth to EndOfMonth are in the month of d. */
  lemma MonthsTile(cal: Calendar, d: Instant, t: Instant)
    requires Lawful(cal)
    ensures StartOfMonth(cal, d) <= t <= EndOfMonth(cal, d) <==>
      Year(cal, t) == Year(cal, d) && Month(cal, t) == Month(cal, d)
    ensures StartOfMonth(cal, d) <= t <= EndOfMonth(cal, d) <==> StartOfMonth(cal, t) == StartOfMonth(cal, d)
  {
    var k, l := MonthNumber(cal, d), MonthNumber(cal, t);
    MonthBorders(cal, d);
    MonthBorders(cal, t);
    MonthReaches(cal, t, k);
    MonthReaches(cal, t, k + 1);
    SameMonth(cal, d, t);
    if k < l {
      FirstIncreases(cal, k, l);
      assert Length(cal, k) >= 28;
    } else if l < k {
      FirstIncreases(cal, l, k);
      assert Length(cal, l) >= 28;
    }
  }

  lemma SameMonth(cal: Calendar, d: Instant, t: Instant)
    requires Lawful(cal)
    ensures MonthNumber(cal, t) == MonthNumber(cal, d) <==>
      Year(cal, t) == Year(cal, d) && Month(cal, t) == Month(cal, d)
  {
    assert Names(cal, cal.civil(DayOf(d)), DayOf(d)) && Names(cal, cal.civil(DayOf(t)), DayOf(t));
  }

  /** Consecutive months meet without a gap: one nanosecond after an end is the next start. */
  lemma MonthsMeet(cal: Calendar, d: Instant)
    requires Lawful(cal)
    ensures StartOfMonth(cal, d) <= d <= EndOfMonth(cal, d)
    ensures EndOfPreviousMonth(cal, d) + 1 == StartOfMonth(cal, d)
    ensures StartOfMonth(cal, EndOfMonth(cal, d) + 1) == EndOfMonth(cal, d) + 1
    ensures MonthNumber(cal, EndOfMonth(cal, d) + 1) == MonthNumber(cal, d) + 1
    ensures EndOfMonth(cal, EndOfPreviousMonth(cal, d)) == EndOfPreviousMonth(cal, d)
    ensures MonthNumber(cal, EndOfPreviousMonth(cal, d)) == MonthNumber(cal, d) - 1
  {
    var k := MonthNumber(cal, d);
    MonthBorders(cal, d);
    MonthReaches(cal, d, k);
    MonthReaches(cal, d, k + 1);
    EdgesOfMonth(cal, k);
    EdgesOfMonth(cal, k + 1);
    MonthBorders(cal, EndOfMonth(cal, d) + 1);
    MonthBorders(cal, EndOfPreviousMonth(cal, d));
  }

  lemma EdgesOfMonth(cal: Calendar, k: int)
    requires Lawful(cal)
    ensures MonthNumber(cal, Midnight(cal.first(k))) == k
    ensures MonthNumber(cal, Midnight(cal.first(k)) - 1) == k - 1
  {
    var t := Midnight(cal.first(k));
    assert Length(cal, k) >= 28 && Length(cal, k - 1) >= 28;
    MonthReaches(cal, t, k);
    MonthReaches(cal, t, k + 1);
    MonthReaches(cal, t - 1, k);
    MonthReaches(cal, t - 1, k - 1);
  }

  lemma StartOfMonthMonotone(cal: Calendar, d: Instant, t: Instant)
    requires Lawful(cal) && d <= t
    ensures StartOfMonth(cal, StartOfMonth(cal, d)) == StartOfMonth(cal, d) <= StartOfMonth(cal, t)
  {
    MonthsMeet(cal, d);
    MonthsMeet(cal, t);
    MonthsTile(cal, d, StartOfMonth(cal, d));
    MonthsTile(cal, d, t);
    MonthsTile(cal, t, d);
  }

  /** A quarter begins at the midnight of the first day of January, April, July or October of the same year. */
  lemma QuarterStarts(cal: Calendar, d: Instant)
    requires Lawful(cal)
    ensures
      var start := StartOfQuarter(cal, d);
      && Month(cal, start) in {1, 4, 7, 10}
      && Year(cal, start) == Year(cal, d)
      && Day(cal, start) == 1
      && TimeOfDay(start) == 0
  {
    QuarterBorder(cal, d);
    StartOfNumberedMonth(cal, 3 * (MonthNumber(cal, d) / 3));
    assert Names(cal, cal.civil(DayOf(d)), DayOf(d));
  }

  /** The quarter of d lasts three months: exactly the instants in it share its start. */
  lemma QuartersTile(cal: Calendar, d: Instant, t: Instant)
    requires Lawful(cal)
    ensures StartOfQuarter(cal, d) <= d < AddMonths(cal, StartOfQuarter(cal, d), 3)
    ensures StartOfQuarter(cal, t) == StartOfQuarter(cal, d) <==>
      StartOfQuarter(cal, d) <= t < AddMonths(cal, StartOfQuarter(cal, d), 3)
  {
    QuarterContains(cal, d, d);
    QuarterContains(cal, d, t);
    SameQuarter(cal, d, t);
  }

  lemma QuarterContains(cal: Calendar, d: Instant, t: Instant)
    requires Lawful(cal)
    ensures QuarterNumber(cal, t) == QuarterNumber(cal, d) <==>
      StartOfQuarter(cal, d) <= t < AddMonths(cal, StartOfQuarter(cal, d), 3)
  {
    var q := QuarterNumber(cal, d);
    QuarterBorder(cal, d);
    MonthsAfter(cal, 3 * q, 3);
    InQuarter(cal, t, q);
  }

  lemma SameQuarter(cal: Calendar, d: Instant, t: Instant)
    requires Lawful(cal)
    ensures StartOfQuarter(cal, t) == StartOfQuarter(cal, d) <==> QuarterNumber(cal, t) == QuarterNumber(cal, d)
  {
    QuarterBorder(cal, d);
    QuarterBorder(cal, t);
    QuarterDistinct(cal, 3 * QuarterNumber(cal, d), 3 * QuarterNumber(cal, t));
  }

  /** The date of the midnight that begins month k. */
  lemma StartOfNumberedMonth(cal: Calendar, k: int)
    requires Lawful(cal)
    ensures
      var t := Midnight(cal.first(k));
      && MonthNumber(cal, t) == k
      && Year(cal, t) == k / 12
      && Month(cal, t) == k % 12 + 1
      && Day(cal, t) == 1
      && TimeOfDay(t) == 0
  {
    assert Length(cal, k) >= 28;
    DateRoundTrip(cal, k, 1);
    assert Names(cal, cal.civil(cal.first(k)), cal.first(k));
  }

  lemma MonthsAfter(cal: Calendar, k: int, months: int)
    requires Lawful(cal)
    ensures AddMonths(cal, Midnight(cal.first(k)), months) == Midnight(cal.first(k + months))
  {
    StartOfNumberedMonth(cal, k);
    DateOfMonth(cal, Midnight(cal.first(k)), months, 1, 0);
  }

  lemma InQuarter(cal: Calendar, t: Instant, q: int)
    requires Lawful(cal)
    ensures QuarterNumber(cal, t) == q <==> Midnight(cal.first(3 * q)) <= t < Midnight(cal.first(3 * q + 3))
  {
    MonthReaches(cal, t, 3 * q);
    MonthReaches(cal, t, 3 * q + 3);
    NumberedQuarter(MonthNumber(cal, t), q);
  }

  lemma NumberedQuarter(k: int, q: int)
    ensures k / 3 == q <==> 3 * q <= k < 3 * q + 3
  {
  }

  lemma QuarterDistinct(cal: Calendar, q: int, q': int)
    requires Lawful(cal)
    ensures cal.first(q) == cal.first(q') <==> q == q'
  {
    assert Length(cal, q) >= 28 && Length(cal, q') >= 28;
    if q < q' {
      FirstIncreases(cal, q, q');
    } else if q' < q {
      FirstIncreases(cal, q', q);
    }
  }

  lemma StartOfQuarterMonotone(cal: Calendar, d: Instant, t: Instant)
    requires Lawful(cal) && d <= t
    ensures StartOfQuarter(cal, StartOfQuarter(cal, d)) == StartOfQuarter(cal, d) <= StartOfQuarter(cal, t)
  {
    QuartersTile(cal, d, StartOfQuarter(cal, d));
    QuartersTile(cal, d, t);
    QuartersTile(cal, t, d);
  }

  /** StartOfWeek is the one Monday midnight at or before the instant and less than seven days back. */
  lemma WeekStartsOnMonday(cal: Calendar, d: Instant, start: Instant)
    requires Lawful(cal)
    ensures start == StartOfWeek(cal, d) <==>
      Weekday(start) == 1 && TimeOfDay(start) == 0 && start <= d < AddWeeks(cal, start, 1)
  {
    WeekBorder(cal, d);
    AddWeeksShifts(cal, start, 1);
    MondayMidnight(start);
    var w := WeekNumber(start);
    WeekReaches(d, w);
    WeekReaches(d, w + 1);
    MondayMidnight(Midnight(7 * WeekNumber(d)));
  }

  lemma MondayMidnight(t: Instant)
    ensures Weekday(t) == 1 && TimeOfDay(t) == 0 <==> t == Midnight(7 * WeekNumber(t))
  {
    assert t == Midnight(DayOf(t)) + TimeOfDay(t);
  }

  lemma StartOfWeekMonotone(cal: Calendar, d: Instant, t: Instant)
    requires Lawful(cal) && d <= t
    ensures StartOfWeek(cal, StartOfWeek(cal, d)) == StartOfWeek(cal, d) <= StartOfWeek(cal, t)
    ensures StartOfWeek(cal, t) == StartOfWeek(cal, d) <==> t < AddWeeks(cal, StartOfWeek(cal, d), 1)
  {
    var start := StartOfWeek(cal, d);
    var w := WeekNumber(d);
    WeekBorder(cal, d);
    WeekBorder(cal, t);
    WeekBorder(cal, start);
    AddWeeksShifts(cal, start, 1);
    WeekReaches(start, w);
    WeekReaches(start, w + 1);
    WeekReaches(t, w);
    WeekReaches(t, w + 1);
    WeekReaches(d, w);
  }

  /** Days meet as months do, and DayBefore is the end of the day before. */
  lemma DaysTile(cal: Calendar, d: Instant, t: Instant)
    requires Lawful(cal)
    ensures StartOfDay(cal, d) <= d <= EndOfDay(cal, d)
    ensures StartOfDay(cal, d) <= t <= EndOfDay(cal, d) <==> cal.civil(DayOf(t)) == cal.civil(DayOf(d))
    ensures StartOfDay(cal, EndOfDay(cal, d) + 1) == EndOfDay(cal, d) + 1
    ensures EndOfDay(cal, DayBefore(cal, d)) == DayBefore(cal, d) == StartOfDay(cal, d) - 1
    ensures d <= t ==> StartOfDay(cal, StartOfDay(cal, d)) == StartOfDay(cal, d) <= StartOfDay(cal, t)
  {
    DayBorders(cal, d);
    DayBorders(cal, t);
    DayBorders(cal, EndOfDay(cal, d) + 1);
    DayBorders(cal, DayBefore(cal, d));
    DayBorders(cal, StartOfDay(cal, d));
    assert Names(cal, cal.civil(DayOf(t)), DayOf(t)) && Names(cal, cal.civil(DayOf(d)), DayOf(d));
  }

  /******* Adding weeks and months *******/

  lemma AddWeeksShifts(cal: Calendar, d: Instant, weeks: int)
    requires Lawful(cal)
    ensures AddWeeks(cal, d, weeks) == d + 7 * Midnight(weeks)
  {
    DateOfDay(cal, d, 7 * weeks, TimeOfDay(d));
  }

  /** Adding weeks is an action of the integers: additive and invertible, with no exceptions. */
  lemma AddWeeksAdditive(cal: Calendar, d: Instant, a: int, b: int)
    requires Lawful(cal)
    ensures AddWeeks(cal, AddWeeks(cal, d, a), b) == AddWeeks(cal, d, a + b)
    ensures AddWeeks(cal, AddWeeks(cal, d, a), -a) == d
  {
    AddWeeksShifts(cal, d, a);
    AddWeeksShifts(cal, d, a + b);
    AddWeeksShifts(cal, AddWeeks(cal, d, a), b);
    AddWeeksShifts(cal, AddWeeks(cal, d, a), -a);
  }

  /** The day exists in the month reached. */
  predicate Fits(cal: Calendar, d: Instant, months: int) {
    Day(cal, d) <= Length(cal, MonthNumber(cal, d) + months)
  }

  /**
   Adding months keeps the day of the month if the month reached has it; if not, the days too many
   run over into the month after.
   */
  lemma AddMonthsLands(cal: Calendar, d: Instant, months: int)
    requires Lawful(cal)
    ensures
      var t := AddMonths(cal, d, months);
      var k := MonthNumber(cal, d) + months;
      && TimeOfDay(t) == TimeOfDay(d)
      && (Fits(cal, d, months) ==> MonthNumber(cal, t) == k && Day(cal, t) == Day(cal, d))
      && (!Fits(cal, d, months) ==> MonthNumber(cal, t) == k + 1 && Day(cal, t) == Day(cal, d) - Length(cal, k) <= 3)
  {
    var k := MonthNumber(cal, d) + months;
    var t := AddMonths(cal, d, months);
    DateOfMonth(cal, d, months, Day(cal, d), TimeOfDay(d));
    assert Names(cal, cal.civil(DayOf(d)), DayOf(d));
    assert Length(cal, MonthNumber(cal, d)) <= 31 && 28 <= Length(cal, k) && 28 <= Length(cal, k + 1);
    assert DayOf(t) == cal.first(k) + Day(cal, d) - 1;
    if Fits(cal, d, months) {
      DateRoundTrip(cal, k, Day(cal, d));
    } else {
      DateRoundTrip(cal, k + 1, Day(cal, d) - Length(cal, k));
    }
  }

  lemma SameDate(cal: Calendar, d: Instant, t: Instant)
    requires Lawful(cal)
    ensures d == t <==>
      MonthNumber(cal, d) == MonthNumber(cal, t) && Day(cal, d) == Day(cal, t) && TimeOfDay(d) == TimeOfDay(t)
  {
    assert Names(cal, cal.civil(DayOf(d)), DayOf(d)) && Names(cal, cal.civil(DayOf(t)), DayOf(t));
  }

  /** Adding months can be taken back exactly if the day did not run over. */
  lemma AddMonthsInvertible(cal: Calendar, d: Instant, months: int)
    requires Lawful(cal)
    ensures AddMonths(cal, AddMonths(cal, d, months), -months) == d <==> Fits(cal, d, months)
  {
    var t := AddMonths(cal, d, months);
    AddMonthsLands(cal, d, months);
    AddMonthsLands(cal, t, -months);
    SameDate(cal, AddMonths(cal, t, -months), d);
    assert Names(cal, cal.civil(DayOf(d)), DayOf(d));
    assert Length(cal, MonthNumber(cal, d) + 1) >= 28;
  }

  /** When the first step keeps the day, the second starts where it would have started in one step. */
  lemma AddMonthsTwice(cal: Calendar, d: Instant, a: int, b: int)
    requires Lawful(cal) && Fits(cal, d, a)
    ensures AddMonths(cal, AddMonths(cal, d, a), b) == AddMonths(cal, d, a + b)
  {
    var t := AddMonths(cal, d, a);
    AddMonthsLands(cal, d, a);
    DateOfMonth(cal, t, b, Day(cal, t), TimeOfDay(t));
    DateOfMonth(cal, d, a + b, Day(cal, d), TimeOfDay(d));
  }

  lemma AddMonthsOver(cal: Calendar, d: Instant, a: int, b: int)
    requires Lawful(cal) && !Fits(cal, d, a)
    ensures AddMonths(cal, AddMonths(cal, d, a), b) == AddMonths(cal, d, a + b) <==>
      Length(cal, MonthNumber(cal, d) + a) == Length(cal, MonthNumber(cal, d) + a + b)
  {
    var t := AddMonths(cal, d, a);
    AddMonthsLands(cal, d, a);
    AddMonthsLands(cal, d, a + b);
    AddMonthsLands(cal, t, b);
    SameDate(cal, AddMonths(cal, t, b), AddMonths(cal, d, a + b));
    var k := MonthNumber(cal, d) + a + b;
    assert Length(cal, k) >= 28 && Length(cal, k + 1) >= 28;
  }

  /** Two steps are one exactly if the first did not run over, or the second ends in a month as short as the first. */
  lemma AddMonthsAdditive(cal: Calendar, d: Instant, a: int, b: int)
    requires Lawful(cal)
    ensures AddMonths(cal, AddMonths(cal, d, a), b) == AddMonths(cal, d, a + b) <==>
      Fits(cal, d, a) || Length(cal, MonthNumber(cal, d) + a) == Length(cal, MonthNumber(cal, d) + a + b)
  {
    if Fits(cal, d, a) {
      AddMonthsTwice(cal, d, a, b);
    } else {
      AddMonthsOver(cal, d, a, b);
    }
  }
}
