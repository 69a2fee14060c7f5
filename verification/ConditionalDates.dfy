/** Time dependent access: is a month/day range, a weekday mask and a time window active at a local time? */
module ConditionalDates {
  // ---------------------------------------------------------------------------------------------
  // The calendar

  predicate Leap(y: int) {
    y % 4 == 0 && (y % 100 != 0 || y % 400 == 0)
  }

  function LastDay(y: int, m: nat): nat
    requires 1 <= m <= 12
  {
    if m == 2 then (if Leap(y) then 29 else 28)
    else if m == 4 || m == 6 || m == 9 || m == 11 then 30
    else 31
  }

  /** A local date; `year_month_day` also holds dates that do not exist. */
  datatype Date = Date(year: int, month: nat, day: nat)

  predicate Exists(d: Date) {
    1 <= d.month <= 12 && 1 <= d.day <= LastDay(d.year, d.month)
  }

  /** Days up to March 1 of a year, in eras of 400 years. */
  function YearBase(y: int): int {
    var era := y / 400;
    var yoe := y - era * 400;
    era * 146097 + yoe * 365 + yoe / 4 - yoe / 100
  }

  function MonthOffset(m: nat): nat {
    (153 * (if m > 2 then m - 3 else m + 9) + 2) / 5
  }

  /** year_month_day::to_days; a day beyond the end of its month counts on into the next one. */
  function ToDays(d: Date): int {
    YearBase(if d.month <= 2 then d.year - 1 else d.year) + MonthOffset(d.month) + d.day - 1 - 719468
  }

  lemma FourthStep(z: int)
    ensures z / 4 - (z - 1) / 4 == if z % 4 == 0 then 1 else 0
  {
  }

  lemma HundredthStep(z: int)
    ensures z / 100 - (z - 1) / 100 == if z % 100 == 0 then 1 else 0
  {
  }

  lemma DividedByFour(n: int, q: int, r: int)
    requires n == 4 * q + r && 0 <= r < 4
    ensures n / 4 == q && n % 4 == r
  {
  }

  lemma DividedByHundred(n: int, q: int, r: int)
    requires n == 100 * q + r && 0 <= r < 100
    ensures n / 100 == q && n % 100 == r
  {
  }

  lemma DividedByEra(n: int, q: int, r: int)
    requires n == 400 * q + r && 0 <= r < 400
    ensures n / 400 == q && n % 400 == r
  {
  }

  lemma LeapInEra(era: int, yoe: nat)
    requires yoe < 400
    ensures var y := era * 400 + yoe;
            && y / 400 == era && (Leap(y) <==> yoe % 4 == 0 && (yoe % 100 != 0 || yoe == 0))
            && (y - 1) / 400 == if yoe == 0 then era - 1 else era
  {
    var y := era * 400 + yoe;
    DividedByEra(y, era, yoe);
    DividedByFour(y, era * 100 + yoe / 4, yoe % 4);
    DividedByHundred(y, era * 4 + yoe / 100, yoe % 100);
    if yoe == 0 {
      DividedByEra(y - 1, era - 1, 399);
    } else {
      DividedByEra(y - 1, era, yoe - 1);
    }
  }

  lemma YearStep(y: int)
    ensures YearBase(y) == YearBase(y - 1) + if Leap(y) then 366 else 365
  {
    hide Leap, YearBase;
    var era, yoe := y / 400, y % 400;
    LeapInEra(era, yoe);
    YearBaseIs(era, yoe);
    if yoe == 0 {
      YearBaseIs(era - 1, 399);
    } else {
      YearBaseIs(era, yoe - 1);
      FourthStep(yoe);
      HundredthStep(yoe);
    }
  }

  lemma YearBaseIs(era: int, yoe: nat)
    requires yoe < 400
    ensures YearBase(era * 400 + yoe) == era * 146097 + yoe * 365 + yoe / 4 - yoe / 100
  {
    DividedByEra(era * 400 + yoe, era, yoe);
  }

  /** The first days of consecutive months are a month's length apart. */
  lemma MonthStep(y: int, m: nat)
    requires 1 <= m < 12
    ensures ToDays(Date(y, m + 1, 1)) == ToDays(Date(y, m, 1)) + LastDay(y, m)
  {
    YearStep(y);
    hide YearBase;
  }

  lemma NextYear(y: int)
    ensures ToDays(Date(y + 1, 1, 1)) == ToDays(Date(y, 12, 31)) + 1
  {
    hide YearBase;
  }

  lemma {:induction false} MonthsAscend(y: int, m: nat, n: nat)
    requires 1 <= m < n <= 12
    ensures ToDays(Date(y, n, 1)) >= ToDays(Date(y, m, 1)) + LastDay(y, m)
    ensures n > m + 1 ==> ToDays(Date(y, n, 1)) >= ToDays(Date(y, m, 1)) + LastDay(y, m) + 28
    decreases n - m
  {
    MonthStep(y, n - 1);
    if m < n - 1 {
      MonthsAscend(y, m, n - 1);
    }
    hide ToDays;
  }

  lemma DayOfMonth(y: int, m: nat, d: nat)
    ensures ToDays(Date(y, m, d)) == ToDays(Date(y, m, 1)) + d - 1
  {
    hide YearBase;
  }

  /** Dates of a year compare by month and day, but for one that counts on into the next month. */
  lemma Compare(y: int, m: nat, d: nat, bm: nat, bd: nat)
    requires Exists(Date(y, m, d)) && 1 <= bm <= 12 && 1 <= bd <= 31
    ensures ToDays(Date(y, bm, bd)) <= ToDays(Date(y, m, d)) <==>
            (m == bm && bd <= d) || (m > bm && !(m == bm + 1 && d + LastDay(y, bm) < bd))
    ensures ToDays(Date(y, m, d)) <= ToDays(Date(y, bm, bd)) <==>
            (m == bm && d <= bd) || m < bm || (m == bm + 1 && d + LastDay(y, bm) <= bd)
  {
    hide ToDays, Leap;
    DayOfMonth(y, m, d);
    DayOfMonth(y, bm, bd);
    if m < bm { MonthsAscend(y, m, bm); }
    if m > bm { MonthsAscend(y, bm, m); }
    if m == bm + 1 { MonthStep(y, bm); }
  }

  /** Dates of different years never compare wrongly. */
  lemma CompareYears(y: int, m: nat, d: nat, m': nat, d': nat)
    requires 1 <= m <= 12 && 1 <= d <= 31 && 1 <= m' <= 12 && 1 <= d' <= 31
    ensures ToDays(Date(y, m, d)) <= ToDays(Date(y + 1, m', d'))
  {
    hide ToDays, Leap;
    DayOfMonth(y, m, d);
    DayOfMonth(y, 12, 31);
    DayOfMonth(y + 1, m', d');
    NextYear(y);
    if m < 12 { MonthsAscend(y, m, 12); }
    if m' > 1 { MonthsAscend(y + 1, 1, m'); }
  }

  // ---------------------------------------------------------------------------------------------
  // Counting days one by one

  /** A Thursday. */
  const EPOCH: Date := Date(1970, 1, 1)

  /** The day after, over the ends of months and years. */
  function NextDay(d: Date): Date
    requires Exists(d)
  {
    if d.day < LastDay(d.year, d.month) then Date(d.year, d.month, d.day + 1)
    else if d.month < 12 then Date(d.year, d.month + 1, 1)
    else Date(d.year + 1, 1, 1)
  }

  /** The formula counts every day once. */
  lemma NextDayIsNext(d: Date)
    requires Exists(d)
    ensures Exists(NextDay(d)) && ToDays(NextDay(d)) == ToDays(d) + 1
  {
    hide ToDays, Leap;
    DayOfMonth(d.year, d.month, d.day);
    DayOfMonth(d.year, d.month, d.day + 1);
    if d.month < 12 {
      MonthStep(d.year, d.month);
    } else {
      NextYear(d.year);
    }
  }

  lemma EpochIsDayZero()
    ensures Exists(EPOCH) && ToDays(EPOCH) == 0
  {
  }

  function DaysLater(d: Date, n: nat): (e: Date)
    requires Exists(d)
    ensures Exists(e)
    decreases n
  {
    NextDayIsNext(d);
    if n == 0 then d else DaysLater(NextDay(d), n - 1)
  }

  lemma {:induction false} DaysLaterAre(d: Date, n: nat)
    requires Exists(d)
    ensures ToDays(DaysLater(d, n)) == ToDays(d) + n
    decreases n
  {
    hide ToDays, NextDay;
    NextDayIsNext(d);
    if n > 0 {
      DaysLaterAre(NextDay(d), n - 1);
    }
  }

  lemma {:induction false} YearsAscend(y: int, z: int)
    requires y < z
    ensures ToDays(Date(y, 12, 31)) < ToDays(Date(z, 1, 1))
    decreases z - y
  {
    hide ToDays, Leap;
    NextYear(z - 1);
    if y < z - 1 {
      YearsAscend(y, z - 1);
      WithinYear(z - 1, 1, 1);
    }
  }

  lemma DaysAreDistinct(d: Date, e: Date)
    requires Exists(d) && Exists(e) && ToDays(d) == ToDays(e)
    ensures d == e
  {
    hide ToDays, LastDay, Exists;
    WithinYear(d.year, d.month, d.day);
    WithinYear(e.year, e.month, e.day);
    if d.year < e.year {
      YearsAscend(d.year, e.year);
    } else if e.year < d.year {
      YearsAscend(e.year, d.year);
    } else {
      InTheCalendar(d.year, d.month, d.day);
      InTheCalendar(e.year, e.month, e.day);
      SameYearDistinct(d, e);
    }
  }

  lemma SameYearDistinct(d: Date, e: Date)
    requires Exists(d) && Exists(e) && ToDays(d) == ToDays(e) && d.year == e.year
    ensures d == e
  {
    hide ToDays, Leap;
    Compare(d.year, d.month, d.day, e.month, e.day);
  }

  /** Day w of the week, from Sunday as 0: counted from that Thursday on, or from the day up to that Thursday. */
  ghost predicate IsDayOfWeek(d: Date, w: nat)
    requires Exists(d)
  {
    && w < 7
    && ((exists n: nat :: DaysLater(EPOCH, n) == d && (4 + n) % 7 == w)
        || (exists n: nat :: DaysLater(d, n) == EPOCH && (w + n) % 7 == 4))
  }

  // ---------------------------------------------------------------------------------------------
  // The date test

  /** A range of dates without a year; zero is an unset field. */
  datatype Range = Range(beginMonth: nat, beginDay: nat, endMonth: nat, endDay: nat)

  /** Both months and both days are set. */
  predicate Complete(r: Range) {
    1 <= r.beginMonth <= 12 && 1 <= r.beginDay <= 31 && 1 <= r.endMonth <= 12 && 1 <= r.endDay <= 31
  }

  /** Both months are set and no day is: the range is of whole months. */
  predicate Months(r: Range) {
    1 <= r.beginMonth <= 12 && r.beginDay == 0 && 1 <= r.endMonth <= 12 && r.endDay == 0
  }

  /** Of the range over New Year, the begin is in the year before when the date is not yet past it. */
  function BeginYear(r: Range, year: int, month: nat): int {
    if r.beginMonth > r.endMonth && r.beginMonth > month then year - 1 else year
  }

  function EndYear(r: Range, year: int, month: nat): int {
    if r.beginMonth > r.endMonth && r.beginMonth <= month then year + 1 else year
  }

  /** From late in a month to early in the same month: almost all of the year. */
  predicate EdgeCase(r: Range) {
    r.beginMonth == r.endMonth && r.beginDay > r.endDay
  }

  predicate DateTest(r: Range, d: Date) {
    var begin := ToDays(Date(BeginYear(r, d.year, d.month), r.beginMonth, r.beginDay));
    var end := ToDays(Date(EndYear(r, d.year, d.month), r.endMonth, r.endDay));
    var day := ToDays(d);
    if EdgeCase(r) then
      || (begin <= day <= ToDays(Date(BeginYear(r, d.year, d.month), 12, 31)))
      || (ToDays(Date(BeginYear(r, d.year, d.month), 1, 1)) <= day <= end)
    else begin <= day <= end
  }

  /** Month and day in order. */
  predicate UpTo(m: nat, d: nat, m': nat, d': nat) {
    m < m' || (m == m' && d <= d')
  }

  /** What the range means: the dates from begin to end, round the turn of the year if begin is later. */
  predicate InInterval(r: Range, m: nat, d: nat) {
    if UpTo(r.beginMonth, r.beginDay, r.endMonth, r.endDay) then
      UpTo(r.beginMonth, r.beginDay, m, d) && UpTo(m, d, r.endMonth, r.endDay)
    else
      UpTo(r.beginMonth, r.beginDay, m, d) || UpTo(m, d, r.endMonth, r.endDay)
  }

  /** The days of the range exist in the year, as far as it matters. A begin may be one day past the end of
      its month: that is the first of the next. An end need not exist where the range closes up after it. */
  predicate DaysExist(r: Range, year: int)
    requires Complete(r)
  {
    var lastBegin, lastEnd := LastDay(year, r.beginMonth), LastDay(year, r.endMonth);
    if EdgeCase(r) then r.beginDay <= lastBegin + 1 || r.beginDay <= r.endDay + 1
    else if r.beginMonth <= r.endMonth then r.endDay <= lastEnd && r.beginDay <= lastBegin + 1
    else (r.endDay <= lastEnd || r.endMonth + 1 == r.beginMonth) && r.beginDay <= lastBegin + 1
  }

  ghost predicate TestMeansInterval(r: Range, year: int) {
    forall m, d | Exists(Date(year, m, d)) :: DateTest(r, Date(year, m, d)) <==> InInterval(r, m, d)
  }

  lemma WithinYear(year: int, m: nat, d: nat)
    requires Exists(Date(year, m, d))
    ensures ToDays(Date(year, 1, 1)) <= ToDays(Date(year, m, d)) <= ToDays(Date(year, 12, 31))
  {
    Compare(year, m, d, 12, 31);
    Compare(year, m, d, 1, 1);
    hide ToDays, Leap;
  }

  lemma TestOfDate(r: Range, year: int, m: nat, d: nat)
    requires Complete(r) && Exists(Date(year, m, d))
    ensures DateTest(r, Date(year, m, d)) <==>
            var afterBegin := ToDays(Date(year, r.beginMonth, r.beginDay)) <= ToDays(Date(year, m, d));
            var beforeEnd := ToDays(Date(year, m, d)) <= ToDays(Date(year, r.endMonth, r.endDay));
            if EdgeCase(r) then afterBegin || beforeEnd
            else if r.beginMonth <= r.endMonth then afterBegin && beforeEnd
            else if m < r.beginMonth then beforeEnd
            else afterBegin
  {
    hide ToDays, LastDay, Exists;
    WithinYear(year, m, d);
    InTheCalendar(year, m, d);
    CompareYears(year - 1, r.beginMonth, r.beginDay, m, d);
    CompareYears(year, m, d, r.endMonth, r.endDay);
  }

  lemma InTheCalendar(year: int, m: nat, d: nat)
    requires Exists(Date(year, m, d))
    ensures 1 <= m <= 12 && 1 <= d <= 31
  {
  }

  /** The date test is membership in the interval if its days exist in the tested year. */
  lemma TestIsInterval(r: Range, year: int, m: nat, d: nat)
    requires Complete(r) && Exists(Date(year, m, d)) && DaysExist(r, year)
    ensures DateTest(r, Date(year, m, d)) <==> InInterval(r, m, d)
  {
    hide ToDays, Leap, DateTest;
    TestOfDate(r, year, m, d);
    Compare(year, m, d, r.beginMonth, r.beginDay);
    Compare(year, m, d, r.endMonth, r.endDay);
  }

  /** A date of the year that the test gets wrong when they do not. */
  lemma MisjudgedDate(r: Range, year: int) returns (m: nat, d: nat)
    requires Complete(r) && !DaysExist(r, year)
    ensures Exists(Date(year, m, d)) && (DateTest(r, Date(year, m, d)) != InInterval(r, m, d))
  {
    hide ToDays, Leap, DateTest;
    var lastBegin, lastEnd := LastDay(year, r.beginMonth), LastDay(year, r.endMonth);
    if EdgeCase(r) {
      m, d := r.beginMonth + 1, r.beginDay - lastBegin - 1;
    } else if r.endDay > lastEnd && r.endMonth + 1 != r.beginMonth {
      m := r.endMonth + 1;
      d := r.endDay - lastEnd;
    } else {
      m, d := r.beginMonth + 1, 1;
    }
    hide ToDays, Leap, DateTest;
    TestOfDate(r, year, m, d);
    Compare(year, m, d, r.beginMonth, r.beginDay);
    Compare(year, m, d, r.endMonth, r.endDay);
  }

  /** Over a year, the date test is membership in the interval exactly if the days exist. */
  lemma TestMeansIntervalIffDaysExist(r: Range, year: int)
    requires Complete(r)
    ensures TestMeansInterval(r, year) <==> DaysExist(r, year)
  {
    hide DateTest, InInterval, DaysExist, Exists;
    if DaysExist(r, year) {
      forall m, d | Exists(Date(year, m, d))
        ensures DateTest(r, Date(year, m, d)) <==> InInterval(r, m, d)
      {
        TestIsInterval(r, year, m, d);
      }
    } else {
      var m, d := MisjudgedDate(r, year);
    }
  }

  /** Days that exist in every year are always judged rightly, from New Year to New Year and round it. */
  lemma OrdinaryDaysExist(r: Range, year: int)
    requires Complete(r)
    requires r.beginDay <= LastDay(2001, r.beginMonth) && r.endDay <= LastDay(2001, r.endMonth)
    ensures TestMeansInterval(r, year)
  {
    ShortestYear(year, r.beginMonth);
    ShortestYear(year, r.endMonth);
    TestMeansIntervalIffDaysExist(r, year);
    hide TestMeansInterval, LastDay;
  }

  lemma ShortestYear(year: int, m: nat)
    requires 1 <= m <= 12
    ensures LastDay(2001, m) <= LastDay(year, m)
  {
  }

  /** The days that are filled in for a range of whole months. The last one is the tested year's. */
  function Filled(r: Range, year: int): Range
    requires Months(r)
  {
    Range(r.beginMonth, 1, r.endMonth, LastDay(year, r.endMonth))
  }

  /** For whole months the test is right in every year, leap or not: the date's month is one of them. */
  lemma WholeMonths(r: Range, d: Date)
    requires Months(r) && Exists(d)
    ensures DateTest(Filled(r, d.year), d) <==>
            if r.beginMonth <= r.endMonth then r.beginMonth <= d.month <= r.endMonth
            else d.month >= r.beginMonth || d.month <= r.endMonth
  {
    TestIsInterval(Filled(r, d.year), d.year, d.month, d.day);
    hide DateTest, Leap;
  }

  // ---------------------------------------------------------------------------------------------
  // The whole test

  /** A conditional restriction of type kYMD; zero is an unset field. */
  datatype TimeDomain = TimeDomain(
    beginHrs: nat, beginMins: nat, endHrs: nat, endMins: nat, dow: nat, range: Range, beginWeek: nat, endWeek: nat)

  /** What the setters of TimeDomain guarantee. */
  predicate InBounds(td: TimeDomain) {
    && td.beginHrs <= 23 && td.endHrs <= 23 && td.beginMins <= 59 && td.endMins <= 59 && td.dow <= 127
    && td.range.beginMonth <= 12 && td.range.endMonth <= 12 && td.range.beginDay <= 31 && td.range.endDay <= 31
  }

  const LAST_MINUTE: nat := 1439

  /** 0 for Sunday to 6 for Saturday. */
  function Weekday(d: Date): nat {
    (ToDays(d) + 4) % 7
  }

  /** The formula is the day of the week that counting gives, for every date there is. */
  lemma WeekdayIsCounted(d: Date, w: nat)
    requires Exists(d) && w < 7
    ensures IsDayOfWeek(d, w) <==> w == Weekday(d)
  {
    EpochIsDayZero();
    var days := ToDays(d);
    hide ToDays, Exists;
    if IsDayOfWeek(d, w) {
      if n: nat :| DaysLater(EPOCH, n) == d && (4 + n) % 7 == w {
        DaysLaterAre(EPOCH, n);
      } else {
        var n: nat :| DaysLater(d, n) == EPOCH && (w + n) % 7 == 4;
        DaysLaterAre(d, n);
        SevenDays(n, days, w);
      }
    } else if days >= 0 {
      DaysLaterAre(EPOCH, days);
      DaysAreDistinct(DaysLater(EPOCH, days), d);
    } else {
      DaysLaterAre(d, -days);
      DaysAreDistinct(DaysLater(d, -days), EPOCH);
      SevenDays(-days, days, Weekday(d));
    }
  }

  lemma SevenDays(n: nat, days: int, w: nat)
    requires n + days == 0 && w < 7
    ensures (w + n) % 7 == 4 <==> w == (days + 4) % 7
  {
  }

  function Pow2(n: nat): (p: nat)
    ensures p > 0
  {
    if n == 0 then 1 else 2 * Pow2(n - 1)
  }

  /** The mask has the weekday's bit. */
  predicate HasWeekday(mask: nat, weekday: nat) {
    mask / Pow2(weekday) % 2 == 1
  }

  predicate DowTest(td: TimeDomain, d: Date) {
    td.dow == 0 || HasWeekday(td.dow, Weekday(d))
  }

  predicate HasTimes(td: TimeDomain) {
    td.beginHrs != 0 || td.beginMins != 0 || td.endHrs != 0 || td.endMins != 0
  }

  function BeginMinute(td: TimeDomain): nat {
    if HasTimes(td) then td.beginHrs * 60 + td.beginMins else 0
  }

  function EndMinute(td: TimeDomain): nat {
    if HasTimes(td) then td.endHrs * 60 + td.endMins else LAST_MINUTE
  }

  /** Whether a window goes over midnight is decided by the hours alone. */
  predicate TimeTest(td: TimeDomain, minute: nat) {
    if td.beginHrs > td.endHrs then !(EndMinute(td) <= minute <= BeginMinute(td))
    else BeginMinute(td) <= minute <= EndMinute(td)
  }

  /** What a window means: the minutes from begin to end, over midnight if begin is later. */
  predicate InWindow(td: TimeDomain, minute: nat) {
    if BeginMinute(td) <= EndMinute(td) then BeginMinute(td) <= minute <= EndMinute(td)
    else minute >= BeginMinute(td) || minute <= EndMinute(td)
  }

  /** The time test is membership in the window exactly for windows within a day: one over midnight leaves out
      its two end minutes, and one over midnight that begins and ends in the same hour is never open. */
  lemma TimeTestIsWindowIffWithinDay(td: TimeDomain)
    requires InBounds(td)
    ensures (forall minute: nat | minute <= LAST_MINUTE :: TimeTest(td, minute) <==> InWindow(td, minute)) <==>
            BeginMinute(td) <= EndMinute(td)
    ensures td.beginHrs > td.endHrs ==> forall minute: nat | minute <= LAST_MINUTE ::
              TimeTest(td, minute) <==>
              InWindow(td, minute) && minute != BeginMinute(td) && minute != EndMinute(td)
    ensures td.beginHrs == td.endHrs && td.beginMins > td.endMins ==>
              forall minute :: !TimeTest(td, minute)
  {
    if BeginMinute(td) > EndMinute(td) {
      assert TimeTest(td, BeginMinute(td)) != InWindow(td, BeginMinute(td));
    }
  }

  /** The range the date test works on: the days of whole months are filled in. */
  function Effective(r: Range, year: int): Range {
    if Months(r) then Filled(r, year) else r
  }

  /** Without a begin month and a begin day the dates of a range are not looked at. */
  predicate HasDates(r: Range) {
    r.beginMonth != 0 && (r.beginDay != 0 || Months(r))
  }

  predicate Active(td: TimeDomain, d: Date, minute: nat) {
    && DowTest(td, d)
    && (HasDates(td.range) ==> DateTest(Effective(td.range, d.year), d))
    && TimeTest(td, minute)
  }

  // ---------------------------------------------------------------------------------------------
  // What that means, field by field

  /** The mask is unset or has the bit of the day, Sunday's being 1 and Saturday's 64. */
  predicate DayAllowed(dow: nat, w: nat)
    requires w < 7
  {
    dow == 0 || dow / [1, 2, 4, 8, 16, 32, 64][w] % 2 == 1
  }

  /** No times, or a window of whole minutes; with a later begin hour, all but the minutes from end to begin. */
  predicate TimeAllowed(td: TimeDomain, minute: nat) {
    var begin, end := 60 * td.beginHrs + td.beginMins, 60 * td.endHrs + td.endMins;
    if begin == 0 && end == 0 then true
    else if td.beginHrs > td.endHrs then minute < end || minute > begin
    else begin <= minute <= end
  }

  /** The range has no dates, whole months, or two dates of which the days exist in the year. */
  predicate Regular(r: Range, year: int) {
    || r.beginMonth == 0 || (r.beginDay == 0 && (r.endMonth == 0 || r.endDay != 0))
    || (r.beginDay == 0 && r.endDay == 0 && 1 <= r.beginMonth <= 12 && 1 <= r.endMonth <= 12)
    || (Complete(r) && DaysExist(r, year))
  }

  /** No dates, or the months from begin to end, or the days from begin to end, round the turn of the year if the end
      is before the begin. */
  predicate DateAllowed(r: Range, m: nat, d: nat) {
    if r.beginMonth == 0 || (r.beginDay == 0 && (r.endMonth == 0 || r.endDay != 0)) then true
    else if r.beginDay == 0 then
      if r.beginMonth <= r.endMonth then r.beginMonth <= m <= r.endMonth else r.beginMonth <= m || m <= r.endMonth
    else
      var begin, end, day := 32 * r.beginMonth + r.beginDay, 32 * r.endMonth + r.endDay, 32 * m + d;
      if begin <= end then begin <= day <= end else begin <= day || day <= end
  }

  lemma BitOfDay(mask: nat, w: nat)
    requires w < 7
    ensures Pow2(w) == [1, 2, 4, 8, 16, 32, 64][w]
  {
    assert Pow2(0) == 1 && Pow2(1) == 2 && Pow2(2) == 4 && Pow2(3) == 8 && Pow2(4) == 16;
    assert Pow2(5) == 2 * Pow2(4) && Pow2(6) == 2 * Pow2(5);
  }

  lemma DatesAllowed(r: Range, d: Date)
    requires r.beginMonth <= 12 && r.endMonth <= 12 && r.beginDay <= 31 && r.endDay <= 31
    requires Exists(d) && Regular(r, d.year)
    ensures (HasDates(r) ==> DateTest(Effective(r, d.year), d)) <==> DateAllowed(r, d.month, d.day)
  {
    hide DateTest, ToDays, Leap;
    if Months(r) {
      WholeMonths(r, d);
    } else if HasDates(r) {
      TestIsInterval(r, d.year, d.month, d.day);
    }
  }

  /** For every range that makes sense: the day of the week, the date and the time all permit it. */
  lemma ActiveInFields(td: TimeDomain, d: Date, minute: nat, w: nat)
    requires InBounds(td) && Exists(d) && minute <= LAST_MINUTE && IsDayOfWeek(d, w) && Regular(td.range, d.year)
    ensures Active(td, d, minute) <==>
            DayAllowed(td.dow, w) && DateAllowed(td.range, d.month, d.day) && TimeAllowed(td, minute)
  {
    hide DateTest, ToDays, Exists, DateAllowed, HasDates, Effective, Regular, Pow2;
    WeekdayIsCounted(d, w);
    BitOfDay(td.dow, w);
    DatesAllowed(td.range, d);
  }

  lemma Permitted(td: TimeDomain, d: Date, minute: nat)
    requires InBounds(td) && Exists(d) && minute <= LAST_MINUTE
    ensures forall w | IsDayOfWeek(d, w) && Regular(td.range, d.year) ::
              Active(td, d, minute) <==>
              DayAllowed(td.dow, w) && DateAllowed(td.range, d.month, d.day) && TimeAllowed(td, minute)
  {
    hide *;
    forall w | IsDayOfWeek(d, w) && Regular(td.range, d.year)
      ensures w < 7
      ensures Active(td, d, minute) <==>
              DayAllowed(td.dow, w) && DateAllowed(td.range, d.month, d.day) && TimeAllowed(td, minute)
    {
      DayBelowSeven(d, w);
      ActiveInFields(td, d, minute, w);
    }
  }

  lemma DayBelowSeven(d: Date, w: nat)
    requires Exists(d) && IsDayOfWeek(d, w)
    ensures w < 7
  {
  }

  /** is_conditional_active for type kYMD, from local civil time on. */
  method IsConditionalActive(td: TimeDomain, d: Date, minute: nat) returns (active: bool)
    requires InBounds(td) && Exists(d) && minute <= LAST_MINUTE
    ensures active == Active(td, d, minute)
    ensures forall w | IsDayOfWeek(d, w) && Regular(td.range, d.year) ::
              active <==> DayAllowed(td.dow, w) && DateAllowed(td.range, d.month, d.day) && TimeAllowed(td, minute)
  {
    hide ToDays, LastDay, HasWeekday, DayAllowed, DateAllowed, TimeAllowed, IsDayOfWeek, Regular;
    Permitted(td, d, minute);
    var dowInRange, dtInRange := true, true;
    var bTd, eTd := 0, 23 * 60 + 59;
    if td.dow != 0 {
      dowInRange := HasWeekday(td.dow, Weekday(d));
    }
    var bMonth, eMonth := td.range.beginMonth, td.range.endMonth;
    var bDay, eDay := td.range.beginDay, td.range.endDay;
    if bMonth != 0 && eMonth != 0 && bDay == 0 && eDay == 0 {
      bDay := 1;
      eDay := LastDay(d.year, eMonth);
    }
    var edgeCase := false;
    var bYear, eYear := 0, 0;
    // The days were just filled in, so the branch for a single month is never taken.
    if bMonth != 0 && eMonth != 0 && bDay == 0 && eDay == 0 && td.beginWeek == 0 && td.endWeek == 0
       && bMonth == eMonth {
      assert false;
    } else if bMonth != 0 && bDay != 0 {
      bYear, eYear := d.year, d.year;
      if bMonth == eMonth {
        if bDay > eDay {
          edgeCase := true;
        }
      } else if bMonth > eMonth {
        if bMonth > d.month {
          bYear := d.year - 1;
        } else {
          eYear := d.year + 1;
        }
      }
    } else {
      if HasTimes(td) {
        bTd := td.beginHrs * 60 + td.beginMins;
        eTd := td.endHrs * 60 + td.endMins;
        if td.beginHrs > td.endHrs {
          dtInRange := !(eTd <= minute <= bTd);
        } else {
          dtInRange := bTd <= minute <= eTd;
        }
      }
      return dowInRange && dtInRange;
    }
    var beginDate, endDate := Date(bYear, bMonth, bDay), Date(eYear, eMonth, eDay);
    if HasTimes(td) {
      bTd := td.beginHrs * 60 + td.beginMins;
      eTd := td.endHrs * 60 + td.endMins;
    }
    if edgeCase {
      var newEnd, newBegin := Date(bYear, 12, 31), Date(bYear, 1, 1);
      dtInRange := (ToDays(beginDate) <= ToDays(d) <= ToDays(newEnd)) ||
                   (ToDays(newBegin) <= ToDays(d) <= ToDays(endDate));
    } else {
      dtInRange := ToDays(beginDate) <= ToDays(d) <= ToDays(endDate);
    }
    var timeInRange := false;
    if td.beginHrs > td.endHrs {
      timeInRange := !(eTd <= minute <= bTd);
    } else {
      timeInRange := bTd <= minute <= eTd;
    }
    dtInRange := dtInRange && timeInRange;
    active := dowInRange && dtInRange;
  }

  /** What an active restriction means when its days exist in the tested year and its window is within a day. */
  lemma ActiveMeans(td: TimeDomain, d: Date, minute: nat)
    requires InBounds(td) && Exists(d) && minute <= LAST_MINUTE && BeginMinute(td) <= EndMinute(td)
    requires Months(td.range) || (Complete(td.range) && DaysExist(td.range, d.year))
    ensures Active(td, d, minute) <==>
            && DowTest(td, d)
            && InWindow(td, minute)
            && InInterval(Effective(td.range, d.year), d.month, d.day)
  {
    TimeTestIsWindowIffWithinDay(td);
    TestIsInterval(Effective(td.range, d.year), d.year, d.month, d.day);
    hide DateTest, Leap, HasWeekday, InInterval;
  }

  /** Every week day comes round: the next day's weekday is the next one. */
  lemma WeekdaysFollow(y: int, m: nat, d: nat)
    ensures Weekday(Date(y, m, d + 1)) == (Weekday(Date(y, m, d)) + 1) % 7
  {
    hide ToDays;
    DayOfMonth(y, m, d);
    DayOfMonth(y, m, d + 1);
  }
}
