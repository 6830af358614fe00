// Local wall-clock periods in a zone with a fixed offset, in seconds from local
// midnight of 1 January 1970, on the proleptic Gregorian calendar.
module Calendar {
  datatype Level = Hour | Day | Week | Month | Year

  const HOUR := 3600
  const DAY := 86400

  // ------------------------------------------------------------ civil dates

  predicate IsLeap(year: int) {
    year % 4 == 0 && (year % 100 != 0 || year % 400 == 0)
  }

  // The day number of 1 January.
  function YearStart(year: int): int {
    365 * (year - 1) + (year - 1) / 4 - (year - 1) / 100 + (year - 1) / 400 - 719162
  }

  // The days of a year before its month number `month` (from 0).
  function DaysBefore(month: int, leap: bool): int
    requires 0 <= month < 12
  {
    [0, 31, 59, 90, 120, 151, 181, 212, 243, 273, 304, 334][month] + if leap && month >= 2 then 1 else 0
  }

  // Months are counted through: month n is month n % 12 of year n / 12.
  function MonthStart(n: int): int {
    YearStart(n / 12) + DaysBefore(n % 12, IsLeap(n / 12))
  }

  lemma YearLength(year: int)
    ensures YearStart(year + 1) - YearStart(year) == if IsLeap(year) then 366 else 365
  {
    FourthYears(year);
    HundredthYears(year);
    FourHundredthYears(year);
    MultiplesNest(year);
  }

  lemma FourthYears(year: int)
    ensures year / 4 - (year - 1) / 4 == if year % 4 == 0 then 1 else 0
  {
  }

  lemma HundredthYears(year: int)
    ensures year / 100 - (year - 1) / 100 == if year % 100 == 0 then 1 else 0
  {
  }

  lemma FourHundredthYears(year: int)
    ensures year / 400 - (year - 1) / 400 == if year % 400 == 0 then 1 else 0
  {
  }

  lemma MultiplesNest(year: int)
    ensures (year % 400 == 0 ==> year % 100 == 0) && (year % 100 == 0 ==> year % 4 == 0)
  {
    if year % 400 == 0 {
      assert year == 100 * (4 * (year / 400));
      HundredTimes(4 * (year / 400));
    }
    if year % 100 == 0 {
      assert year == 4 * (25 * (year / 100));
      FourTimes(25 * (year / 100));
    }
  }

  lemma HundredTimes(k: int)
    ensures (100 * k) % 100 == 0
  {
  }

  lemma FourTimes(k: int)
    ensures (4 * k) % 4 == 0
  {
  }

  lemma MonthLength(n: int)
    ensures 28 <= MonthStart(n + 1) - MonthStart(n) <= 31
  {
    YearLength(n / 12);
    if n % 12 == 11 {
      assert (n + 1) / 12 == n / 12 + 1 && (n + 1) % 12 == 0;
    } else {
      assert (n + 1) / 12 == n / 12 && (n + 1) % 12 == n % 12 + 1;
    }
  }

  // A year that starts on or before the day, going down from `year`.
  function YearNotAfter(day: int, year: int): (r: int)
    ensures YearStart(r) <= day
    decreases if YearStart(year) <= day then 0 else YearStart(year) - day
  {
    if YearStart(year) <= day then year
    else
      (YearLength(year - 1); YearNotAfter(day, year - 1))
  }

  // The last year that starts on or before the day, going up from `year`.
  function LastYearNotAfter(day: int, year: int): (r: int)
    requires YearStart(year) <= day
    ensures YearStart(r) <= day < YearStart(r + 1)
    decreases day - YearStart(year)
  {
    YearLength(year);
    if day < YearStart(year + 1) then year else LastYearNotAfter(day, year + 1)
  }

  function YearOf(day: int): (r: int)
    ensures YearStart(r) <= day < YearStart(r + 1)
  {
    LastYearNotAfter(day, YearNotAfter(day, 1970))
  }

  // The month, from `month` down, that contains a day of the year.
  function MonthInYear(dayOfYear: nat, leap: bool, month: nat): (r: nat)
    requires month < 12
    requires month < 11 ==> dayOfYear < DaysBefore(month + 1, leap)
    ensures r < 12 && DaysBefore(r, leap) <= dayOfYear
    ensures r < 11 ==> dayOfYear < DaysBefore(r + 1, leap)
  {
    if DaysBefore(month, leap) <= dayOfYear then month else MonthInYear(dayOfYear, leap, month - 1)
  }

  function MonthIndex(day: int): int {
    var year := YearOf(day);
    12 * year + MonthInYear(day - YearStart(year), IsLeap(year), 11)
  }

  lemma MonthOfYearStart(year: int, month: nat)
    requires month < 12
    ensures MonthStart(12 * year + month) == YearStart(year) + DaysBefore(month, IsLeap(year))
    ensures month == 0 ==> DaysBefore(month, IsLeap(year)) == 0
  {
    assert (12 * year + month) / 12 == year && (12 * year + month) % 12 == month;
  }

  lemma MonthIndexContains(day: int)
    ensures MonthStart(MonthIndex(day)) <= day < MonthStart(MonthIndex(day) + 1)
  {
    hide YearStart, IsLeap, DaysBefore, MonthStart;
    var year := YearOf(day);
    var month := MonthInYear(day - YearStart(year), IsLeap(year), 11);
    MonthOfYearStart(year, month);
    if month < 11 {
      MonthOfYearStart(year, month + 1);
    } else {
      MonthOfYearStart(year + 1, 0);
    }
  }

  // The month of the year, 1 to 12.
  function MonthOf(day: int): int {
    MonthIndex(day) - 12 * YearOf(day) + 1
  }

  // The first day of a month given by year and month of the year.
  function FirstOfMonth(year: int, month: int): int {
    MonthStart(12 * year + month - 1)
  }

  function DaysFromMonday(day: int): int { (day + 3) % 7 }

  // ---------------------------------------------------------------- periods

  // Period n of a level begins here; period n ends where period n + 1 begins.
  function Start(level: Level, n: int): int {
    match level
    case Hour => HOUR * n
    case Day => DAY * n
    case Week => DAY * (7 * n - 3)
    case Month => DAY * MonthStart(n)
    case Year => DAY * YearStart(n)
  }

  // The number of the period that contains a moment.
  function Index(level: Level, at: int): int {
    match level
    case Hour => at / HOUR
    case Day => at / DAY
    case Week => (at / DAY + 3) / 7
    case Month => MonthIndex(at / DAY)
    case Year => YearOf(at / DAY)
  }

  lemma IndexContains(level: Level, at: int)
    ensures Start(level, Index(level, at)) <= at < Start(level, Index(level, at) + 1)
  {
    hide YearStart, MonthStart, MonthIndex, YearOf;
    var day := at / DAY;
    assert DAY * day <= at < DAY * (day + 1);
    match level
    case Week =>
      var w := (day + 3) / 7;
      assert 7 * w <= day + 3 < 7 * (w + 1);
    case Month => MonthIndexContains(day);
    case _ =>
  }

  lemma StepForward(level: Level, n: int)
    ensures Start(level, n) + HOUR <= Start(level, n + 1)
    ensures level == Month ==> Start(level, n) + 28 * DAY <= Start(level, n + 1)
  {
    match level
    case Month => MonthLength(n);
    case Year => YearLength(n);
    case _ =>
  }

  lemma {:induction false} StartIncreases(level: Level, a: int, b: int)
    requires a <= b
    ensures Start(level, a) <= Start(level, b)
    ensures a < b ==> Start(level, a) < Start(level, b)
    decreases b - a
  {
    hide Start;
    if a < b {
      StepForward(level, b - 1);
      StartIncreases(level, a, b - 1);
    }
  }

  // A moment lies in exactly one period of a level.
  lemma IndexUnique(level: Level, at: int, n: int)
    requires Start(level, n) <= at < Start(level, n + 1)
    ensures Index(level, at) == n
  {
    hide *;
    var i := Index(level, at);
    IndexContains(level, at);
    if i < n {
      StartIncreases(level, i + 1, n);
    } else if n < i {
      StartIncreases(level, n + 1, i);
    }
  }

  lemma IndexOfStart(level: Level, n: int)
    ensures Index(level, Start(level, n)) == n
  {
    hide Start, Index;
    StepForward(level, n);
    IndexUnique(level, Start(level, n), n);
  }

  // Index is monotone, and comparing indexes is comparing with boundaries.
  lemma IndexBefore(level: Level, at: int, n: int)
    ensures Index(level, at) < n <==> at < Start(level, n)
  {
    hide Start, Index;
    IndexContains(level, at);
    if Index(level, at) < n {
      StartIncreases(level, Index(level, at) + 1, n);
    } else {
      StartIncreases(level, n, Index(level, at));
    }
  }

  lemma YearIsTwelveMonths(year: int)
    ensures Start(Year, year) == Start(Month, 12 * year)
  {
    assert (12 * year) / 12 == year && (12 * year) % 12 == 0;
  }

  // ------------------------------------------------------------ what it counts

  lemma MonthOfNumber(year: int, month: int)
    requires 1 <= month <= 12
    ensures MonthStart(12 * year + month - 1) == YearStart(year) + DaysBefore(month - 1, IsLeap(year))
    ensures MonthStart(12 * year + 12) == YearStart(year + 1) + DaysBefore(0, IsLeap(year + 1))
  {
    assert (12 * year + month - 1) / 12 == year && (12 * year + month - 1) % 12 == month - 1;
    assert (12 * year + 12) / 12 == year + 1 && (12 * year + 12) % 12 == 0;
  }

  lemma LeapRule(year: int)
    ensures IsLeap(year) <==> (year % 4 == 0 && year % 100 != 0) || year % 400 == 0
  {
    MultiplesNest(year);
  }

  lemma TableLengths(month: int, leap: bool)
    requires 1 <= month <= 12
    ensures (if month < 12 then DaysBefore(month, leap) else DaysBefore(0, leap) + if leap then 366 else 365)
            - DaysBefore(month - 1, leap)
         == if month == 4 || month == 6 || month == 9 || month == 11 then 30
            else if month != 2 then 31
            else if leap then 29
            else 28
  {
  }

  lemma MonthDays(year: int, month: int)
    requires 1 <= month <= 12
    ensures MonthStart(12 * year + month) - MonthStart(12 * year + month - 1)
         == (if month < 12 then DaysBefore(month, IsLeap(year))
             else DaysBefore(0, IsLeap(year + 1)) + if IsLeap(year) then 366 else 365)
            - DaysBefore(month - 1, IsLeap(year))
  {
    hide *;
    MonthOfNumber(year, month);
    YearLength(year);
    if month < 12 {
      MonthOfNumber(year, month + 1);
    }
  }

  lemma NothingBeforeJanuary(leap: bool)
    ensures DaysBefore(0, leap) == 0
  {
  }

  // The months of the Gregorian calendar, from January as month 1. January 1970 begins
  // on day 0.
  lemma MonthsAreGregorian(year: int, month: int)
    requires 1 <= month <= 12
    ensures MonthStart(12 * year + month) - MonthStart(12 * year + month - 1)
         == if month == 4 || month == 6 || month == 9 || month == 11 then 30
            else if month != 2 then 31
            else if (year % 4 == 0 && year % 100 != 0) || year % 400 == 0 then 29
            else 28
    ensures MonthStart(12 * 1970) == 0
  {
    hide *;
    LeapRule(year);
    MonthDays(year, month);
    TableLengths(month, IsLeap(year));
    NothingBeforeJanuary(IsLeap(year));
    NothingBeforeJanuary(IsLeap(year + 1));
    EpochBegins();
  }

  lemma EpochBegins()
    ensures MonthStart(12 * 1970) == 0
  {
    assert (12 * 1970) / 12 == 1970 && (12 * 1970) % 12 == 0;
  }

  // Hours, days and weeks in seconds. Hour 0 and day 0 begin with 1970, week 1 on its
  // first Monday, the 5th.
  lemma ShortPeriods(n: int)
    ensures Start(Hour, n) == 3600 * n && Start(Day, n) == 86400 * n
    ensures Start(Week, n + 1) - Start(Week, n) == 7 * 86400 && Start(Week, 1) == 4 * 86400
  {
  }

  // Months and years in seconds: their first days at midnight.
  lemma LongPeriods(year: int, month: int)
    requires 1 <= month <= 12
    ensures Start(Month, 12 * year + month - 1) == 86400 * MonthStart(12 * year + month - 1)
    ensures Start(Year, year) == Start(Month, 12 * year)
  {
    YearIsTwelveMonths(year);
    hide MonthStart, YearStart;
  }
}
