// The periods the memory scheduler looks at: the bounded recent window of each
// level, the historical cutoff below it, and the child periods of a rollup.
module Chronicle {
  import opened Calendar

  // A period key is the start formatted at the level's precision, so it stands
  // for the number of the period.
  datatype Key = Key(level: Level, index: int)

  datatype Period = Period(key: Key, start: int, end: int)

  function PeriodAt(level: Level, n: int): Period {
    Period(Key(level, n), Start(level, n), Start(level, n + 1))
  }

  function MakePeriod(level: Level, start: int, end: int): Period {
    Period(Key(level, Index(level, start)), start, end)
  }

  function Midnight(day: int): int { DAY * day }

  function DateOf(at: int): int { at / DAY }

  function PreviousMonth(firstDay: int): int {
    if MonthOf(firstDay) == 1 then FirstOfMonth(YearOf(firstDay) - 1, 12)
    else FirstOfMonth(YearOf(firstDay), MonthOf(firstDay) - 1)
  }

  function NextMonth(firstDay: int): int {
    if MonthOf(firstDay) == 12 then FirstOfMonth(YearOf(firstDay) + 1, 1)
    else FirstOfMonth(YearOf(firstDay), MonthOf(firstDay) + 1)
  }

  function ContainingPeriod(level: Level, at: int): Period {
    match level
    case Hour =>
      var start := HOUR * (at / HOUR);
      MakePeriod(level, start, start + HOUR)
    case Day => MakePeriod(level, Midnight(DateOf(at)), Midnight(DateOf(at) + 1))
    case Week =>
      var startDate := DateOf(at) - DaysFromMonday(DateOf(at));
      MakePeriod(level, Midnight(startDate), Midnight(startDate + 7))
    case Month =>
      var startDate := FirstOfMonth(YearOf(DateOf(at)), MonthOf(DateOf(at)));
      MakePeriod(level, Midnight(startDate), Midnight(NextMonth(startDate)))
    case Year =>
      var year := YearOf(DateOf(at));
      MakePeriod(level, Midnight(FirstOfMonth(year, 1)), Midnight(FirstOfMonth(year + 1, 1)))
  }

  // ------------------------------------------------- the calendar is regular

  lemma DateOfMidnight(day: int)
    ensures DateOf(Midnight(day)) == day
  {
  }

  lemma MonthIndexOfStart(n: int)
    ensures MonthIndex(MonthStart(n)) == n
  {
    hide MonthStart, MonthIndex;
    IndexOfStart(Month, n);
    DateOfMidnight(MonthStart(n));
  }

  lemma YearOfMonth(n: int)
    ensures YearOf(MonthStart(n)) == n / 12
    ensures MonthOf(MonthStart(n)) == n % 12 + 1
  {
    MonthIndexOfStart(n);
    MonthBelongsToYear(MonthStart(n));
    hide MonthStart, MonthIndex, YearOf;
  }

  // A day's month lies in the day's year.
  lemma MonthBelongsToYear(day: int)
    ensures YearOf(day) == MonthIndex(day) / 12
    ensures 1 <= MonthOf(day) <= 12
  {
    hide YearStart, IsLeap, DaysBefore, MonthInYear, YearOf;
  }

  lemma PreviousMonthIsPrevious(n: int)
    ensures PreviousMonth(MonthStart(n)) == MonthStart(n - 1)
  {
    hide MonthStart, MonthIndex, YearOf, MonthOf;
    YearOfMonth(n);
  }

  lemma NextMonthIsNext(n: int)
    ensures NextMonth(MonthStart(n)) == MonthStart(n + 1)
  {
    hide MonthStart, MonthIndex, YearOf, MonthOf;
    YearOfMonth(n);
  }

  lemma MakePeriodAt(level: Level, n: int)
    ensures MakePeriod(level, Start(level, n), Start(level, n + 1)) == PeriodAt(level, n)
  {
    hide Start, Index;
    IndexOfStart(level, n);
  }

  // However its ends are computed, a containing period is the period of its number.
  lemma ContainingIsPeriodAt(level: Level, at: int)
    ensures ContainingPeriod(level, at) == PeriodAt(level, Index(level, at))
  {
    hide MonthStart, MonthIndex, YearStart, YearOf, MonthOf, MakePeriod, NextMonth;
    var n := Index(level, at);
    var day := DateOf(at);
    MakePeriodAt(level, n);
    match level
    case Week => assert day - DaysFromMonday(day) == 7 * n - 3;
    case Month =>
      MonthBelongsToYear(day);
      FirstOfOwnMonth(day);
      NextMonthIsNext(n);
    case Year =>
      FirstOfYear(n);
      FirstOfYear(n + 1);
    case _ =>
  }

  lemma FirstOfOwnMonth(day: int)
    ensures FirstOfMonth(YearOf(day), MonthOf(day)) == MonthStart(MonthIndex(day))
  {
    hide MonthStart, MonthIndex, YearOf;
  }

  lemma FirstOfYear(year: int)
    ensures FirstOfMonth(year, 1) == YearStart(year)
  {
    YearIsTwelveMonths(year);
    hide MonthStart, YearStart;
  }

  // ------------------------------------------------------ the recent window

  datatype Config = Config(hour: nat, day: nat, week: nat, month: nat, year: nat)

  const MAX_RECENT_HOURS := 24
  const MAX_RECENT_DAYS := 2
  const MAX_RECENT_WEEKS := 2
  const MAX_RECENT_MONTHS := 2
  const MAX_RECENT_YEARS := 1

  function AtMost(value: nat, limit: nat): nat { if value < limit then value else limit }

  function RecentCount(level: Level, config: Config): nat {
    match level
    case Hour => AtMost(config.hour, MAX_RECENT_HOURS)
    case Day => AtMost(config.day, MAX_RECENT_DAYS)
    case Week => AtMost(config.week, MAX_RECENT_WEEKS)
    case Month => AtMost(config.month, MAX_RECENT_MONTHS)
    case Year => AtMost(config.year, MAX_RECENT_YEARS)
  }

  // The `count` periods from number `from` on, oldest first.
  function Window(level: Level, from: int, count: nat): (w: seq<Period>)
    ensures |w| == count && forall i | 0 <= i < count :: w[i] == PeriodAt(level, from + i)
  {
    seq(count, i requires 0 <= i < count => PeriodAt(level, from + i))
  }

  // The periods that ended last before the current one.
  function Recent(level: Level, now: int, config: Config): seq<Period> {
    var count := RecentCount(level, config);
    Window(level, Index(level, now) - count, count)
  }

  function Due(now: int, config: Config): seq<Period> {
    Recent(Hour, now, config) + Recent(Day, now, config) + Recent(Week, now, config)
    + Recent(Month, now, config) + Recent(Year, now, config)
  }

  function Rank(level: Level): nat {
    match level
    case Hour => 0
    case Day => 1
    case Week => 2
    case Month => 3
    case Year => 4
  }

  lemma RecentHas(level: Level, now: int, config: Config, p: Period)
    ensures p in Recent(level, now, config) <==>
            p == PeriodAt(level, p.key.index)
            && 1 <= Index(level, now) - p.key.index <= RecentCount(level, config)
  {
    hide Start, Index, RecentCount;
    var recent, first := Recent(level, now, config), Index(level, now) - RecentCount(level, config);
    if p == PeriodAt(level, p.key.index) && 1 <= Index(level, now) - p.key.index <= RecentCount(level, config) {
      assert recent[p.key.index - first] == p;
    }
  }

  // Due are the periods that ended last at each level, no more than the configuration
  // asks for and at most 24 hours and two days, weeks and months and one year back.
  lemma DueIff(level: Level, n: int, now: int, config: Config)
    ensures PeriodAt(level, n) in Due(now, config) <==>
            var back := Index(level, now) - n;
            1 <= back && match level
                         case Hour => back <= config.hour && back <= 24
                         case Day => back <= config.day && back <= 2
                         case Week => back <= config.week && back <= 2
                         case Month => back <= config.month && back <= 2
                         case Year => back <= config.year && back <= 1
  {
    RecentHas(Hour, now, config, PeriodAt(level, n));
    RecentHas(Day, now, config, PeriodAt(level, n));
    RecentHas(Week, now, config, PeriodAt(level, n));
    RecentHas(Month, now, config, PeriodAt(level, n));
    RecentHas(Year, now, config, PeriodAt(level, n));
    hide Start, Index, Recent;
  }

  // They come level by level, children first, and within a level oldest first.
  ghost predicate InOrder(periods: seq<Period>) {
    forall i, j | 0 <= i < j < |periods| ::
      Rank(periods[i].key.level) < Rank(periods[j].key.level)
      || (periods[i].key.level == periods[j].key.level && periods[i].key.index < periods[j].key.index)
  }

  lemma RecentInOrder(level: Level, now: int, config: Config)
    ensures InOrder(Recent(level, now, config))
    ensures forall i | 0 <= i < |Recent(level, now, config)| :: Recent(level, now, config)[i].key.level == level
  {
    hide Start, Index, RecentCount;
  }

  lemma OrderedJoin(a: seq<Period>, b: seq<Period>, level: Level)
    requires InOrder(a) && InOrder(b) && forall i | 0 <= i < |b| :: b[i].key.level == level
    requires forall i | 0 <= i < |a| :: Rank(a[i].key.level) < Rank(level)
    ensures InOrder(a + b)
    ensures forall i | 0 <= i < |a + b| :: Rank((a + b)[i].key.level) <= Rank(level)
  {
    hide Rank;
  }

  lemma DueInOrder(now: int, config: Config)
    ensures InOrder(Due(now, config))
  {
    RecentInOrder(Hour, now, config);
    RecentInOrder(Day, now, config);
    RecentInOrder(Week, now, config);
    RecentInOrder(Month, now, config);
    RecentInOrder(Year, now, config);
    hide Recent, InOrder;
    OrderedJoin(Recent(Hour, now, config), Recent(Day, now, config), Day);
    var days := Recent(Hour, now, config) + Recent(Day, now, config);
    OrderedJoin(days, Recent(Week, now, config), Week);
    OrderedJoin(days + Recent(Week, now, config), Recent(Month, now, config), Month);
    OrderedJoin(days + Recent(Week, now, config) + Recent(Month, now, config), Recent(Year, now, config), Year);
  }

  method RecentHours(now: int, config: Config) returns (periods: seq<Period>)
    ensures periods == Recent(Hour, now, config)
  {
    hide MakePeriod;
    periods := [];
    var count := RecentCount(Hour, config);
    var currentHour := HOUR * (now / HOUR);
    var n := Index(Hour, now);
    var offset := count;
    while offset > 0
      invariant 0 <= offset <= count
      invariant periods == Window(Hour, n - count, count - offset)
    {
      var start := currentHour - HOUR * offset;
      MakePeriodAt(Hour, n - offset);
      periods := periods + [MakePeriod(Hour, start, start + HOUR)];
      offset := offset - 1;
    }
  }

  method RecentDays(now: int, config: Config) returns (periods: seq<Period>)
    ensures periods == Recent(Day, now, config)
  {
    hide MakePeriod;
    periods := [];
    var count := RecentCount(Day, config);
    var currentDay := Midnight(DateOf(now));
    var offset := count;
    while offset > 0
      invariant 0 <= offset <= count
      invariant periods == Window(Day, Index(Day, now) - count, count - offset)
    {
      DateOfMidnight(DateOf(now));
      var date := DateOf(currentDay) - offset;
      MakePeriodAt(Day, date);
      periods := periods + [MakePeriod(Day, Midnight(date), Midnight(date + 1))];
      offset := offset - 1;
    }
  }

  method RecentWeeks(now: int, config: Config) returns (periods: seq<Period>)
    ensures periods == Recent(Week, now, config)
  {
    hide MakePeriod;
    periods := [];
    var count := RecentCount(Week, config);
    var currentWeekDate := DateOf(now) - DaysFromMonday(DateOf(now));
    var n := Index(Week, now);
    assert currentWeekDate == 7 * n - 3;
    var offset := count;
    while offset > 0
      invariant 0 <= offset <= count
      invariant periods == Window(Week, n - count, count - offset)
    {
      var startDate := currentWeekDate - 7 * offset;
      MakePeriodAt(Week, n - offset);
      periods := periods + [MakePeriod(Week, Midnight(startDate), Midnight(startDate + 7))];
      offset := offset - 1;
    }
  }

  method RecentMonths(now: int, config: Config) returns (periods: seq<Period>)
    ensures periods == Recent(Month, now, config)
  {
    hide MakePeriod, MonthStart, MonthIndex, YearOf, MonthOf, PreviousMonth;
    var count := RecentCount(Month, config);
    var n := Index(Month, now);
    FirstOfOwnMonth(DateOf(now));
    var monthEnd := Midnight(FirstOfMonth(YearOf(DateOf(now)), MonthOf(DateOf(now))));
    var months: seq<Period> := [];
    var taken := 0;
    while taken < count
      invariant 0 <= taken <= count && |months| == taken
      invariant monthEnd == Start(Month, n - taken)
      invariant forall i | 0 <= i < taken :: months[i] == PeriodAt(Month, n - 1 - i)
    {
      DateOfMidnight(MonthStart(n - taken));
      PreviousMonthIsPrevious(n - taken);
      MakePeriodAt(Month, n - taken - 1);
      var start := Midnight(PreviousMonth(DateOf(monthEnd)));
      months := months + [MakePeriod(Month, start, monthEnd)];
      monthEnd := start;
      taken := taken + 1;
    }
    periods := Reverse(months);
  }

  method RecentYears(now: int, config: Config) returns (periods: seq<Period>)
    ensures periods == Recent(Year, now, config)
  {
    hide MakePeriod, MonthStart, YearStart, YearOf, FirstOfMonth;
    var count := RecentCount(Year, config);
    var n := Index(Year, now);
    FirstOfYear(n);
    var yearEnd := Midnight(FirstOfMonth(YearOf(DateOf(now)), 1));
    var years: seq<Period> := [];
    var taken := 0;
    while taken < count
      invariant 0 <= taken <= count && |years| == taken
      invariant yearEnd == Start(Year, n - taken)
      invariant forall i | 0 <= i < taken :: years[i] == PeriodAt(Year, n - 1 - i)
    {
      YearOfStart(n - taken);
      FirstOfYear(n - taken - 1);
      MakePeriodAt(Year, n - taken - 1);
      var start := Midnight(FirstOfMonth(YearOf(DateOf(yearEnd)) - 1, 1));
      years := years + [MakePeriod(Year, start, yearEnd)];
      yearEnd := start;
      taken := taken + 1;
    }
    periods := Reverse(years);
  }

  lemma YearOfStart(year: int)
    ensures YearOf(DateOf(Start(Year, year))) == year
  {
    hide YearOf, YearStart;
    IndexOfStart(Year, year);
  }

  function Reverse<T>(s: seq<T>): (r: seq<T>)
    ensures |r| == |s| && forall i | 0 <= i < |s| :: r[i] == s[|s| - 1 - i]
  {
    if s == [] then [] else Reverse(s[1..]) + [s[0]]
  }

  // due_periods: each level's date arithmetic yields its recent window.
  method DuePeriods(now: int, config: Config) returns (periods: seq<Period>)
    ensures periods == Due(now, config)
  {
    var hours := RecentHours(now, config);
    var days := RecentDays(now, config);
    var weeks := RecentWeeks(now, config);
    var months := RecentMonths(now, config);
    var years := RecentYears(now, config);
    periods := hours + days + weeks + months + years;
  }

  // previous_period steps back by one second from a period's start.
  lemma PreviousPeriodIsPrevious(level: Level, n: int)
    ensures ContainingPeriod(level, Start(level, n) - 1) == PeriodAt(level, n - 1)
  {
    ContainingIsPeriodAt(level, Start(level, n) - 1);
    StepForward(level, n - 1);
    hide Start, Index, ContainingPeriod;
    IndexUnique(level, Start(level, n) - 1, n - 1);
  }

  // The historical range begins below the period this returns: its start is the
  // start of the recent window, so the two meet without gap or overlap.
  method HistoricalCutoff(level: Level, now: int, count: nat) returns (cursor: Period)
    ensures cursor == PeriodAt(level, Index(level, now) - count)
  {
    hide ContainingPeriod, Start, Index;
    cursor := ContainingPeriod(level, now);
    ContainingIsPeriodAt(level, now);
    for i := 0 to count
      invariant cursor == PeriodAt(level, Index(level, now) - i)
    {
      PreviousPeriodIsPrevious(level, Index(level, now) - i);
      cursor := ContainingPeriod(cursor.key.level, cursor.start - 1);
    }
  }

  // A moment before the current period of a level is either in the recent
  // window or before the historical cutoff, and never both.
  lemma RecentMeetsHistorical(level: Level, now: int, config: Config, at: int)
    requires Index(level, at) < Index(level, now)
    ensures at < Start(level, Index(level, now) - RecentCount(level, config))
       <==> PeriodAt(level, Index(level, at)) !in Recent(level, now, config)
  {
    hide Start, Index;
    var count := RecentCount(level, config);
    var first := Index(level, now) - count;
    IndexBefore(level, at, first);
    var recent := Recent(level, now, config);
    if first <= Index(level, at) {
      assert recent[Index(level, at) - first] == PeriodAt(level, Index(level, at));
    }
  }

  // ------------------------------------------------------------- children

  function ChildLevel(level: Level): Level
    requires level != Hour
  {
    match level
    case Day => Hour
    case Week => Day
    case Month => Week
    case Year => Month
  }

  function CursorStep(child: Level): int { if child == Hour then HOUR else DAY }

  // Child n has moments inside the parent's span.
  predicate Meets(child: Level, n: int, parent: Period) {
    Start(child, n) < parent.end && parent.start < Start(child, n + 1)
  }

  // On the grid of cursor positions: whole hours, or midnights.
  predicate Aligned(child: Level, at: int) {
    if child == Hour then at % HOUR == 0 else at % DAY == 0
  }

  lemma BoundaryIsAligned(level: Level, n: int, child: Level)
    requires level == child || (level != Hour && child == ChildLevel(level))
    ensures Aligned(child, Start(level, n))
  {
    hide MonthStart, YearStart;
    match level
    case Hour => assert (HOUR * n) % HOUR == 0;
    case Day => MidnightIsAligned(n);
    case Week => MidnightIsAligned(7 * n - 3);
    case Month => MidnightIsAligned(MonthStart(n));
    case Year => MidnightIsAligned(YearStart(n));
  }

  lemma MidnightIsAligned(day: int)
    ensures (DAY * day) % DAY == 0 && (DAY * day) % HOUR == 0
  {
    assert DAY * day == HOUR * (24 * day);
  }

  // The period containing an aligned cursor, and no other one that meets the
  // step from the cursor on, begins there or earlier.
  lemma OneChildPerStep(child: Level, cursor: int, n: int)
    requires Aligned(child, cursor)
    requires Start(child, n) < cursor + CursorStep(child) && cursor < Start(child, n + 1)
    ensures n == Index(child, cursor)
  {
    hide Start, Index, CursorStep, Aligned;
    BoundaryIsAligned(child, n, child);
    NoGridPointBetween(child, Start(child, n), cursor);
    IndexUnique(child, cursor, n);
  }

  lemma NoGridPointBetween(child: Level, a: int, b: int)
    requires Aligned(child, a) && Aligned(child, b) && a < b + CursorStep(child)
    ensures a <= b
  {
    hide Aligned, GridPoint;
    var j, k := GridPoint(child, a), GridPoint(child, b);
    assert j < k + 1;
  }

  // child_periods lists each child meeting the parent's span exactly once,
  // also a week that straddles a month end.
  method ChildPeriods(parent: Period) returns (child: Level, children: map<int, Period>)
    requires parent == PeriodAt(parent.key.level, parent.key.index) && parent.key.level != Hour
    ensures child == ChildLevel(parent.key.level)
    ensures match parent.key.level
            case Day => child == Hour
            case Week => child == Day
            case Month => child == Week
            case _ => child == Month
    ensures forall n :: n in children <==> Meets(child, n, parent)
    ensures forall n | n in children :: children[n] == PeriodAt(child, n)
  {
    hide Start, Index, ContainingPeriod, CursorStep, Aligned;
    child := ChildLevel(parent.key.level);
    children := map[];
    var cursor := parent.start;
    var step := CursorStep(child);
    BoundaryIsAligned(parent.key.level, parent.key.index, child);
    BoundaryIsAligned(parent.key.level, parent.key.index + 1, child);
    StepForward(parent.key.level, parent.key.index);
    assert 0 < step by { StepIsPositive(child); }
    while cursor < parent.end
      invariant parent.start <= cursor <= parent.end && Aligned(child, cursor)
      invariant cursor == parent.start ==> children == map[]
      invariant parent.start < cursor ==>
          forall n :: n in children <==> Start(child, n) < cursor && parent.start < Start(child, n + 1)
      invariant forall n | n in children :: children[n] == PeriodAt(child, n)
      decreases parent.end - cursor
    {
      var period := ContainingPeriod(child, cursor);
      ContainingIsPeriodAt(child, cursor);
      IndexContains(child, cursor);
      NewChild(child, parent.start, cursor);
      if period.key.index !in children {
        children := children[period.key.index := period];
      }
      StepsStayInside(child, cursor, parent.end);
      cursor := cursor + step;
    }
  }

  lemma StepIsPositive(child: Level)
    ensures 0 < CursorStep(child)
  {
  }

  lemma StepsStayInside(child: Level, cursor: int, end: int)
    requires cursor < end && Aligned(child, cursor) && Aligned(child, end)
    ensures cursor + CursorStep(child) <= end && Aligned(child, cursor + CursorStep(child))
  {
    hide Aligned, GridPoint;
    var a, b := GridPoint(child, cursor), GridPoint(child, end);
    assert a < b;
    OnGrid(child, a + 1);
  }

  // The number of an aligned moment on its grid.
  function GridPoint(child: Level, at: int): (k: int)
    requires Aligned(child, at)
    ensures at == if child == Hour then HOUR * k else DAY * k
  {
    if child == Hour then at / HOUR else at / DAY
  }

  lemma OnGrid(child: Level, k: int)
    ensures Aligned(child, if child == Hour then HOUR * k else DAY * k)
  {
    if child == Hour {
      assert (HOUR * k) % HOUR == 0;
    } else {
      MidnightIsAligned(k);
    }
  }

  // Moving the cursor one step adds the child containing the cursor, if new.
  lemma NewChild(child: Level, start: int, cursor: int)
    requires start <= cursor && Aligned(child, cursor)
    ensures forall n :: Start(child, n) < cursor + CursorStep(child) && start < Start(child, n + 1) <==>
                        (start < cursor && Start(child, n) < cursor && start < Start(child, n + 1))
                        || n == Index(child, cursor)
  {
    hide Start, Index, CursorStep, Aligned;
    StepIsPositive(child);
    IndexContains(child, cursor);
    forall n
      ensures Start(child, n) < cursor + CursorStep(child) && start < Start(child, n + 1) <==>
              (start < cursor && Start(child, n) < cursor && start < Start(child, n + 1)) || n == Index(child, cursor)
    {
      if Start(child, n) < cursor + CursorStep(child) && cursor < Start(child, n + 1) {
        OneChildPerStep(child, cursor, n);
      } else if Start(child, n) < cursor + CursorStep(child) && start < Start(child, n + 1) {
        StepForward(child, n);
        assert Start(child, n) < Start(child, n + 1) <= cursor;
      }
    }
  }
}
