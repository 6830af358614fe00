// Runs of the scheduler with a fixed clock and a generator that always
// succeeds close every historical gap, one or more per run.
module CatchUp {
  import opened Calendar
  import opened Chronicle
  import opened Scheduler

  // The historical periods of a level with a snapshot and no chronicle.
  ghost function LevelGaps(store: Store, level: Level, now: int, config: Config): set<Key> {
    set s | s in GapTimes(store, level, Cutoff(level, now, config)) :: Key(level, Index(level, s))
  }

  ghost function Gaps(store: Store, now: int, config: Config): set<Key> {
    LevelGaps(store, Hour, now, config) + LevelGaps(store, Day, now, config) + LevelGaps(store, Week, now, config)
    + LevelGaps(store, Month, now, config) + LevelGaps(store, Year, now, config)
  }

  // One attempt at each period in turn, every generation succeeding.
  ghost function Sweep(store: Store, periods: seq<Period>): Store {
    if periods == [] then store
    else
      var before := Sweep(store, periods[..|periods| - 1]);
      var key := periods[|periods| - 1].key;
      Land(before, key, Decide(before, key, Text))
  }

  ghost function RunOnce(store: Store, now: int, config: Config): Store {
    Sweep(store, Scheduled(store, now, config))
  }

  ghost predicate Succeeds(oracle: Key -> Generation) {
    forall key :: oracle(key) == Text
  }

  // RunOnce is what run_due_once does when nothing fails and nobody cancels.
  lemma {:induction false} RunOnceIsAfter(store: Store, periods: seq<Period>, oracle: Key -> Generation, cancelAt: nat)
    requires Succeeds(oracle) && |periods| <= cancelAt
    ensures After(store, periods, oracle, cancelAt).store == Sweep(store, periods)
    ensures !After(store, periods, oracle, cancelAt).ended
    decreases |periods|
  {
    hide Start, Index;
    if periods != [] {
      RunOnceIsAfter(store, periods[..|periods| - 1], oracle, cancelAt);
    }
  }

  // ------------------------------------------------------- sweeping grows

  ghost predicate Grown(store: Store, later: Store) {
    later.snapshots == store.snapshots && store.chronicles <= later.chronicles
  }

  lemma {:induction false} SweepGrows(store: Store, periods: seq<Period>)
    ensures Grown(store, Sweep(store, periods))
    decreases |periods|
  {
    hide Start, Index, Decide;
    if periods != [] {
      SweepGrows(store, periods[..|periods| - 1]);
    }
  }

  lemma {:induction false} SweepConcat(store: Store, a: seq<Period>, b: seq<Period>)
    ensures Sweep(store, a + b) == Sweep(Sweep(store, a), b)
    decreases |b|
  {
    hide Start, Index, Decide;
    if b == [] {
      assert a + b == a;
    } else {
      var last := |b| - 1;
      assert (a + b)[..|a + b| - 1] == a + b[..last];
      SweepConcat(store, a, b[..last]);
    }
  }

  // An attempt would leave a chronicle under the key.
  ghost predicate Ready(store: Store, key: Key) {
    Decide(store, key, Text) == Generated || Decide(store, key, Text) == AlreadyPresent
  }

  lemma ReadyStays(store: Store, later: Store, key: Key)
    requires Grown(store, later) && Ready(store, key)
    ensures Ready(later, key)
  {
    hide Start, Index;
    if key.level != Hour && key !in later.chronicles {
      var child := ChildLevel(key.level);
      var period := PeriodAt(key.level, key.index);
      assert HasChildChronicle(store, child, period);
      var n :| Meets(child, n, period) && Key(child, n) in store.chronicles;
      assert Key(child, n) in later.chronicles;
    }
  }

  lemma {:induction false} SweepHits(store: Store, periods: seq<Period>, i: nat)
    requires i < |periods| && Ready(store, periods[i].key)
    ensures periods[i].key in Sweep(store, periods).chronicles
    decreases |periods|
  {
    hide Start, Index, Decide;
    var last := |periods| - 1;
    var before := Sweep(store, periods[..last]);
    if i == last {
      SweepGrows(store, periods[..last]);
      ReadyStays(store, before, periods[i].key);
      LandedWhenReady(before, periods[i].key);
    } else {
      SweepHits(store, periods[..last], i);
    }
  }

  lemma LandedWhenReady(store: Store, key: Key)
    requires Ready(store, key)
    ensures key in Land(store, key, Decide(store, key, Text)).chronicles
  {
  }

  // ------------------------------------------------------ what is ready

  lemma HourIsReady(store: Store, s: int)
    requires s in store.snapshots
    ensures Ready(store, Key(Hour, Index(Hour, s)))
  {
    hide Start, Index;
    IndexContains(Hour, s);
  }

  // The snapshots of period n have been summarized in their children.
  ghost predicate ChildrenDone(store: Store, level: Level, n: int)
    requires level != Hour
  {
    forall s | s in store.snapshots && Index(level, s) == n ::
      Key(ChildLevel(level), Index(ChildLevel(level), s)) in store.chronicles
  }

  lemma RollupIsReady(store: Store, level: Level, s: int)
    requires level != Hour && s in store.snapshots && ChildrenDone(store, level, Index(level, s))
    ensures Ready(store, Key(level, Index(level, s)))
  {
    hide Start, Index;
    var n := Index(level, s);
    var child := ChildLevel(level);
    var period := PeriodAt(level, n);
    IndexContains(level, s);
    SnapshotMeets(child, s, period);
    assert HasChildChronicle(store, child, period);
    forall x | x in store.snapshots && period.start <= x < period.end
      ensures Key(child, Index(child, x)) in store.chronicles
    {
      IndexUnique(level, x, n);
    }
    assert !HasUnsummarized(store, child, period.start, period.end);
  }

  lemma ChildrenStayDone(store: Store, later: Store, level: Level, n: int)
    requires level != Hour && Grown(store, later) && ChildrenDone(store, level, n)
    ensures ChildrenDone(later, level, n)
  {
    hide Start, Index;
  }

  // Every snapshot of the level's finished periods has its chronicle.
  ghost predicate Covered(store: Store, level: Level, now: int) {
    forall s | s in store.snapshots && Index(level, s) < Index(level, now) ::
        Key(level, Index(level, s)) in store.chronicles
  }

  ghost predicate NoGaps(store: Store, level: Level, now: int, config: Config) {
    GapTimes(store, level, Cutoff(level, now, config)) == {}
  }

  // With no historical gap left, sweeping the recent window covers the level.
  lemma RecentSweepCovers(store: Store, level: Level, now: int, config: Config)
    requires NoGaps(store, level, now, config)
    requires level != Hour ==> forall n | n < Index(level, now) :: ChildrenDone(store, level, n)
    ensures Covered(Sweep(store, Recent(level, now, config)), level, now)
  {
    hide Start, Index, Decide;
    var recent := Recent(level, now, config);
    var swept := Sweep(store, recent);
    SweepGrows(store, recent);
    forall s | s in swept.snapshots && Index(level, s) < Index(level, now)
      ensures Key(level, Index(level, s)) in swept.chronicles
    {
      var first := Index(level, now) - RecentCount(level, config);
      IndexBefore(level, s, first);
      if Index(level, s) < first {
        assert s !in GapTimes(store, level, Cutoff(level, now, config));
      } else {
        if level == Hour {
          HourIsReady(store, s);
        } else {
          RollupIsReady(store, level, s);
        }
        var i := Index(level, s) - first;
        assert recent[i] == PeriodAt(level, Index(level, s));
        SweepHits(store, recent, i);
      }
    }
  }

  // A finished day has only finished hours, a finished week only finished days.
  lemma FinishedChildren(level: Level, s: int, now: int)
    requires level == Day || level == Week
    requires Index(level, s) < Index(level, now)
    ensures Index(ChildLevel(level), s) < Index(ChildLevel(level), now)
  {
    var n := Index(level, now);
    var child := ChildLevel(level);
    var m := if level == Day then 24 * n else 7 * n - 3;
    SharedBoundary(level, n);
    hide Start, Index;
    IndexBefore(level, s, n);
    IndexContains(level, now);
    IndexBefore(child, s, m);
    IndexBefore(child, now, m);
  }

  lemma SharedBoundary(level: Level, n: int)
    requires level == Day || level == Week
    ensures Start(level, n) == Start(ChildLevel(level), if level == Day then 24 * n else 7 * n - 3)
  {
  }

  lemma CoveredChildrenDone(store: Store, level: Level, now: int)
    requires (level == Day || level == Week) && Covered(store, ChildLevel(level), now)
    ensures forall n | n < Index(level, now) :: ChildrenDone(store, level, n)
  {
    hide Start, Index;
    forall s | s in store.snapshots && Index(level, s) < Index(level, now)
      ensures Key(ChildLevel(level), Index(ChildLevel(level), s)) in store.chronicles
    {
      FinishedChildren(level, s, now);
    }
  }

  lemma WeekLength(n: int)
    ensures Start(Week, n + 1) == Start(Week, n) + 7 * DAY
  {
    hide MonthStart, YearStart;
  }

  // A month with a whole month between it and the current one has only
  // finished weeks, the straddling ones included.
  lemma OldMonthHasFinishedWeeks(n: int, s: int, now: int)
    requires Index(Month, s) == n && n + 1 < Index(Month, now)
    ensures Index(Week, s) < Index(Week, now)
  {
    hide Start, Index;
    var week := Index(Week, s);
    WeekLength(week);
    IndexContains(Month, s);
    IndexContains(Week, s);
    StepForward(Month, n + 1);
    StartIncreases(Month, n + 2, Index(Month, now));
    IndexContains(Month, now);
    assert Start(Week, week + 1) <= now;
    IndexBefore(Week, now, week + 1);
  }

  // A year with a whole year between it and the current one ends before the
  // historical range of months does.
  lemma OldYearHasHistoricalMonths(n: int, s: int, now: int, config: Config)
    requires Index(Year, s) == n && n + 1 < Index(Year, now)
    ensures s < Cutoff(Month, now, config)
  {
    hide Start, Index;
    var y := Index(Year, now);
    IndexContains(Year, s);
    IndexContains(Year, now);
    YearIsTwelveMonths(n + 1);
    YearIsTwelveMonths(y);
    IndexBefore(Month, now, 12 * y);
    StartIncreases(Month, 12 * (n + 1), Index(Month, now) - RecentCount(Month, config));
  }

  // ------------------------------------------------------------ progress

  ghost predicate AllLanesOpen(config: Config) {
    forall level: Level :: RecentCount(level, config) >= 1
  }

  lemma GapIsOld(store: Store, level: Level, now: int, config: Config, s: int)
    requires s in GapTimes(store, level, Cutoff(level, now, config))
    ensures Index(level, s) < Index(level, now) - RecentCount(level, config)
  {
    hide Start, Index;
    IndexBefore(level, s, Index(level, now) - RecentCount(level, config));
  }

  // The newest gap of an open lane is scheduled.
  lemma LaneIsScheduled(store: Store, level: Level, now: int, config: Config) returns (i: nat)
    requires RecentCount(level, config) >= 1 && !NoGaps(store, level, now, config)
    ensures i < |Lanes(store, ALL, now, config)|
    ensures Lanes(store, ALL, now, config)[i] ==
            PeriodAt(level, Index(level, Newest(GapTimes(store, level, Cutoff(level, now, config)))))
  {
    hide Start, Index;
    var j := match level case Hour => 0 case Day => 1 case Week => 2 case Month => 3 case Year => 4;
    assert Lane(store, level, now, config) ==
           [PeriodAt(level, Index(level, Newest(GapTimes(store, level, Cutoff(level, now, config)))))];
    i := LaneInLanes(store, ALL, j, now, config);
  }

  lemma {:induction false} LaneInLanes(store: Store, levels: seq<Level>, j: nat, now: int, config: Config)
    returns (i: nat)
    requires j < |levels| && |Lane(store, levels[j], now, config)| == 1
    ensures i < |Lanes(store, levels, now, config)|
    ensures Lanes(store, levels, now, config)[i] == Lane(store, levels[j], now, config)[0]
    decreases |levels|
  {
    hide Start, Index, Lane;
    var last := |levels| - 1;
    if j == last {
      i := |Lanes(store, levels[..last], now, config)|;
    } else {
      i := LaneInLanes(store, levels[..last], j, now, config);
    }
  }

  // The chronicle that a run is sure to add: the newest gap of the lowest level
  // that has one.
  ghost function LowestGapLevel(store: Store, now: int, config: Config): Level {
    if !NoGaps(store, Hour, now, config) then Hour
    else if !NoGaps(store, Day, now, config) then Day
    else if !NoGaps(store, Week, now, config) then Week
    else if !NoGaps(store, Month, now, config) then Month
    else Year
  }

  // When the run reaches the historical lanes, the newest gap of the lowest
  // level with one has all its children summarized.
  lemma LowestGapIsReady(store: Store, now: int, config: Config, s: int)
    requires AllLanesOpen(config)
    requires s in GapTimes(store, LowestGapLevel(store, now, config),
                           Cutoff(LowestGapLevel(store, now, config), now, config))
    ensures var level := LowestGapLevel(store, now, config);
            Ready(Sweep(store, Due(now, config)), Key(level, Index(level, s)))
  {
    hide Start, Index, Decide, Recent, Sweep, Ready, GapTimes, Cutoff;
    var hours, days, weeks := Recent(Hour, now, config), Recent(Day, now, config), Recent(Week, now, config);
    var later := Recent(Month, now, config) + Recent(Year, now, config);
    var level := LowestGapLevel(store, now, config);
    var store1, store2, store3 := Sweep(store, hours), Sweep(store, hours + days), Sweep(store, hours + days + weeks);
    var end := Sweep(store, Due(now, config));
    DueInParts(store, now, config);
    GapIsOld(store, level, now, config, s);
    GapIsStored(store, level, now, config, s);
    OpenLane(config, level);
    if level == Hour {
      HourIsReady(store, s);
      ReadyStays(store, end, Key(Hour, Index(Hour, s)));
      return;
    }
    if level == Year {
      MonthsOfOldYearDone(store, now, config, Index(Year, s));
      RollupIsReady(store, Year, s);
      ReadyStays(store, end, Key(Year, Index(Year, s)));
      return;
    }
    RecentSweepCovers(store, Hour, now, config);
    CoveredChildrenDone(store1, Day, now);
    if level == Day {
      RollupIsReady(store1, Day, s);
      ReadyStays(store1, end, Key(Day, Index(Day, s)));
      return;
    }
    NoGapsStay(store, store1, Day, now, config);
    RecentSweepCovers(store1, Day, now, config);
    CoveredChildrenDone(store2, Week, now);
    if level == Week {
      RollupIsReady(store2, Week, s);
      ReadyStays(store2, end, Key(Week, Index(Week, s)));
      return;
    }
    NoGapsStay(store, store2, Week, now, config);
    RecentSweepCovers(store2, Week, now, config);
    WeeksOfOldMonthDone(store3, now, Index(Month, s));
    RollupIsReady(store3, Month, s);
    ReadyStays(store3, end, Key(Month, Index(Month, s)));
  }

  lemma GapIsStored(store: Store, level: Level, now: int, config: Config, s: int)
    requires s in GapTimes(store, level, Cutoff(level, now, config))
    ensures s in store.snapshots
  {
  }

  lemma OpenLane(config: Config, level: Level)
    requires AllLanesOpen(config)
    ensures RecentCount(level, config) >= 1
  {
  }

  lemma NoGapsStay(store: Store, later: Store, level: Level, now: int, config: Config)
    requires Grown(store, later) && NoGaps(store, level, now, config)
    ensures NoGaps(later, level, now, config)
  {
    hide Start, Index;
    assert GapTimes(later, level, Cutoff(level, now, config)) <= GapTimes(store, level, Cutoff(level, now, config));
  }

  lemma DueInParts(store: Store, now: int, config: Config)
    ensures var hours, days, weeks := Recent(Hour, now, config), Recent(Day, now, config), Recent(Week, now, config);
            && Sweep(store, hours + days) == Sweep(Sweep(store, hours), days)
            && Sweep(store, hours + days + weeks) == Sweep(Sweep(store, hours + days), weeks)
            && Grown(store, Sweep(store, hours))
            && Grown(store, Sweep(store, hours + days))
            && Grown(store, Sweep(store, hours + days + weeks))
            && Grown(store, Sweep(store, Due(now, config)))
            && Grown(Sweep(store, hours), Sweep(store, Due(now, config)))
            && Grown(Sweep(store, hours + days), Sweep(store, Due(now, config)))
            && Grown(Sweep(store, hours + days + weeks), Sweep(store, Due(now, config)))
  {
    hide Start, Index, Decide, Recent, Sweep;
    var hours, days, weeks := Recent(Hour, now, config), Recent(Day, now, config), Recent(Week, now, config);
    var later := Recent(Month, now, config) + Recent(Year, now, config);
    assert Due(now, config) == hours + days + weeks + later;
    SweepConcat(store, hours, days);
    SweepConcat(store, hours + days, weeks);
    SweepConcat(store, hours + days + weeks, later);
    SweepGrows(store, hours);
    SweepGrows(Sweep(store, hours), days);
    SweepGrows(Sweep(store, hours + days), weeks);
    SweepGrows(Sweep(store, hours + days + weeks), later);
  }

  lemma WeeksOfOldMonthDone(store: Store, now: int, n: int)
    requires Covered(store, Week, now) && n + 1 < Index(Month, now)
    ensures ChildrenDone(store, Month, n)
  {
    hide Start, Index;
    forall s | s in store.snapshots && Index(Month, s) == n ensures Key(Week, Index(Week, s)) in store.chronicles {
      OldMonthHasFinishedWeeks(n, s, now);
    }
  }

  lemma MonthsOfOldYearDone(store: Store, now: int, config: Config, n: int)
    requires NoGaps(store, Month, now, config) && n + 1 < Index(Year, now)
    ensures ChildrenDone(store, Year, n)
  {
    hide Start, Index, Cutoff;
    forall s | s in store.snapshots && Index(Year, s) == n ensures Key(Month, Index(Month, s)) in store.chronicles {
      OldYearHasHistoricalMonths(n, s, now, config);
      assert s !in GapTimes(store, Month, Cutoff(Month, now, config));
    }
  }

  lemma GapsOfLevels(store: Store, now: int, config: Config)
    ensures Gaps(store, now, config) != {} ==> !NoGaps(store, LowestGapLevel(store, now, config), now, config)
  {
    hide Start, Index, GapTimes, Cutoff;
  }

  lemma GapTimeIsGap(store: Store, level: Level, now: int, config: Config, s: int)
    requires s in GapTimes(store, level, Cutoff(level, now, config))
    ensures Key(level, Index(level, s)) in Gaps(store, now, config)
  {
    hide Start, Index, GapTimes, Cutoff;
    assert Key(level, Index(level, s)) in LevelGaps(store, level, now, config);
  }

  lemma GapsShrink(store: Store, later: Store, now: int, config: Config)
    requires Grown(store, later)
    ensures Gaps(later, now, config) <= Gaps(store, now, config)
    ensures Gaps(later, now, config) !! later.chronicles
  {
    hide Start, Index, Cutoff;
  }

  // Each run strictly lowers the number of historical gaps until there is none.
  lemma RunLowersGaps(store: Store, now: int, config: Config)
    requires AllLanesOpen(config)
    ensures var left := Gaps(RunOnce(store, now, config), now, config);
            && left <= Gaps(store, now, config)
            && (Gaps(store, now, config) != {} ==> |left| < |Gaps(store, now, config)|)
  {
    hide Start, Index, Decide, Sweep, Ready, GapTimes, Cutoff, Lanes, Gaps, Due;
    var end := RunOnce(store, now, config);
    SweepGrows(store, Scheduled(store, now, config));
    GapsShrink(store, end, now, config);
    GapsOfLevels(store, now, config);
    if Gaps(store, now, config) != {} {
      var level := LowestGapLevel(store, now, config);
      OpenLane(config, level);
      var s := Newest(GapTimes(store, level, Cutoff(level, now, config)));
      var key := Key(level, Index(level, s));
      var i := LaneIsScheduled(store, level, now, config);
      LowestGapIsReady(store, now, config, s);
      GapTimeIsGap(store, level, now, config, s);
      SweepConcat(store, Due(now, config), Lanes(store, ALL, now, config));
      SweepHits(Sweep(store, Due(now, config)), Lanes(store, ALL, now, config), i);
      assert key in end.chronicles && key in Gaps(store, now, config);
      SmallerWithout(Gaps(end, now, config), Gaps(store, now, config), key);
    }
  }

  lemma SmallerWithout(a: set<Key>, b: set<Key>, key: Key)
    requires a <= b && key in b && key !in a
    ensures |a| < |b|
  {
    assert a <= b - {key};
    NotLarger(a, b - {key});
  }

  lemma {:induction false} NotLarger(a: set<Key>, b: set<Key>)
    requires a <= b
    ensures |a| <= |b|
    decreases |a|
  {
    if a != {} {
      var k :| k in a;
      NotLarger(a - {k}, b - {k});
    }
  }

  ghost function RunTimes(store: Store, now: int, config: Config, runs: nat): Store
    decreases runs
  {
    if runs == 0 then store else RunTimes(RunOnce(store, now, config), now, config, runs - 1)
  }

  // So after as many runs as there were gaps, the history is complete.
  lemma {:induction false} RunsCatchUp(store: Store, now: int, config: Config, runs: nat)
    requires AllLanesOpen(config) && |Gaps(store, now, config)| <= runs
    ensures Gaps(RunTimes(store, now, config, runs), now, config) == {}
    decreases runs
  {
    hide Gaps, RunOnce;
    RunLowersGaps(store, now, config);
    if runs > 0 {
      RunsCatchUp(RunOnce(store, now, config), now, config, runs - 1);
    }
  }

  // ---------------------------------------------- and when it does not hold

  lemma {:induction false} AfterAddsOnlyScheduled(store: Store, periods: seq<Period>, oracle: Key -> Generation,
                                                  cancelAt: nat, key: Key)
    requires forall i | 0 <= i < |periods| :: periods[i].key != key
    ensures key in After(store, periods, oracle, cancelAt).store.chronicles <==> key in store.chronicles
    decreases |periods|
  {
    hide Start, Index, Decide;
    if periods != [] {
      AfterAddsOnlyScheduled(store, periods[..|periods| - 1], oracle, cancelAt, key);
    }
  }

  lemma {:induction false} ClosedLanesScheduleNothing(store: Store, levels: seq<Level>, level: Level, now: int,
                                                      config: Config)
    requires RecentCount(level, config) == 0
    ensures forall i | 0 <= i < |Lanes(store, levels, now, config)| ::
            Lanes(store, levels, now, config)[i].key.level != level
    decreases |levels|
  {
    hide Start, Index, GapTimes;
    if levels != [] {
      ClosedLanesScheduleNothing(store, levels[..|levels| - 1], level, now, config);
    }
  }

  // A backfill count of zero closes its lane for good: no run, however its
  // generations end, removes a gap of that level. So every store catches up if
  // and only if all five counts are at least one.
  lemma ClosedLaneKeepsGaps(store: Store, level: Level, now: int, config: Config, oracle: Key -> Generation,
                            cancelAt: nat)
    requires RecentCount(level, config) == 0
    ensures LevelGaps(After(store, Scheduled(store, now, config), oracle, cancelAt).store, level, now, config)
         == LevelGaps(store, level, now, config)
  {
    hide Start, Index, Decide, After, Lanes, Cutoff;
    ClosedLanesScheduleNothing(store, ALL, level, now, config);
    var scheduled := Scheduled(store, now, config);
    assert forall i | 0 <= i < |scheduled| :: scheduled[i].key.level != level;
    var end := After(store, scheduled, oracle, cancelAt).store;
    forall n ensures Key(level, n) in end.chronicles <==> Key(level, n) in store.chronicles {
      AfterAddsOnlyScheduled(store, scheduled, oracle, cancelAt, Key(level, n));
    }
    AfterKeepsSnapshots(store, scheduled, oracle, cancelAt);
    assert GapTimes(end, level, Cutoff(level, now, config)) == GapTimes(store, level, Cutoff(level, now, config));
  }

  lemma {:induction false} AfterKeepsSnapshots(store: Store, periods: seq<Period>, oracle: Key -> Generation,
                                               cancelAt: nat)
    ensures After(store, periods, oracle, cancelAt).store.snapshots == store.snapshots
    decreases |periods|
  {
    hide Start, Index, Decide;
    if periods != [] {
      AfterKeepsSnapshots(store, periods[..|periods| - 1], oracle, cancelAt);
    }
  }

  lemma {:induction false} ClosedLaneNeverCatchesUp(store: Store, level: Level, now: int, config: Config, runs: nat)
    requires RecentCount(level, config) == 0
    ensures LevelGaps(RunTimes(store, now, config, runs), level, now, config) == LevelGaps(store, level, now, config)
    decreases runs
  {
    hide LevelGaps, Scheduled, Sweep, After;
    if runs > 0 {
      var scheduled := Scheduled(store, now, config);
      var oracle := (key: Key) => Text;
      RunOnceIsAfter(store, scheduled, oracle, |scheduled|);
      ClosedLaneKeepsGaps(store, level, now, config, oracle, |scheduled|);
      ClosedLaneNeverCatchesUp(RunOnce(store, now, config), level, now, config, runs - 1);
    }
  }

  // ------------------------------------------------------ sealed rollups

  // No rollup was inserted before all of its span had been summarized.
  ghost predicate Sealed(store: Store) {
    forall key | key in store.chronicles && key.level != Hour :: ChildrenDone(store, key.level, key.index)
  }

  lemma LandKeepsSealed(store: Store, key: Key, generation: Generation)
    requires Sealed(store)
    ensures Sealed(Land(store, key, Decide(store, key, generation)))
  {
    hide Start, Index;
    var later := Land(store, key, Decide(store, key, generation));
    forall k | k in later.chronicles && k.level != Hour ensures ChildrenDone(later, k.level, k.index) {
      if k in store.chronicles {
        ChildrenStayDone(store, later, k.level, k.index);
      } else {
        forall s | s in store.snapshots && Index(k.level, s) == k.index
          ensures Key(ChildLevel(k.level), Index(ChildLevel(k.level), s)) in later.chronicles
        {
          IndexContains(k.level, s);
        }
      }
    }
  }

  // However generations end and whenever the token is cancelled, runs over a
  // fixed set of snapshots never seal a partial rollup.
  lemma {:induction false} RunsKeepSealed(store: Store, periods: seq<Period>, oracle: Key -> Generation, cancelAt: nat)
    requires Sealed(store)
    ensures Sealed(After(store, periods, oracle, cancelAt).store)
    decreases |periods|
  {
    hide Start, Index, Decide;
    if periods != [] {
      var last := |periods| - 1;
      RunsKeepSealed(store, periods[..last], oracle, cancelAt);
      LandKeepsSealed(After(store, periods[..last], oracle, cancelAt).store, periods[last].key,
                      oracle(periods[last].key));
    }
  }
}
