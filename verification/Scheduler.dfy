// One catch-up run of the memory scheduler over the stored snapshots and
// chronicles: what each period attempt does, and that the runs converge. An attempt
// is one step here.
module Scheduler {
  import opened Wrappers
  import opened Calendar
  import opened Chronicle

  // Snapshots by capture time; chronicles by key.
  datatype Store = Store(snapshots: set<int>, chronicles: set<Key>)

  // How the generation of one period ends: usable text, output that violates
  // the memory contract, a data epoch that moved before the commit, a cancelled
  // token, or a key that was refused.
  datatype Generation = Text | Unusable | EpochMoved | TokenCancelled | KeyRefused

  datatype Outcome = Generated | AlreadyPresent | Empty | Deferred | Retry | Failed | Cancelled | KeyUnavailable

  datatype Report = Report(
    considered: nat, generated: nat, alreadyPresent: nat, empty: nat, failed: nat, cancelled: bool,
    keyUnavailable: bool)

  const NO_REPORT := Report(0, 0, 0, 0, 0, false, false)

  function OutcomeOf(generation: Generation): Outcome {
    match generation
    case Text => Generated
    case Unusable => Failed
    case EpochMoved => Retry
    case TokenCancelled => Cancelled
    case KeyRefused => KeyUnavailable
  }

  predicate HasSnapshots(snapshots: set<int>, from: int, to: int) {
    exists s :: s in snapshots && from <= s < to
  }

  // Some snapshot of the span lies in a child period that has no chronicle.
  ghost predicate HasUnsummarized(store: Store, child: Level, from: int, to: int) {
    exists s :: s in store.snapshots && from <= s < to && Key(child, Index(child, s)) !in store.chronicles
  }

  ghost predicate HasChildChronicle(store: Store, child: Level, parent: Period) {
    exists n :: Meets(child, n, parent) && Key(child, n) in store.chronicles
  }

  // What an attempt at a period decides, given how its generation would end.
  ghost function Decide(store: Store, key: Key, generation: Generation): Outcome {
    var period := PeriodAt(key.level, key.index);
    if key in store.chronicles then AlreadyPresent
    else if key.level == Hour then
      if HasSnapshots(store.snapshots, period.start, period.end) then OutcomeOf(generation) else Empty
    else if HasUnsummarized(store, ChildLevel(key.level), period.start, period.end) then Deferred
    else if HasChildChronicle(store, ChildLevel(key.level), period) then OutcomeOf(generation)
    else Empty
  }

  ghost function Land(store: Store, key: Key, outcome: Outcome): Store {
    if outcome == Generated then store.(chronicles := store.chronicles + {key}) else store
  }

  function Count(report: Report, outcome: Outcome): Report {
    var counted := report.(considered := report.considered + 1);
    match outcome
    case Generated => counted.(generated := report.generated + 1)
    case AlreadyPresent => counted.(alreadyPresent := report.alreadyPresent + 1)
    case Empty | Deferred | Retry => counted.(empty := report.empty + 1)
    case Failed => counted.(failed := report.failed + 1)
    case Cancelled => counted.(cancelled := true)
    case KeyUnavailable => counted.(keyUnavailable := true)
  }

  predicate EndsRun(outcome: Outcome) {
    outcome == Retry || outcome == Cancelled || outcome == KeyUnavailable
  }

  datatype RunState = RunState(store: Store, report: Report, ended: bool)

  // The state after the scheduled periods, when the token is first seen
  // cancelled before period number `cancelAt`.
  ghost function After(store: Store, scheduled: seq<Period>, oracle: Key -> Generation, cancelAt: nat): RunState
    decreases |scheduled|
  {
    if scheduled == [] then RunState(store, NO_REPORT, false)
    else
      var last := |scheduled| - 1;
      var before := After(store, scheduled[..last], oracle, cancelAt);
      if before.ended then before
      else if last == cancelAt then RunState(before.store, before.report.(cancelled := true), true)
      else
        var key := scheduled[last].key;
        var outcome := Decide(before.store, key, oracle(key));
        RunState(Land(before.store, key, outcome), Count(before.report, outcome), EndsRun(outcome))
  }

  // ------------------------------------------------ the historical lanes

  function GapTimes(store: Store, level: Level, cutoff: int): set<int> {
    set s | s in store.snapshots && s < cutoff && Key(level, Index(level, s)) !in store.chronicles
  }

  predicate IsNewest(s: set<int>, m: int) { m in s && forall x | x in s :: x <= m }

  lemma {:induction false} HasNewest(s: set<int>)
    requires s != {}
    ensures exists m :: IsNewest(s, m)
    decreases |s|
  {
    var x := HasElement(s);
    if s - {x} == {} {
      assert s == {x};
      assert IsNewest(s, x);
    } else {
      HasNewest(s - {x});
      var m :| IsNewest(s - {x}, m);
      var top := if x < m then m else x;
      forall y | y in s ensures y <= top {
        if y != x {
          assert y in s - {x};
        }
      }
      assert IsNewest(s, top);
    }
  }

  // ORDER BY captured_at DESC LIMIT 1
  function Newest(s: set<int>): (m: int)
    requires s != {}
    ensures IsNewest(s, m)
  {
    HasNewest(s);
    var m :| m in s && IsNewest(s, m);
    m
  }

  const ALL: seq<Level> := [Hour, Day, Week, Month, Year]

  function Cutoff(level: Level, now: int, config: Config): int {
    Start(level, Index(level, now) - RecentCount(level, config))
  }

  function Lane(store: Store, level: Level, now: int, config: Config): seq<Period> {
    if RecentCount(level, config) == 0 then []
    else
      var gaps := GapTimes(store, level, Cutoff(level, now, config));
      if gaps == {} then [] else [PeriodAt(level, Index(level, Newest(gaps)))]
  }

  function Lanes(store: Store, levels: seq<Level>, now: int, config: Config): seq<Period> {
    if levels == [] then []
    else Lanes(store, levels[..|levels| - 1], now, config) + Lane(store, levels[|levels| - 1], now, config)
  }

  function Scheduled(store: Store, now: int, config: Config): seq<Period> {
    Due(now, config) + Lanes(store, ALL, now, config)
  }

  // A snapshot of a span lies in a child that meets the span.
  lemma SnapshotMeets(child: Level, s: int, parent: Period)
    requires parent.start <= s < parent.end
    ensures Meets(child, Index(child, s), parent)
  {
    hide Start, Index;
    IndexContains(child, s);
  }

  lemma SnapshotIsUnsummarized(store: Store, child: Level, n: int, parent: Period, from: int, to: int)
    requires Key(child, n) !in store.chronicles && HasSnapshots(store.snapshots, from, to)
    requires parent.start <= from && to <= parent.end && Start(child, n) <= from && to <= Start(child, n + 1)
    ensures HasUnsummarized(store, child, parent.start, parent.end)
  {
    hide Start, Index;
    var s :| s in store.snapshots && from <= s < to;
    IndexUnique(child, s, n);
  }

  lemma DecideRollup(store: Store, key: Key, generation: Generation)
    requires key.level != Hour
    ensures var period, child := PeriodAt(key.level, key.index), ChildLevel(key.level);
            Decide(store, key, generation) ==
            if key in store.chronicles then AlreadyPresent
            else if HasUnsummarized(store, child, period.start, period.end) then Deferred
            else if HasChildChronicle(store, child, period) then OutcomeOf(generation)
            else Empty
  {
    hide HasUnsummarized, HasChildChronicle, PeriodAt;
  }

  lemma ChildChronicles(store: Store, child: Level, period: Period, available: set<int>)
    requires forall n :: n in available <==> Meets(child, n, period) && Key(child, n) in store.chronicles
    ensures available == {} <==> !HasChildChronicle(store, child, period)
  {
    hide Meets;
    if available != {} {
      var n := HasElement(available);
    }
  }

  lemma AllSummarized(store: Store, child: Level, period: Period)
    requires !HasUnsummarized(store, child, period.start, period.end)
    ensures forall s | s in store.snapshots && period.start <= s < period.end ::
            Key(child, Index(child, s)) in store.chronicles
  {
  }

  class MemoryScheduler {
    var snapshots: set<int>
    var chronicles: set<Key>
    const config: Config

    constructor (config: Config)
      ensures this.config == config && Stored() == Store({}, {})
    {
      this.config := config;
      snapshots, chronicles := {}, {};
    }

    function Stored(): Store
      reads this
    {
      Store(snapshots, chronicles)
    }

    method GenerateHour(period: Period, generation: Generation) returns (outcome: Outcome)
      requires period == PeriodAt(Hour, period.key.index)
      modifies this`chronicles
      ensures outcome == Decide(old(Stored()), period.key, generation)
      ensures Stored() == Land(old(Stored()), period.key, outcome)
    {
      if period.key in chronicles {
        return AlreadyPresent;
      }
      if !HasSnapshots(snapshots, period.start, period.end) {
        return Empty;
      }
      outcome := OutcomeOf(generation);
      if outcome == Generated {
        chronicles := chronicles + {period.key};
      }
    }

    method GenerateRollup(period: Period, generation: Generation) returns (outcome: Outcome)
      requires period == PeriodAt(period.key.level, period.key.index) && period.key.level != Hour
      modifies this`chronicles
      ensures outcome == Decide(old(Stored()), period.key, generation)
      ensures Stored() == Land(old(Stored()), period.key, outcome)
      // Every snapshot of an inserted rollup had been summarized in its child, in a store
      // that nothing else changes meanwhile; RollupAttempts says what becomes of this
      // when captures and deletions act between the steps of an attempt.
      ensures outcome == Generated ==>
        forall s | s in snapshots && period.start <= s < period.end ::
          Key(ChildLevel(period.key.level), Index(ChildLevel(period.key.level), s)) in old(chronicles)
    {
      DecideRollup(Stored(), period.key, generation);
      hide Start, Index, Decide, HasUnsummarized, HasChildChronicle, OutcomeOf;
      if period.key in chronicles {
        return AlreadyPresent;
      }
      var childLevel, children := ChildPeriods(period);
      var available := set n | n in children && Key(childLevel, n) in chronicles;
      var partial := FindUnsummarized(period, childLevel, children, available);
      if partial {
        return Deferred;
      }
      ChildChronicles(Stored(), childLevel, period, available);
      if available == {} {
        return Empty;
      }
      outcome := OutcomeOf(generation);
      if outcome == Generated {
        AllSummarized(Stored(), childLevel, period);
        chronicles := chronicles + {period.key};
      }
    }

    // Looks for a child without a chronicle that has snapshots inside the span.
    method FindUnsummarized(period: Period, child: Level, children: map<int, Period>, available: set<int>)
      returns (found: bool)
      requires forall n :: n in children <==> Meets(child, n, period)
      requires forall n | n in children :: children[n] == PeriodAt(child, n)
      requires forall n :: n in available <==> n in children && Key(child, n) in chronicles
      ensures found <==> HasUnsummarized(Stored(), child, period.start, period.end)
    {
      hide Start, Index;
      var todo := children.Keys;
      while todo != {}
        invariant todo <= children.Keys
        invariant forall n | n in children && n !in todo && n !in available ::
            forall s | s in snapshots && period.start <= s < period.end :: Index(child, s) != n
      {
        ghost var some := HasElement(todo);
        var n :| n in todo;
        if n !in available {
          var from := if children[n].start < period.start then period.start else children[n].start;
          var to := if period.end < children[n].end then period.end else children[n].end;
          if HasSnapshots(snapshots, from, to) {
            SnapshotIsUnsummarized(Stored(), child, n, period, from, to);
            return true;
          }
          forall s | s in snapshots && period.start <= s < period.end ensures Index(child, s) != n {
            IndexContains(child, s);
          }
        }
        todo := todo - {n};
      }
      forall s | s in snapshots && period.start <= s < period.end
        ensures Key(child, Index(child, s)) in chronicles
      {
        SnapshotMeets(child, s, period);
      }
      found := false;
    }

    method HistoricalPeriods(now: int) returns (periods: seq<Period>)
      ensures periods == Lanes(Stored(), ALL, now, config)
    {
      hide Start, Index, ContainingPeriod;
      periods := [];
      for i := 0 to |ALL|
        invariant periods == Lanes(Stored(), ALL[..i], now, config)
      {
        assert ALL[..i + 1][..i] == ALL[..i];
        var level := ALL[i];
        var recentCount := RecentCount(level, config);
        if recentCount != 0 {
          var cutoff := HistoricalCutoff(level, now, recentCount);
          var gaps := GapTimes(Stored(), level, cutoff.start);
          if gaps != {} {
            ContainingIsPeriodAt(level, Newest(gaps));
            periods := periods + [ContainingPeriod(level, Newest(gaps))];
          }
        }
      }
      assert ALL[..|ALL|] == ALL;
    }

    // The run after the gate has admitted it and the key has been resolved.
    method RunDueOnce(now: int, oracle: Key -> Generation, cancelAt: nat) returns (report: Report)
      modifies this`chronicles
      ensures var end := After(old(Stored()), Scheduled(old(Stored()), now, config), oracle, cancelAt);
              Stored() == end.store && report == end.report
    {
      hide Start, Index, ContainingPeriod, Decide, Land, Count, After, EndsRun, Due, Lanes;
      NothingAttempted(Stored(), oracle, cancelAt);
      var due := DuePeriods(now, config);
      var historical := HistoricalPeriods(now);
      var scheduled := due + historical;
      ScheduledArePeriods(Stored(), now, config);
      report := NO_REPORT;
      var i := 0;
      while i < |scheduled|
        invariant 0 <= i <= |scheduled|
        invariant snapshots == old(snapshots)
        invariant After(old(Stored()), scheduled[..i], oracle, cancelAt) == RunState(Stored(), report, false)
      {
        AfterStep(old(Stored()), scheduled, i, oracle, cancelAt);
        if i == cancelAt {
          report := report.(cancelled := true);
          AfterEnd(old(Stored()), scheduled, i + 1, oracle, cancelAt);
          return;
        }
        var period := scheduled[i];
        var outcome;
        if period.key.level == Hour {
          outcome := GenerateHour(period, oracle(period.key));
        } else {
          outcome := GenerateRollup(period, oracle(period.key));
        }
        report := Count(report, outcome);
        i := i + 1;
        if EndsRun(outcome) {
          AfterEnd(old(Stored()), scheduled, i, oracle, cancelAt);
          return;
        }
      }
      assert scheduled[..i] == scheduled;
    }
  }

  lemma AfterOne(store: Store, scheduled: seq<Period>, i: nat, oracle: Key -> Generation, cancelAt: nat)
    requires i < |scheduled|
    ensures scheduled[..i + 1][..i] == scheduled[..i] && scheduled[..i + 1][i] == scheduled[i]
  {
  }

  lemma NothingAttempted(store: Store, oracle: Key -> Generation, cancelAt: nat)
    ensures After(store, [], oracle, cancelAt) == RunState(store, NO_REPORT, false)
  {
  }

  // One attempt more.
  lemma AfterStep(store: Store, scheduled: seq<Period>, i: nat, oracle: Key -> Generation, cancelAt: nat)
    requires i < |scheduled| && !After(store, scheduled[..i], oracle, cancelAt).ended
    ensures After(store, scheduled[..i + 1], oracle, cancelAt) ==
            var before := After(store, scheduled[..i], oracle, cancelAt);
            var key := scheduled[i].key;
            var outcome := Decide(before.store, key, oracle(key));
            if i == cancelAt then RunState(before.store, before.report.(cancelled := true), true)
            else RunState(Land(before.store, key, outcome), Count(before.report, outcome), EndsRun(outcome))
  {
    AfterOne(store, scheduled, i, oracle, cancelAt);
    hide Decide, Land, Count, EndsRun;
  }

  // Nothing happens after a run has ended.
  lemma {:induction false} AfterEnd(store: Store, scheduled: seq<Period>, i: nat, oracle: Key -> Generation,
                                    cancelAt: nat)
    requires i <= |scheduled| && After(store, scheduled[..i], oracle, cancelAt).ended
    ensures After(store, scheduled, oracle, cancelAt) == After(store, scheduled[..i], oracle, cancelAt)
    decreases |scheduled| - i
  {
    hide Decide, Land, Count;
    if i < |scheduled| {
      AfterOne(store, scheduled, i, oracle, cancelAt);
      AfterEnd(store, scheduled, i + 1, oracle, cancelAt);
    } else {
      assert scheduled[..i] == scheduled;
    }
  }

  ghost predicate AllPeriods(periods: seq<Period>) {
    forall i | 0 <= i < |periods| :: periods[i] == PeriodAt(periods[i].key.level, periods[i].key.index)
  }

  lemma LanesArePeriods(store: Store, levels: seq<Level>, now: int, config: Config)
    ensures AllPeriods(Lanes(store, levels, now, config))
  {
    hide Start, Index;
  }

  lemma ScheduledArePeriods(store: Store, now: int, config: Config)
    ensures AllPeriods(Scheduled(store, now, config))
  {
    hide Start, Index;
    LanesArePeriods(store, ALL, now, config);
  }

  // ------------------------------------------------ the historical lanes

  // A snapshot before the recent window whose period has no chronicle.
  predicate IsGap(store: Store, level: Level, s: int, now: int, config: Config) {
    s in store.snapshots && Index(level, s) < Index(level, now) - RecentCount(level, config)
    && Key(level, Index(level, s)) !in store.chronicles
  }

  ghost predicate IsNewestGap(store: Store, level: Level, s: int, now: int, config: Config) {
    IsGap(store, level, s, now, config) && forall x :: IsGap(store, level, x, now, config) ==> x <= s
  }

  lemma GapIff(store: Store, level: Level, s: int, now: int, config: Config)
    ensures s in GapTimes(store, level, Cutoff(level, now, config)) <==> IsGap(store, level, s, now, config)
  {
    hide Start, Index, RecentCount;
    IndexBefore(level, s, Index(level, now) - RecentCount(level, config));
  }

  lemma NewestGapIff(store: Store, level: Level, s: int, now: int, config: Config)
    ensures var gaps := GapTimes(store, level, Cutoff(level, now, config));
            IsNewestGap(store, level, s, now, config) <==> gaps != {} && s == Newest(gaps)
  {
    var gaps := GapTimes(store, level, Cutoff(level, now, config));
    forall x ensures x in gaps <==> IsGap(store, level, x, now, config) {
      GapIff(store, level, x, now, config);
    }
    hide Start, Index, GapTimes, Cutoff, IsGap, RecentCount;
    assert gaps != {} ==> IsNewest(gaps, Newest(gaps));
  }

  lemma LaneHas(store: Store, level: Level, p: Period, now: int, config: Config)
    ensures p in Lane(store, level, now, config) ==> p.key.level == level
    ensures p in Lane(store, level, now, config) <==>
            p == PeriodAt(level, p.key.index) && RecentCount(level, config) > 0
            && exists s :: IsNewestGap(store, level, s, now, config) && Index(level, s) == p.key.index
  {
    hide Start, Index, GapTimes, Cutoff, IsNewestGap, RecentCount;
    var gaps := GapTimes(store, level, Cutoff(level, now, config));
    if gaps != {} {
      NewestGapIff(store, level, Newest(gaps), now, config);
    }
    if s :| IsNewestGap(store, level, s, now, config) && Index(level, s) == p.key.index {
      NewestGapIff(store, level, s, now, config);
    }
  }

  lemma LanesAre(store: Store, now: int, config: Config)
    ensures Lanes(store, ALL, now, config)
         == Lane(store, Hour, now, config) + Lane(store, Day, now, config) + Lane(store, Week, now, config)
            + Lane(store, Month, now, config) + Lane(store, Year, now, config)
  {
    assert ALL == [] + [Hour] + [Day] + [Week] + [Month] + [Year];
    assert [] + [Hour] == [Hour] && [Hour] + [Day] == [Hour, Day] && [Hour, Day] + [Week] == [Hour, Day, Week];
    assert [Hour, Day, Week] + [Month] == [Hour, Day, Week, Month];
    hide *;
    LanesStep(store, [], Hour, now, config);
    LanesStep(store, [Hour], Day, now, config);
    LanesStep(store, [Hour, Day], Week, now, config);
    LanesStep(store, [Hour, Day, Week], Month, now, config);
    LanesStep(store, [Hour, Day, Week, Month], Year, now, config);
    assert [] + Lane(store, Hour, now, config) == Lane(store, Hour, now, config);
  }

  lemma LanesStep(store: Store, levels: seq<Level>, level: Level, now: int, config: Config)
    ensures Lanes(store, levels + [level], now, config)
         == Lanes(store, levels, now, config) + Lane(store, level, now, config)
    ensures Lanes(store, [], now, config) == []
  {
    hide Lane;
    assert (levels + [level])[..|levels|] == levels;
  }

  // The historical periods are those of the newest gap of each open lane, children first.
  lemma LanesIff(store: Store, level: Level, n: int, now: int, config: Config)
    ensures PeriodAt(level, n) in Lanes(store, ALL, now, config) <==>
            RecentCount(level, config) > 0
            && exists s :: IsNewestGap(store, level, s, now, config) && Index(level, s) == n
  {
    LanesAre(store, now, config);
    hide Lane, Start, Index, IsNewestGap, RecentCount, Lanes;
    var p := PeriodAt(level, n);
    LaneHas(store, Hour, p, now, config);
    LaneHas(store, Day, p, now, config);
    LaneHas(store, Week, p, now, config);
    LaneHas(store, Month, p, now, config);
    LaneHas(store, Year, p, now, config);
  }

  lemma LaneInOrder(store: Store, level: Level, now: int, config: Config)
    ensures InOrder(Lane(store, level, now, config))
    ensures var lane := Lane(store, level, now, config); forall i | 0 <= i < |lane| :: lane[i].key.level == level
  {
    hide Start, Index, RecentCount, GapTimes;
  }

  lemma LanesInOrder(store: Store, now: int, config: Config)
    ensures InOrder(Lanes(store, ALL, now, config))
  {
    LanesAre(store, now, config);
    LaneInOrder(store, Hour, now, config);
    LaneInOrder(store, Day, now, config);
    LaneInOrder(store, Week, now, config);
    LaneInOrder(store, Month, now, config);
    LaneInOrder(store, Year, now, config);
    hide Lane, Lanes, InOrder;
    var h, d, w := Lane(store, Hour, now, config), Lane(store, Day, now, config), Lane(store, Week, now, config);
    var m, y := Lane(store, Month, now, config), Lane(store, Year, now, config);
    OrderedJoin(h, d, Day);
    OrderedJoin(h + d, w, Week);
    OrderedJoin(h + d + w, m, Month);
    OrderedJoin(h + d + w + m, y, Year);
  }

  // ------------------------------------------------ what an attempt decides

  // When the text of a period is asked for, and what its ending is called.
  lemma AttemptMeans(store: Store, key: Key, g: Generation)
    ensures var o := Decide(store, key, g);
            var asked := key !in store.chronicles && o != Deferred && o != Empty;
            && (o == AlreadyPresent <==> key in store.chronicles)
            && (asked && g.Text? ==> o == Generated) && (asked && g.Unusable? ==> o == Failed)
            && (asked && g.EpochMoved? ==> o == Retry) && (asked && g.TokenCancelled? ==> o == Cancelled)
            && (asked && g.KeyRefused? ==> o == KeyUnavailable)
  {
    hide HasSnapshots, HasUnsummarized, HasChildChronicle, PeriodAt;
  }

  // An hour waits for nothing and is empty without a snapshot of its own.
  lemma HourMeans(store: Store, n: int, g: Generation)
    requires Key(Hour, n) !in store.chronicles
    ensures var o := Decide(store, Key(Hour, n), g);
            o != Deferred && (o == Empty <==> forall s | s in store.snapshots :: s < 3600 * n || 3600 * (n + 1) <= s)
  {
  }

  lemma ChildChronicleMeans(store: Store, child: Level, parent: Period)
    ensures HasChildChronicle(store, child, parent) <==>
            exists n :: Key(child, n) in store.chronicles
                        && Start(child, n) < parent.end && parent.start < Start(child, n + 1)
  {
    hide Start;
  }

  lemma OutcomesDiffer(g: Generation)
    ensures OutcomeOf(g) != Deferred && OutcomeOf(g) != Empty
  {
  }

  // A rollup waits for every child with a snapshot of the span, and is empty when there
  // is no chronicle to sum up.
  lemma RollupMeans(store: Store, key: Key, g: Generation)
    requires key.level != Hour && key !in store.chronicles
    ensures var o, child := Decide(store, key, g), ChildLevel(key.level);
            var from, to := Start(key.level, key.index), Start(key.level, key.index + 1);
            && (o == Deferred <==>
                exists s :: s in store.snapshots && from <= s < to && Key(child, Index(child, s)) !in store.chronicles)
            && (o == Empty <==>
                o != Deferred && !exists n :: Key(child, n) in store.chronicles
                                              && Start(child, n) < to && from < Start(child, n + 1))
  {
    hide *;
    var child, period := ChildLevel(key.level), PeriodAt(key.level, key.index);
    SpanOf(key);
    DecideRollup(store, key, g);
    OutcomesDiffer(g);
    UnsummarizedMeans(store, child, period.start, period.end);
    ChildChronicleMeans(store, child, period);
  }

  lemma SpanOf(key: Key)
    ensures PeriodAt(key.level, key.index).start == Start(key.level, key.index)
    ensures PeriodAt(key.level, key.index).end == Start(key.level, key.index + 1)
  {
    hide Start;
  }

  lemma UnsummarizedMeans(store: Store, child: Level, from: int, to: int)
    ensures HasUnsummarized(store, child, from, to) <==>
            exists s :: s in store.snapshots && from <= s < to && Key(child, Index(child, s)) !in store.chronicles
  {
    hide Index;
  }

  // ------------------------------------------------ what a run tells

  // The outcomes of the attempts of a run, in their order.
  ghost function Outcomes(store: Store, scheduled: seq<Period>, oracle: Key -> Generation, cancelAt: nat): seq<Outcome>
    decreases |scheduled|
  {
    if scheduled == [] then []
    else
      var last := |scheduled| - 1;
      var front := scheduled[..last];
      var before, state := Outcomes(store, front, oracle, cancelAt), After(store, front, oracle, cancelAt);
      if state.ended || last == cancelAt then before
      else before + [Decide(state.store, scheduled[last].key, oracle(scheduled[last].key))]
  }

  predicate StopsRun(outcome: Outcome) { outcome in {Retry, Cancelled, KeyUnavailable} }

  // The report counts the attempts by outcome; what only waits counts as empty.
  ghost predicate Reports(r: Report, outcomes: seq<Outcome>) {
    var m := multiset(outcomes);
    && r.considered == |outcomes| && r.generated == m[Generated] && r.alreadyPresent == m[AlreadyPresent]
    && r.empty == m[Empty] + m[Deferred] + m[Retry] && r.failed == m[Failed]
    && (r.keyUnavailable <==> KeyUnavailable in outcomes)
    && (Cancelled in outcomes ==> r.cancelled)
  }

  lemma CountReports(r: Report, outcomes: seq<Outcome>, o: Outcome)
    requires Reports(r, outcomes)
    ensures Reports(Count(r, o), outcomes + [o])
  {
    assert multiset(outcomes + [o]) == multiset(outcomes) + multiset{o};
    assert forall x :: x in outcomes + [o] <==> x in outcomes || x == o;
  }

  // After a run over n periods: where it stopped and why, and its report.
  ghost predicate Tells(end: RunState, outcomes: seq<Outcome>, n: nat, cancelAt: nat) {
    var stopped := outcomes != [] && StopsRun(outcomes[|outcomes| - 1]);
    && |outcomes| <= n && Reports(end.report, outcomes)
    && (forall i :: 0 <= i < |outcomes| - 1 ==> !StopsRun(outcomes[i]))
    && (end.ended <==> stopped || |outcomes| < n)
    && (|outcomes| < n ==> stopped || |outcomes| == cancelAt)
    && (end.report.cancelled <==> Cancelled in outcomes || (!stopped && |outcomes| < n))
  }

  lemma AttemptTells(before: RunState, outcomes: seq<Outcome>, n: nat, cancelAt: nat, o: Outcome, store: Store)
    requires Tells(before, outcomes, n, cancelAt) && !before.ended && n != cancelAt
    ensures Tells(RunState(store, Count(before.report, o), EndsRun(o)), outcomes + [o], n + 1, cancelAt)
  {
    CountReports(before.report, outcomes, o);
    hide Reports;
    assert forall i :: 0 <= i < |outcomes| ==> (outcomes + [o])[i] == outcomes[i];
    assert Cancelled !in outcomes;
  }

  lemma StopTells(before: RunState, outcomes: seq<Outcome>, n: nat, cancelAt: nat)
    requires Tells(before, outcomes, n, cancelAt)
    ensures before.ended ==> Tells(before, outcomes, n + 1, cancelAt)
    ensures !before.ended && n == cancelAt ==>
              Tells(RunState(before.store, before.report.(cancelled := true), true), outcomes, n + 1, cancelAt)
  {
    SameCounts(before.report, outcomes);
    hide Reports;
  }

  // A run goes through the periods in order. A changed epoch, a cancellation and a refused
  // key end it; nothing else does, neither a failed generation nor a deferred rollup.
  lemma {:induction false} RunTells(store: Store, scheduled: seq<Period>, oracle: Key -> Generation, cancelAt: nat)
    ensures Tells(After(store, scheduled, oracle, cancelAt), Outcomes(store, scheduled, oracle, cancelAt),
                  |scheduled|, cancelAt)
    decreases |scheduled|
  {
    hide Decide, Land, Count, EndsRun, Tells;
    if scheduled == [] {
      NothingTold(store, oracle, cancelAt);
    } else {
      var last := |scheduled| - 1;
      var front := scheduled[..last];
      RunTells(store, front, oracle, cancelAt);
      var before, outcomes := After(store, front, oracle, cancelAt), Outcomes(store, front, oracle, cancelAt);
      StopTells(before, outcomes, last, cancelAt);
      if !before.ended && last != cancelAt {
        var key := scheduled[last].key;
        var o := Decide(before.store, key, oracle(key));
        AttemptTells(before, outcomes, last, cancelAt, o, Land(before.store, key, o));
      }
    }
  }

  lemma NothingTold(store: Store, oracle: Key -> Generation, cancelAt: nat)
    ensures Tells(After(store, [], oracle, cancelAt), [], 0, cancelAt)
  {
    NothingReported();
  }

  lemma NothingReported()
    ensures Reports(NO_REPORT, [])
  {
  }

  lemma SameCounts(r: Report, outcomes: seq<Outcome>)
    requires Reports(r, outcomes)
    ensures Reports(r.(cancelled := true), outcomes)
  {
  }
}
