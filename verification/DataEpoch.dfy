// What may still be written after stored data was destroyed.
module DataEpoch {
  // Capture loops, memory commits, retention prunes and delete-alls interleave
  // under the policy lease, the mutation mutex and the data epoch. Every atomic
  // step is an action, and an adversarial scheduler picks the next one. Memory
  // generation may begin a period at any moment here, which is more than the
  // memory-run gate allows.
  //
  // Two counters say when data was destroyed: `wipes` counts committed
  // delete-alls, `prunes` counts retention prunes that deleted rows. Whatever is
  // observed or read carries the counters of that moment. Either kind can fail
  // after its rows are gone, when the database file is compacted, and then leaves
  // the epoch as it was; `lost` counts those.

  import opened Wrappers

  type Id = nat

  // `oldest` is the smallest wipe count carried by anything a candidate was
  // made of: this observation and, when the pipeline merged it, the earlier
  // observations of its sequence and the row they were stored in.
  datatype CapturePc =
    | Resting
    | Leased
    | Refreshed
    | Observed(at: nat)
    | Candidate(oldest: nat)
    | Locked(oldest: nat)
    | Persisting(closure: Id)
    | Finished

  // `carried` stands for the pending snapshot and the active row id, which
  // survive from one attempt to the next.
  datatype CaptureTask = CaptureTask(pc: CapturePc, observedEpoch: nat, carried: Option<nat>)

  // The blocking closure of persist_capture owns the mutation guard, also when
  // the task that started it is gone.
  datatype Closure = Closure(oldest: nat, returned: bool)

  // A memory period between its epoch read and its commit. `unpublished` counts the
  // destructions that the epoch it read does not count.
  datatype Period = Period(epoch: nat, wipes: nat, prunes: nat, unpublished: nat, locked: bool)

  datatype ResetPc = Queued | PolicyHeld | Mutating | Wiped | Advanced | DroppingPolicy

  datatype PrunePc = PruneQueued | PruneLocked | PruneDeleted | PruneDone

  datatype Holder =
    | ByCapture(id: Id)
    | ByClosure(id: Id)
    | ByPeriod(id: Id)
    | ByReset(id: Id)
    | ByPrune(id: Id)

  // What a committed write was made from, and the counters when it committed.
  datatype Write =
    | CaptureWrite(oldest: nat, wipesNow: nat)
    | MemoryWrite(
        readWipes: nat, readPrunes: nat, unpublished: nat, wipesNow: nat, prunesNow: nat, lostNow: nat)

  datatype State = State(
    captures: map<Id, CaptureTask>,
    closures: map<Id, Closure>,
    periods: map<Id, Period>,
    resets: map<Id, ResetPc>,
    pruners: map<Id, PrunePc>,
    policyReaders: set<Id>,
    policyWriter: Option<Id>,
    mutation: Option<Holder>,
    dataEpoch: nat,
    wipes: nat,
    prunes: nat,
    lost: nat,
    log: seq<Write>)

  const INIT: State := State(map[], map[], map[], map[], map[], {}, None, None, 0, 0, 0, 0, [])

  datatype CaptureAction =
    | TakeLease
    | RefreshEpoch
    | Observe
    | Process(merge: bool)
    | Skip
    | LockForPersist
    | SpawnPersist(closure: Id)
    | JoinPersist(success: bool)
    | ForgetContinuity
    | ReleaseLease
    | AbortCapture

  datatype PeriodAction = LockForCommit | Commit(stored: bool) | DropPeriod

  datatype ResetAction =
    | TakePolicy
    | LockForWipe
    | Wipe
    | FailWipe
    | LoseWipeEpoch
    | AdvanceEpoch
    | FinishWipe
    | Abandon
    | DropPolicy

  datatype PruneAction = LockForPrune | DeleteExpired(rows: nat) | LosePruneEpoch | AdvancePruneEpoch | FinishPrune

  datatype Action =
    | StartCapture(capture: Id)
    | CaptureStep(capture: Id, captureAction: CaptureAction)
    | WriteCapture(closure: Id, stored: bool)
    | FinishClosure(closure: Id)
    | BeginPeriod(period: Id)
    | PeriodStep(period: Id, periodAction: PeriodAction)
    | StartReset(reset: Id)
    | ResetStep(reset: Id, resetAction: ResetAction)
    | StartPrune(pruner: Id)
    | PruneStep(pruner: Id, pruneAction: PruneAction)

  function Min(a: nat, b: nat): (r: nat)
    ensures r <= a && r <= b && r in {a, b}
  {
    if a < b then a else b
  }

  // ------------------------------------------------------------------ steps

  ghost predicate SetsCapture(s: State, c: Id, task: CaptureTask, t: State) {
    t == s.(captures := s.captures[c := task])
  }

  ghost predicate CaptureNext(s: State, c: Id, a: CaptureAction, t: State) {
    c in s.captures &&
    var task := s.captures[c];
    match a
    case TakeLease =>
      task.pc.Resting? && s.policyWriter.None?
      && t == s.(captures := s.captures[c := task.(pc := Leased)], policyReaders := s.policyReaders + {c})
    case RefreshEpoch =>
      // A changed epoch replaces the pipeline and forgets the active row.
      task.pc.Leased?
      && SetsCapture(s, c, if s.dataEpoch != task.observedEpoch then CaptureTask(Refreshed, s.dataEpoch, None)
                           else task.(pc := Refreshed), t)
    case Observe => task.pc.Refreshed? && SetsCapture(s, c, task.(pc := Observed(s.wipes)), t)
    case Process(merge) =>
      task.pc.Observed? && (merge ==> task.carried.Some?) &&
      var oldest := if merge then Min(task.carried.value, task.pc.at) else task.pc.at;
      SetsCapture(s, c, task.(pc := Candidate(oldest), carried := Some(oldest)), t)
    case Skip =>
      (task.pc.Refreshed? || task.pc.Observed?) && SetsCapture(s, c, task.(pc := Finished, carried := None), t)
    case LockForPersist =>
      task.pc.Candidate? && s.mutation.None?
      && t == s.(captures := s.captures[c := task.(pc := Locked(task.pc.oldest))], mutation := Some(ByCapture(c)))
    case SpawnPersist(k) =>
      task.pc.Locked? && k !in s.closures
      && t == s.(captures := s.captures[c := task.(pc := Persisting(k))],
                 closures := s.closures[k := Closure(task.pc.oldest, false)],
                 mutation := Some(ByClosure(k)))
    case JoinPersist(success) =>
      task.pc.Persisting? && task.pc.closure !in s.closures
      && SetsCapture(s, c, task.(pc := Finished, carried := if success then task.carried else None), t)
    case ForgetContinuity => SetsCapture(s, c, task.(carried := None), t)
    case ReleaseLease =>
      (task.pc.Leased? || task.pc.Finished?)
      && t == s.(captures := s.captures[c := task.(pc := Resting)], policyReaders := s.policyReaders - {c})
    case AbortCapture =>
      t == s.(captures := s.captures - {c}, policyReaders := s.policyReaders - {c},
              mutation := if task.pc.Locked? then None else s.mutation)
  }

  function WriteOf(period: Period, s: State): Write {
    MemoryWrite(period.wipes, period.prunes, period.unpublished, s.wipes, s.prunes, s.lost)
  }

  ghost predicate PeriodNext(s: State, m: Id, a: PeriodAction, t: State) {
    m in s.periods &&
    var period := s.periods[m];
    match a
    case LockForCommit =>
      !period.locked && s.mutation.None?
      && t == s.(periods := s.periods[m := period.(locked := true)], mutation := Some(ByPeriod(m)))
    case Commit(stored) =>
      // A changed epoch makes the period retry; otherwise the write may commit.
      period.locked
      && t == s.(periods := s.periods - {m}, mutation := None,
                 log := if s.dataEpoch == period.epoch && stored
                        then s.log + [WriteOf(period, s)] else s.log)
    case DropPeriod =>
      t == s.(periods := s.periods - {m}, mutation := if period.locked then None else s.mutation)
  }

  function Forgotten(captures: map<Id, CaptureTask>): map<Id, CaptureTask> {
    map c | c in captures :: captures[c].(carried := None)
  }

  ghost predicate SetsReset(s: State, r: Id, pc: ResetPc, t: State) {
    t == s.(resets := s.resets[r := pc])
  }

  ghost predicate ResetNext(s: State, r: Id, a: ResetAction, t: State) {
    r in s.resets &&
    var pc := s.resets[r];
    match a
    case TakePolicy =>
      pc.Queued? && s.policyWriter.None? && s.policyReaders == {}
      && t == s.(resets := s.resets[r := PolicyHeld], policyWriter := Some(r))
    case LockForWipe =>
      pc.PolicyHeld? && s.mutation.None?
      && t == s.(resets := s.resets[r := Mutating], mutation := Some(ByReset(r)))
    case Wipe => pc.Mutating? && t == s.(resets := s.resets[r := Wiped], wipes := s.wipes + 1)
    case FailWipe => pc.Mutating? && t == s.(resets := s.resets[r := DroppingPolicy], mutation := None)
    case LoseWipeEpoch =>
      // The handler has paused the controller, so every capture loop forgets what it
      // carries before it uses it again.
      pc.Wiped?
      && t == s.(resets := s.resets[r := DroppingPolicy], mutation := None, lost := s.lost + 1,
                 captures := Forgotten(s.captures))
    case AdvanceEpoch => pc.Wiped? && t == s.(resets := s.resets[r := Advanced], dataEpoch := s.dataEpoch + 1)
    case FinishWipe => pc.Advanced? && t == s.(resets := s.resets[r := DroppingPolicy], mutation := None)
    case Abandon => pc.PolicyHeld? && SetsReset(s, r, DroppingPolicy, t)
    case DropPolicy => pc.DroppingPolicy? && t == s.(resets := s.resets - {r}, policyWriter := None)
  }

  ghost predicate PruneNext(s: State, p: Id, a: PruneAction, t: State) {
    p in s.pruners &&
    var pc := s.pruners[p];
    match a
    case LockForPrune =>
      pc.PruneQueued? && s.mutation.None?
      && t == s.(pruners := s.pruners[p := PruneLocked], mutation := Some(ByPrune(p)))
    case DeleteExpired(rows) =>
      pc.PruneLocked?
      && (if rows > 0 then t == s.(pruners := s.pruners[p := PruneDeleted], prunes := s.prunes + 1)
          else t == s.(pruners := s.pruners[p := PruneDone]))
    case LosePruneEpoch =>
      pc.PruneDeleted? && t == s.(pruners := s.pruners - {p}, mutation := None, lost := s.lost + 1)
    case AdvancePruneEpoch =>
      pc.PruneDeleted? && t == s.(pruners := s.pruners[p := PruneDone], dataEpoch := s.dataEpoch + 1)
    case FinishPrune => pc.PruneDone? && t == s.(pruners := s.pruners - {p}, mutation := None)
  }

  ghost predicate ClosureNext(s: State, a: Action, t: State) {
    match a
    case WriteCapture(k, stored) =>
      k in s.closures && !s.closures[k].returned
      && t == s.(closures := s.closures[k := s.closures[k].(returned := true)],
                 log := if stored then s.log + [CaptureWrite(s.closures[k].oldest, s.wipes)] else s.log)
    case FinishClosure(k) =>
      k in s.closures && s.closures[k].returned && t == s.(closures := s.closures - {k}, mutation := None)
    case _ => false
  }

  // A committed destruction whose epoch increment is still to come.
  ghost function Lag(resets: map<Id, ResetPc>, pruners: map<Id, PrunePc>, mutation: Option<Holder>): nat {
    if mutation.None? then 0
    else match mutation.value
      case ByReset(r) => if r in resets && resets[r].Wiped? then 1 else 0
      case ByPrune(p) => if p in pruners && pruners[p].PruneDeleted? then 1 else 0
      case _ => 0
  }

  ghost function Began(s: State): Period {
    Period(s.dataEpoch, s.wipes, s.prunes, s.lost + Lag(s.resets, s.pruners, s.mutation), false)
  }

  ghost predicate StartNext(s: State, a: Action, t: State) {
    match a
    case StartCapture(c) => c !in s.captures && SetsCapture(s, c, CaptureTask(Resting, s.dataEpoch, None), t)
    case BeginPeriod(m) =>
      m !in s.periods && t == s.(periods := s.periods[m := Began(s)])
    case StartReset(r) => r !in s.resets && SetsReset(s, r, Queued, t)
    case StartPrune(p) => p !in s.pruners && t == s.(pruners := s.pruners[p := PruneQueued])
    case _ => false
  }

  ghost predicate Next(s: State, a: Action, t: State) {
    match a
    case CaptureStep(c, action) => CaptureNext(s, c, action, t)
    case PeriodStep(m, action) => PeriodNext(s, m, action, t)
    case ResetStep(r, action) => ResetNext(s, r, action, t)
    case PruneStep(p, action) => PruneNext(s, p, action, t)
    case _ => StartNext(s, a, t) || ClosureNext(s, a, t)
  }

  ghost predicate Reaches(s: State, schedule: seq<Action>, t: State)
    decreases |schedule|
  {
    if schedule == [] then s == t
    else exists mid :: Next(s, schedule[0], mid) && Reaches(mid, schedule[1..], t)
  }

  // ------------------------------------------------------------- invariant

  predicate MutatesNow(pc: ResetPc) { pc.Mutating? || pc.Wiped? || pc.Advanced? }

  ghost predicate PolicyInv(captures: map<Id, CaptureTask>, resets: map<Id, ResetPc>, readers: set<Id>,
                            writer: Option<Id>)
  {
    && readers <= captures.Keys
    && (forall c | c in captures :: c in readers <==> !captures[c].pc.Resting?)
    && (forall r | r in resets :: writer == Some(r) <==> !resets[r].Queued?)
    && (writer.Some? ==> writer.value in resets && readers == {})
  }

  // The mutation mutex is held by exactly the programs that are past taking it.
  ghost predicate TaskHolderInv(captures: map<Id, CaptureTask>, closures: map<Id, Closure>, mutation: Option<Holder>) {
    && (forall c | c in captures :: mutation == Some(ByCapture(c)) <==> captures[c].pc.Locked?)
    && (forall k | k in closures :: mutation == Some(ByClosure(k)))
    && (mutation.Some? && mutation.value.ByCapture? ==> mutation.value.id in captures)
    && (mutation.Some? && mutation.value.ByClosure? ==> mutation.value.id in closures)
  }

  ghost predicate HolderInv(periods: map<Id, Period>, resets: map<Id, ResetPc>, pruners: map<Id, PrunePc>,
                            mutation: Option<Holder>)
  {
    && (forall m | m in periods :: mutation == Some(ByPeriod(m)) <==> periods[m].locked)
    && (forall r | r in resets :: mutation == Some(ByReset(r)) <==> MutatesNow(resets[r]))
    && (forall p | p in pruners :: mutation == Some(ByPrune(p)) <==> !pruners[p].PruneQueued?)
    && (mutation.Some? && mutation.value.ByPeriod? ==> mutation.value.id in periods)
    && (mutation.Some? && mutation.value.ByReset? ==> mutation.value.id in resets)
    && (mutation.Some? && mutation.value.ByPrune? ==> mutation.value.id in pruners)
  }

  ghost predicate EpochInv(s: State) {
    s.dataEpoch + Lag(s.resets, s.pruners, s.mutation) + s.lost == s.wipes + s.prunes
  }

  ghost predicate PeriodInv(periods: map<Id, Period>, dataEpoch: nat, wipes: nat, prunes: nat) {
    forall m | m in periods ::
      && periods[m].epoch <= dataEpoch
      && periods[m].wipes <= wipes
      && periods[m].prunes <= prunes
      && periods[m].epoch + periods[m].unpublished == periods[m].wipes + periods[m].prunes
  }

  // The delete-alls whose epoch increment has been published.
  ghost function Published(resets: map<Id, ResetPc>, writer: Option<Id>, wipes: nat): int {
    if writer.Some? && writer.value in resets && resets[writer.value].Wiped? then wipes - 1 else wipes
  }

  ghost predicate CaptureTaskInv(task: CaptureTask, dataEpoch: nat, wipes: nat, published: int) {
    && task.observedEpoch <= dataEpoch
    && (task.pc.Observed? ==> task.pc.at == wipes)
    && (task.pc.Candidate? || task.pc.Locked? ==> task.pc.oldest == wipes)
    && (task.carried.Some? ==>
          && task.carried.value <= wipes
          && (task.carried.value < published ==> task.observedEpoch < dataEpoch)
          && (!task.pc.Resting? && !task.pc.Leased? ==> task.carried.value == wipes))
  }

  ghost predicate CapturesInv(captures: map<Id, CaptureTask>, dataEpoch: nat, wipes: nat, published: int) {
    forall c | c in captures :: CaptureTaskInv(captures[c], dataEpoch, wipes, published)
  }

  ghost predicate ClosuresInv(closures: map<Id, Closure>, wipes: nat) {
    forall k | k in closures :: closures[k].oldest == wipes
  }

  // Nothing in the write is older than the last delete-all, and no memory write
  // is older than the last prune.
  predicate Current(w: Write) {
    match w
    case CaptureWrite(oldest, wipesNow) => oldest == wipesNow
    case MemoryWrite(readWipes, readPrunes, _, wipesNow, prunesNow, _) =>
      readWipes == wipesNow && readPrunes == prunesNow
  }

  // What destroyed rows since the period read its epoch lost its own increment.
  predicate Accounted(w: Write) {
    match w
    case CaptureWrite(oldest, wipesNow) => oldest == wipesNow
    case MemoryWrite(readWipes, readPrunes, unpublished, wipesNow, prunesNow, lostNow) =>
      readWipes <= wipesNow && readPrunes <= prunesNow
      && (wipesNow - readWipes) + (prunesNow - readPrunes) == lostNow - unpublished
  }

  ghost predicate LogInv(log: seq<Write>, lost: nat) {
    forall i | 0 <= i < |log| :: Accounted(log[i]) && (log[i].MemoryWrite? ==> log[i].lostNow <= lost)
  }

  ghost predicate Locks(s: State) {
    && PolicyInv(s.captures, s.resets, s.policyReaders, s.policyWriter)
    && TaskHolderInv(s.captures, s.closures, s.mutation)
    && HolderInv(s.periods, s.resets, s.pruners, s.mutation)
  }

  ghost predicate Stamps(s: State) {
    && EpochInv(s)
    && PeriodInv(s.periods, s.dataEpoch, s.wipes, s.prunes)
    && CapturesInv(s.captures, s.dataEpoch, s.wipes, Published(s.resets, s.policyWriter, s.wipes))
    && ClosuresInv(s.closures, s.wipes)
    && LogInv(s.log, s.lost)
  }

  // ------------------------------------- every step keeps the invariant

  lemma {:induction false} CaptureKeepsPolicy(s: State, c: Id, a: CaptureAction, t: State)
    requires PolicyInv(s.captures, s.resets, s.policyReaders, s.policyWriter) && CaptureNext(s, c, a, t)
    ensures PolicyInv(t.captures, t.resets, t.policyReaders, t.policyWriter)
  {
  }

  lemma {:induction false} CaptureKeepsHolders(s: State, c: Id, a: CaptureAction, t: State)
    requires TaskHolderInv(s.captures, s.closures, s.mutation) && HolderInv(s.periods, s.resets, s.pruners, s.mutation)
    requires CaptureNext(s, c, a, t)
    ensures TaskHolderInv(t.captures, t.closures, t.mutation) && HolderInv(t.periods, t.resets, t.pruners, t.mutation)
  {
  }

  // A lease keeps delete-alls out from the observation to the closure's start.
  lemma {:induction false} CaptureKeepsStamps(s: State, c: Id, a: CaptureAction, t: State)
    requires PolicyInv(s.captures, s.resets, s.policyReaders, s.policyWriter)
    requires TaskHolderInv(s.captures, s.closures, s.mutation)
    requires Stamps(s) && CaptureNext(s, c, a, t)
    ensures Stamps(t)
  {
  }

  lemma {:induction false} PeriodKeepsLocks(s: State, m: Id, a: PeriodAction, t: State)
    requires Locks(s) && PeriodNext(s, m, a, t)
    ensures Locks(t)
  {
  }

  // Under the mutex no destruction is half published, so an unchanged epoch
  // means that nothing was destroyed since the epoch was read.
  lemma {:induction false} PeriodKeepsStamps(s: State, m: Id, a: PeriodAction, t: State)
    requires HolderInv(s.periods, s.resets, s.pruners, s.mutation)
    requires Stamps(s) && PeriodNext(s, m, a, t)
    ensures Stamps(t)
  {
  }

  lemma {:induction false} ResetKeepsLocks(s: State, r: Id, a: ResetAction, t: State)
    requires Locks(s) && ResetNext(s, r, a, t)
    ensures Locks(t)
  {
  }

  lemma {:induction false} ResetKeepsStamps(s: State, r: Id, a: ResetAction, t: State)
    requires Locks(s) && Stamps(s) && ResetNext(s, r, a, t)
    ensures Stamps(t)
  {
    if a.LoseWipeEpoch? {
      LostWipeKeepsStamps(s, r, t);
    }
  }

  // A delete-all runs without a lease beside it, and nothing is carried over.
  lemma LostWipeKeepsStamps(s: State, r: Id, t: State)
    requires Locks(s) && Stamps(s) && ResetNext(s, r, LoseWipeEpoch, t)
    ensures Stamps(t)
  {
    hide TaskHolderInv;
    assert s.policyReaders == {};
    assert forall c | c in s.captures :: s.captures[c].pc.Resting?;
  }

  lemma {:induction false} PruneKeepsLocks(s: State, p: Id, a: PruneAction, t: State)
    requires Locks(s) && PruneNext(s, p, a, t)
    ensures Locks(t)
  {
  }

  lemma {:induction false} PruneKeepsStamps(s: State, p: Id, a: PruneAction, t: State)
    requires HolderInv(s.periods, s.resets, s.pruners, s.mutation)
    requires Stamps(s) && PruneNext(s, p, a, t)
    ensures Stamps(t)
  {
  }

  lemma {:induction false} ClosureKeepsLocks(s: State, a: Action, t: State)
    requires Locks(s) && ClosureNext(s, a, t)
    ensures Locks(t)
  {
  }

  lemma {:induction false} ClosureKeepsStamps(s: State, a: Action, t: State)
    requires TaskHolderInv(s.captures, s.closures, s.mutation)
    requires Stamps(s) && ClosureNext(s, a, t)
    ensures Stamps(t)
  {
  }

  lemma {:induction false} StartKeepsLocks(s: State, a: Action, t: State)
    requires Locks(s) && StartNext(s, a, t)
    ensures Locks(t)
  {
  }

  lemma {:induction false} StartKeepsStamps(s: State, a: Action, t: State)
    requires Locks(s) && Stamps(s) && StartNext(s, a, t)
    ensures Stamps(t)
  {
  }

  lemma {:induction false} StepKeepsInv(s: State, a: Action, t: State)
    requires Locks(s) && Stamps(s) && Next(s, a, t)
    ensures Locks(t) && Stamps(t)
  {
    match a
    case CaptureStep(c, action) =>
      CaptureKeepsPolicy(s, c, action, t);
      CaptureKeepsHolders(s, c, action, t);
      CaptureKeepsStamps(s, c, action, t);
    case PeriodStep(m, action) => PeriodKeepsLocks(s, m, action, t); PeriodKeepsStamps(s, m, action, t);
    case ResetStep(r, action) => ResetKeepsLocks(s, r, action, t); ResetKeepsStamps(s, r, action, t);
    case PruneStep(p, action) => PruneKeepsLocks(s, p, action, t); PruneKeepsStamps(s, p, action, t);
    case _ =>
      if StartNext(s, a, t) {
        StartKeepsLocks(s, a, t);
        StartKeepsStamps(s, a, t);
      } else {
        ClosureKeepsLocks(s, a, t);
        ClosureKeepsStamps(s, a, t);
      }
  }

  // A write that failed is not carried on; one that succeeded is.
  lemma PersistCarriesIff(s: State, c: Id, success: bool, t: State)
    requires CaptureNext(s, c, JoinPersist(success), t)
    ensures c in t.captures && t.captures[c].pc.Finished?
    ensures t.captures[c].carried == if success then s.captures[c].carried else None
  {
  }

  lemma {:induction false} RunsKeepInv(s: State, schedule: seq<Action>, t: State)
    requires Locks(s) && Stamps(s) && Reaches(s, schedule, t)
    ensures Locks(t) && Stamps(t)
    decreases |schedule|
  {
    if schedule != [] {
      var mid :| Next(s, schedule[0], mid) && Reaches(mid, schedule[1..], t);
      StepKeepsInv(s, schedule[0], mid);
      RunsKeepInv(mid, schedule[1..], t);
    }
  }

  // ---------------------------------------------------------- main results

  // Some destruction lost its epoch increment after the period had read the epoch.
  predicate LostSince(w: Write) { w.MemoryWrite? && w.unpublished < w.lostNow }

  // In every interleaving, a capture or memory write that commits was made
  // only from what was observed or read after the last delete-all, and a memory
  // write only from what was read after the last prune, exactly unless an epoch
  // increment was lost since. Captures are always fresh.
  lemma {:induction false} NoStaleWriteCommits(schedule: seq<Action>, t: State)
    requires Reaches(INIT, schedule, t)
    ensures forall i | 0 <= i < |t.log| :: Current(t.log[i]) <==> !LostSince(t.log[i])
    ensures t.lost == 0 ==> forall i | 0 <= i < |t.log| :: Current(t.log[i])
  {
    RunsKeepInv(INIT, schedule, t);
  }

  // While a delete-all destroys rows, nobody else is past the point of no
  // return: no candidate exists and no closure is running.
  lemma {:induction false} WipeRunsAlone(schedule: seq<Action>, t: State, r: Id)
    requires Reaches(INIT, schedule, t)
    requires r in t.resets && MutatesNow(t.resets[r])
    ensures forall c | c in t.captures :: t.captures[c].pc.Resting?
    ensures t.closures == map[]
    ensures forall m | m in t.periods :: !t.periods[m].locked
    ensures forall p | p in t.pruners :: t.pruners[p].PruneQueued?
    ensures forall q | q in t.resets && MutatesNow(t.resets[q]) :: q == r
  {
    RunsKeepInv(INIT, schedule, t);
    assert t.mutation == Some(ByReset(r)) && t.policyWriter == Some(r);
    forall c | c in t.captures ensures t.captures[c].pc.Resting? {
      assert c !in t.policyReaders;
    }
    assert t.closures.Keys == {};
  }

  // ------------------------------------------ what a destruction leaves behind

  predicate Destroyer(h: Holder) { h.ByReset? || h.ByPrune? }

  predicate OwnStep(a: Action, h: Holder)
    requires Destroyer(h)
  {
    if h.ByReset? then a.ResetStep? && a.reset == h.id else a.PruneStep? && a.pruner == h.id
  }

  // It ends before its commit, or finds nothing to delete.
  predicate DestroysNothing(a: Action) {
    (a.ResetStep? && a.resetAction.FailWipe?) || (a.PruneStep? && a.pruneAction == DeleteExpired(0))
  }

  // The destroyer holds the mutation lock before each of these steps and none of its
  // own ends it early.
  ghost predicate Destroys(s: State, schedule: seq<Action>, t: State, h: Holder)
    requires Destroyer(h)
    decreases |schedule|
  {
    if schedule == [] then s == t
    else
      s.mutation == Some(h) && !(OwnStep(schedule[0], h) && DestroysNothing(schedule[0]))
      && exists mid :: Next(s, schedule[0], mid) && Destroys(mid, schedule[1..], t, h)
  }

  ghost predicate SameCounters(s: State, t: State) {
    t.wipes == s.wipes && t.prunes == s.prunes && t.dataEpoch == s.dataEpoch && t.lost == s.lost
  }

  // The lock keeps every other destruction out.
  lemma {:induction false} OthersWait(s: State, a: Action, t: State, h: Holder)
    requires HolderInv(s.periods, s.resets, s.pruners, s.mutation) && Next(s, a, t)
    requires Destroyer(h) && s.mutation == Some(h) && !OwnStep(a, h)
    ensures SameCounters(s, t)
    ensures h.ByReset? ==> h.id in t.resets && t.resets[h.id] == s.resets[h.id]
    ensures h.ByPrune? ==> h.id in t.pruners && t.pruners[h.id] == s.pruners[h.id]
  {
    match a
    case CaptureStep(c, action) => CaptureDestroysNothing(s, c, action, t);
    case PeriodStep(m, action) => PeriodDestroysNothing(s, m, action, t);
    case PruneStep(p, action) => PruneWaits(s, p, action, t);
    case ResetStep(q, action) => ResetWaits(s, q, action, t);
    case _ => hide HolderInv, CaptureNext, PeriodNext, ResetNext, PruneNext, Lag;
  }

  lemma CaptureDestroysNothing(s: State, c: Id, a: CaptureAction, t: State)
    requires CaptureNext(s, c, a, t)
    ensures SameCounters(s, t) && t.resets == s.resets && t.pruners == s.pruners
  {
  }

  lemma PeriodDestroysNothing(s: State, m: Id, a: PeriodAction, t: State)
    requires PeriodNext(s, m, a, t)
    ensures SameCounters(s, t) && t.resets == s.resets && t.pruners == s.pruners
  {
  }

  lemma PruneWaits(s: State, p: Id, a: PruneAction, t: State)
    requires HolderInv(s.periods, s.resets, s.pruners, s.mutation) && PruneNext(s, p, a, t)
    requires s.mutation != Some(ByPrune(p))
    ensures SameCounters(s, t) && t.resets == s.resets
    ensures forall q | q in s.pruners && q != p :: q in t.pruners && t.pruners[q] == s.pruners[q]
  {
  }

  lemma ResetWaits(s: State, r: Id, a: ResetAction, t: State)
    requires HolderInv(s.periods, s.resets, s.pruners, s.mutation) && ResetNext(s, r, a, t)
    requires s.mutation != Some(ByReset(r))
    ensures SameCounters(s, t) && t.pruners == s.pruners
    ensures forall q | q in s.resets && q != r :: q in t.resets && t.resets[q] == s.resets[q]
  {
  }

  // What the destroyer has done since `start`, where it took the lock.
  ghost predicate Progress(start: State, t: State, h: Holder)
    requires Destroyer(h)
  {
    if h.ByReset? then
      h.id in t.resets && MutatesNow(t.resets[h.id]) && t.prunes == start.prunes && t.lost == start.lost
      && t.wipes == start.wipes + (if t.resets[h.id].Mutating? then 0 else 1)
      && t.dataEpoch == start.dataEpoch + (if t.resets[h.id].Advanced? then 1 else 0)
    else
      h.id in t.pruners && !t.pruners[h.id].PruneQueued? && t.wipes == start.wipes && t.lost == start.lost
      && t.prunes == start.prunes + (if t.pruners[h.id].PruneLocked? then 0 else 1)
      && t.dataEpoch == start.dataEpoch + (if t.pruners[h.id].PruneDone? then 1 else 0)
  }

  // The rows are deleted once, and the epoch has moved once or lost the move.
  predicate Destroyed(start: State, t: State, h: Holder) {
    t.wipes == start.wipes + (if h.ByReset? then 1 else 0) && t.prunes == start.prunes + (if h.ByPrune? then 1 else 0)
    && ((t.dataEpoch == start.dataEpoch + 1 && t.lost == start.lost)
        || (t.dataEpoch == start.dataEpoch && t.lost == start.lost + 1))
  }

  lemma ResetProgresses(start: State, s: State, r: Id, a: ResetAction, t: State)
    requires Progress(start, s, ByReset(r)) && s.mutation == Some(ByReset(r)) && ResetNext(s, r, a, t) && !a.FailWipe?
    ensures if t.mutation == Some(ByReset(r)) then Progress(start, t, ByReset(r)) else Destroyed(start, t, ByReset(r))
  {
    hide Forgotten;
  }

  lemma PruneProgresses(start: State, s: State, p: Id, a: PruneAction, t: State)
    requires Progress(start, s, ByPrune(p)) && s.mutation == Some(ByPrune(p)) && PruneNext(s, p, a, t)
    requires a != DeleteExpired(0)
    ensures if t.mutation == Some(ByPrune(p)) then Progress(start, t, ByPrune(p)) else Destroyed(start, t, ByPrune(p))
  {
  }

  lemma {:induction false} DestructionStep(start: State, s: State, a: Action, t: State, h: Holder)
    requires Locks(s) && Locks(t) && Next(s, a, t) && Destroyer(h) && s.mutation == Some(h)
    requires !(OwnStep(a, h) && DestroysNothing(a)) && Progress(start, s, h)
    ensures if t.mutation == Some(h) then Progress(start, t, h) else Destroyed(start, t, h)
  {
    if !OwnStep(a, h) {
      OthersWait(s, a, t, h);
      hide Next, PolicyInv, TaskHolderInv;
    } else {
      hide PolicyInv, TaskHolderInv, HolderInv, Progress, Destroyed, ResetNext, PruneNext;
      if h.ByReset? {
        ResetProgresses(start, s, h.id, a.resetAction, t);
      } else {
        PruneProgresses(start, s, h.id, a.pruneAction, t);
      }
    }
  }

  lemma {:induction false} DestructionRun(start: State, s: State, schedule: seq<Action>, t: State, h: Holder)
    requires Destroyer(h) && Locks(s) && Stamps(s) && Destroys(s, schedule, t, h)
    requires if s.mutation == Some(h) then Progress(start, s, h) else Destroyed(start, s, h)
    ensures if t.mutation == Some(h) then Progress(start, t, h) else Destroyed(start, t, h)
    decreases |schedule|
  {
    hide Locks, Stamps, Next, Progress, Destroyed, OwnStep, DestroysNothing;
    if schedule != [] {
      var mid :| Next(s, schedule[0], mid) && Destroys(mid, schedule[1..], t, h);
      StepKeepsInv(s, schedule[0], mid);
      DestructionStep(start, s, schedule[0], mid, h);
      DestructionRun(start, mid, schedule[1..], t, h);
    }
  }

  // In every run, a delete-all that has taken the mutation lock, and gives it back in
  // any other way than by failing before its commit, has deleted the rows once, and
  // has moved the epoch once or lost the move. So has a prune that found rows.
  lemma {:induction false} DestructionDestroys(before: seq<Action>, s: State, schedule: seq<Action>, t: State,
                                               h: Holder)
    requires Reaches(INIT, before, s) && Destroyer(h) && s.mutation == Some(h)
    requires h.ByReset? ==> h.id in s.resets && s.resets[h.id].Mutating?
    requires h.ByPrune? ==> h.id in s.pruners && s.pruners[h.id].PruneLocked?
    requires Destroys(s, schedule, t, h) && t.mutation != Some(h)
    ensures Destroyed(s, t, h)
  {
    RunsKeepInv(INIT, before, s);
    DestructionRun(s, s, schedule, t, h);
  }

  lemma {:induction false} Then(s: State, a: Action, mid: State, rest: seq<Action>, t: State)
    requires Next(s, a, mid) && Reaches(mid, rest, t)
    ensures Reaches(s, [a] + rest, t)
  {
    assert ([a] + rest)[1..] == rest;
  }

  // A delete-all that finds every lock free deletes the rows, moves the epoch and
  // gives the locks back.
  lemma {:induction false} FreeResetDestroys(s: State, r: Id) returns (schedule: seq<Action>, t: State)
    requires s.policyWriter.None? && s.policyReaders == {} && s.mutation.None? && r !in s.resets
    ensures Reaches(s, schedule, t) && t == s.(wipes := s.wipes + 1, dataEpoch := s.dataEpoch + 1)
  {
    t := s.(wipes := s.wipes + 1, dataEpoch := s.dataEpoch + 1);
    var s1 := s.(resets := s.resets[r := Queued]);
    var s2 := s.(resets := s.resets[r := PolicyHeld], policyWriter := Some(r));
    var s3 := s2.(resets := s.resets[r := Mutating], mutation := Some(ByReset(r)));
    assert s1.resets[r := PolicyHeld] == s2.resets && s2.resets[r := Mutating] == s3.resets;
    schedule := LockedResetDestroys(s, r, s3, t);
    hide Reaches, PolicyInv;
    Then(s2, ResetStep(r, LockForWipe), s3, schedule, t);
    schedule := [ResetStep(r, LockForWipe)] + schedule;
    Then(s1, ResetStep(r, TakePolicy), s2, schedule, t);
    schedule := [ResetStep(r, TakePolicy)] + schedule;
    Then(s, StartReset(r), s1, schedule, t);
    schedule := [StartReset(r)] + schedule;
  }

  lemma {:induction false} LockedResetDestroys(s: State, r: Id, s3: State, t: State) returns (schedule: seq<Action>)
    requires s.policyWriter.None? && s.mutation.None? && r !in s.resets
    requires s3 == s.(resets := s.resets[r := Mutating], policyWriter := Some(r), mutation := Some(ByReset(r)))
    requires t == s.(wipes := s.wipes + 1, dataEpoch := s.dataEpoch + 1)
    ensures Reaches(s3, schedule, t)
  {
    var s4 := s3.(resets := s3.resets[r := Wiped], wipes := s.wipes + 1);
    var s5 := s4.(resets := s4.resets[r := Advanced], dataEpoch := s.dataEpoch + 1);
    var s6 := s5.(resets := s5.resets[r := DroppingPolicy], mutation := None);
    assert s6.resets - {r} == s.resets;
    hide Next, PolicyInv;
    ResetActs(s3, r, Wipe, s4);
    ResetActs(s4, r, AdvanceEpoch, s5);
    ResetActs(s5, r, FinishWipe, s6);
    ResetActs(s6, r, DropPolicy, t);
    Then(s6, ResetStep(r, DropPolicy), t, [], t);
    hide Reaches;
    schedule := [ResetStep(r, DropPolicy)] + [];
    Then(s5, ResetStep(r, FinishWipe), s6, schedule, t);
    schedule := [ResetStep(r, FinishWipe)] + schedule;
    Then(s4, ResetStep(r, AdvanceEpoch), s5, schedule, t);
    schedule := [ResetStep(r, AdvanceEpoch)] + schedule;
    Then(s3, ResetStep(r, Wipe), s4, schedule, t);
    schedule := [ResetStep(r, Wipe)] + schedule;
  }

  lemma ResetActs(s: State, r: Id, a: ResetAction, t: State)
    requires ResetNext(s, r, a, t)
    ensures Next(s, ResetStep(r, a), t)
  {
    hide ResetNext;
  }

  lemma PruneActs(s: State, p: Id, a: PruneAction, t: State)
    requires PruneNext(s, p, a, t)
    ensures Next(s, PruneStep(p, a), t)
  {
    hide PruneNext;
  }

  // So does a prune that finds rows.
  lemma {:induction false} FreePruneDestroys(s: State, p: Id, rows: nat) returns (schedule: seq<Action>, t: State)
    requires s.mutation.None? && p !in s.pruners && rows > 0
    ensures Reaches(s, schedule, t) && t == s.(prunes := s.prunes + 1, dataEpoch := s.dataEpoch + 1)
  {
    t := s.(prunes := s.prunes + 1, dataEpoch := s.dataEpoch + 1);
    var s1 := s.(pruners := s.pruners[p := PruneQueued]);
    var s2 := s.(pruners := s.pruners[p := PruneLocked], mutation := Some(ByPrune(p)));
    assert s1.pruners[p := PruneLocked] == s2.pruners;
    assert Next(s, StartPrune(p), s1);
    hide Next;
    PruneActs(s1, p, LockForPrune, s2);
    schedule := LockedPruneDestroys(s, p, rows, s2, t);
    hide Reaches, PruneNext;
    Then(s1, PruneStep(p, LockForPrune), s2, schedule, t);
    schedule := [PruneStep(p, LockForPrune)] + schedule;
    Then(s, StartPrune(p), s1, schedule, t);
    schedule := [StartPrune(p)] + schedule;
  }

  lemma {:induction false} LockedPruneDestroys(s: State, p: Id, rows: nat, s2: State, t: State)
    returns (schedule: seq<Action>)
    requires s.mutation.None? && p !in s.pruners && rows > 0
    requires s2 == s.(pruners := s.pruners[p := PruneLocked], mutation := Some(ByPrune(p)))
    requires t == s.(prunes := s.prunes + 1, dataEpoch := s.dataEpoch + 1)
    ensures Reaches(s2, schedule, t)
  {
    var s3 := s2.(pruners := s2.pruners[p := PruneDeleted], prunes := s.prunes + 1);
    var s4 := s3.(pruners := s3.pruners[p := PruneDone], dataEpoch := s.dataEpoch + 1);
    assert s4.pruners - {p} == s.pruners;
    hide Next;
    PruneActs(s2, p, DeleteExpired(rows), s3);
    PruneActs(s3, p, AdvancePruneEpoch, s4);
    PruneActs(s4, p, FinishPrune, t);
    Then(s4, PruneStep(p, FinishPrune), t, [], t);
    hide Reaches, PruneNext;
    schedule := [PruneStep(p, FinishPrune)] + [];
    Then(s3, PruneStep(p, AdvancePruneEpoch), s4, schedule, t);
    schedule := [PruneStep(p, AdvancePruneEpoch)] + schedule;
    Then(s2, PruneStep(p, DeleteExpired(rows)), s3, schedule, t);
    schedule := [PruneStep(p, DeleteExpired(rows))] + schedule;
  }

  // A period that nobody overtakes stores its chronicle.
  lemma {:induction false} FreshPeriodCommits(s: State, m: Id) returns (schedule: seq<Action>, t: State)
    requires s.mutation.None? && m !in s.periods
    ensures Reaches(s, schedule, t)
    ensures t == s.(log := s.log + [MemoryWrite(s.wipes, s.prunes, s.lost, s.wipes, s.prunes, s.lost)])
  {
    var period := Began(s);
    var s1 := s.(periods := s.periods[m := period]);
    var s2 := s1.(periods := s1.periods[m := period.(locked := true)], mutation := Some(ByPeriod(m)));
    t := s.(log := s.log + [WriteOf(period, s)]);
    assert s2.periods - {m} == s.periods;
    Then(s2, PeriodStep(m, Commit(true)), t, [], t);
    schedule := [PeriodStep(m, Commit(true))] + [];
    Then(s1, PeriodStep(m, LockForCommit), s2, schedule, t);
    schedule := [PeriodStep(m, LockForCommit)] + schedule;
    Then(s, BeginPeriod(m), s1, schedule, t);
    schedule := [BeginPeriod(m)] + schedule;
  }

  // A candidate held by a task becomes a stored row.
  lemma {:induction false} CandidateCommits(s: State, c: Id, k: Id) returns (schedule: seq<Action>, t: State)
    requires c in s.captures && s.captures[c].pc.Candidate? && s.mutation.None? && k !in s.closures
    ensures Reaches(s, schedule, t)
    ensures t.log == s.log + [CaptureWrite(s.captures[c].pc.oldest, s.wipes)] && t.wipes == s.wipes
  {
    var task := s.captures[c];
    var oldest := task.pc.oldest;
    var s1 := s.(captures := s.captures[c := task.(pc := Locked(oldest))], mutation := Some(ByCapture(c)));
    var s2 := s1.(captures := s1.captures[c := task.(pc := Persisting(k))],
                  closures := s1.closures[k := Closure(oldest, false)], mutation := Some(ByClosure(k)));
    t := s2.(closures := s2.closures[k := Closure(oldest, true)], log := s.log + [CaptureWrite(oldest, s.wipes)]);
    Then(s2, WriteCapture(k, true), t, [], t);
    schedule := [WriteCapture(k, true)] + [];
    Then(s1, CaptureStep(c, SpawnPersist(k)), s2, schedule, t);
    schedule := [CaptureStep(c, SpawnPersist(k))] + schedule;
    Then(s, CaptureStep(c, LockForPersist), s1, schedule, t);
    schedule := [CaptureStep(c, LockForPersist)] + schedule;
  }

  lemma {:induction false} ObservationCommits(s: State, c: Id, k: Id) returns (schedule: seq<Action>, t: State)
    requires c in s.captures && s.captures[c].pc.Refreshed? && s.mutation.None? && k !in s.closures
    ensures Reaches(s, schedule, t)
    ensures t.log == s.log + [CaptureWrite(s.wipes, s.wipes)] && t.wipes == s.wipes
  {
    var task := s.captures[c];
    var s1 := s.(captures := s.captures[c := task.(pc := Observed(s.wipes))]);
    var s2 := s1.(captures := s1.captures[c := task.(pc := Candidate(s.wipes), carried := Some(s.wipes))]);
    schedule, t := CandidateCommits(s2, c, k);
    Then(s1, CaptureStep(c, Process(false)), s2, schedule, t);
    schedule := [CaptureStep(c, Process(false))] + schedule;
    Then(s, CaptureStep(c, Observe), s1, schedule, t);
    schedule := [CaptureStep(c, Observe)] + schedule;
  }

  // So does what a new capture loop observes when nobody holds a lock.
  lemma {:induction false} FreshCaptureCommits(s: State, c: Id, k: Id) returns (schedule: seq<Action>, t: State)
    requires s.policyWriter.None? && s.mutation.None? && c !in s.captures && k !in s.closures
    ensures Reaches(s, schedule, t)
    ensures t.log == s.log + [CaptureWrite(s.wipes, s.wipes)] && t.wipes == s.wipes
  {
    var task := CaptureTask(Resting, s.dataEpoch, None);
    var s1 := s.(captures := s.captures[c := task]);
    var s2 := s1.(captures := s1.captures[c := task.(pc := Leased)], policyReaders := s.policyReaders + {c});
    var s3 := s2.(captures := s2.captures[c := task.(pc := Refreshed)]);
    schedule, t := ObservationCommits(s3, c, k);
    Then(s2, CaptureStep(c, RefreshEpoch), s3, schedule, t);
    schedule := [CaptureStep(c, RefreshEpoch)] + schedule;
    Then(s1, CaptureStep(c, TakeLease), s2, schedule, t);
    schedule := [CaptureStep(c, TakeLease)] + schedule;
    Then(s, StartCapture(c), s1, schedule, t);
    schedule := [StartCapture(c)] + schedule;
  }

  // A prune that fails after its rows are gone lets a period commit what it read
  // before them.
  lemma {:induction false} LostPruneLetsStaleCommit() returns (schedule: seq<Action>, t: State)
    ensures Reaches(INIT, schedule, t) && t.lost == 1 && t.wipes == 0
    ensures |t.log| == 1 && t.log[0].MemoryWrite? && t.log[0].readPrunes < t.log[0].prunesNow
  {
    var period := Period(0, 0, 0, 0, false);
    var s1 := INIT.(periods := map[0 := period]);
    var s2 := s1.(pruners := map[0 := PruneQueued]);
    var s3 := s1.(pruners := map[0 := PruneLocked], mutation := Some(ByPrune(0)));
    var s4 := s1.(pruners := map[0 := PruneDeleted], mutation := Some(ByPrune(0)), prunes := 1);
    var s5 := s1.(prunes := 1, lost := 1);
    schedule, t := OldPeriodCommits(s5, 0, period);
    assert s4.pruners - {0} == map[];
    Then(s4, PruneStep(0, LosePruneEpoch), s5, schedule, t);
    schedule := [PruneStep(0, LosePruneEpoch)] + schedule;
    Then(s3, PruneStep(0, DeleteExpired(1)), s4, schedule, t);
    schedule := [PruneStep(0, DeleteExpired(1))] + schedule;
    Then(s2, PruneStep(0, LockForPrune), s3, schedule, t);
    schedule := [PruneStep(0, LockForPrune)] + schedule;
    Then(s1, StartPrune(0), s2, schedule, t);
    schedule := [StartPrune(0)] + schedule;
    Then(INIT, BeginPeriod(0), s1, schedule, t);
    schedule := [BeginPeriod(0)] + schedule;
  }

  lemma {:induction false} OldPeriodCommits(s: State, m: Id, period: Period) returns (schedule: seq<Action>, t: State)
    requires s.mutation.None? && s.periods == map[m := period] && !period.locked && period.epoch == s.dataEpoch
    ensures Reaches(s, schedule, t) && t == s.(periods := map[], log := s.log + [WriteOf(period, s)])
  {
    var s1 := s.(periods := map[m := period.(locked := true)], mutation := Some(ByPeriod(m)));
    t := s.(periods := map[], log := s.log + [WriteOf(period, s)]);
    assert s1.periods - {m} == map[];
    assert s.periods[m := period.(locked := true)] == s1.periods;
    Then(s1, PeriodStep(m, Commit(true)), t, [], t);
    schedule := [PeriodStep(m, Commit(true))] + [];
    Then(s, PeriodStep(m, LockForCommit), s1, schedule, t);
    schedule := [PeriodStep(m, LockForCommit)] + schedule;
  }
}
