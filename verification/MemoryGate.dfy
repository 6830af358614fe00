// The memory-run gate: background generation runs against destructive resets.
module MemoryGate {
  // Every atomic step of begin_run, of begin_reset and of the two drop glues is
  // an action, and an adversarial scheduler picks the next one. The read/write
  // gate and the two serial mutexes are primitives. A token's cancellation only
  // ever goes up.
  //
  // A biased wait polls the token and then the lock, two steps that anything may
  // come between: a whole reset, too. CancelToken and DropRun are possible at any
  // moment, so they also stand for a run that acts late on a flag it has read.

  import opened Wrappers

  type Id = nat

  datatype RunPc =
    | Registered
    | Checked
    | SerialPolled            // its token was not cancelled; the lock is polled next
    | SerialHeld
    | AwaitGate
    | GatePolled              // the same before the gate
    | GateHeld
    | Admitted                // begin_run has returned the lease
    | Working                 // the run has seen its token not cancelled once more
    | DroppingSerial(serial: bool, gate: bool)
    | DroppingGate(gate: bool)

  datatype MemoryRun = MemoryRun(pc: RunPc, cancelled: bool)

  // A cancellation pass first copies the registered tokens and then cancels
  // them one by one; `todo` are those still to cancel. begin_reset awaits the
  // exclusive gate with an empty first pass. `seen` is what the second pass copied.
  datatype ResetPc =
    | Queued
    | ResetSerialHeld
    | Requested
    | FirstPass(todo: set<Id>)
    | Exclusive
    | SecondPass(todo: set<Id>, seen: set<Id>)
    | LeaseHeld(seen: set<Id>)
    | DroppingRequest(gate: bool)
    | DroppingResetSerial(gate: bool)
    | DroppingExclusive(gate: bool)

  datatype Gate = Gate(
    runs: map<Id, MemoryRun>,
    resets: map<Id, ResetPc>,
    readers: set<Id>,
    writer: Option<Id>,
    runSerial: Option<Id>,
    resetSerial: Option<Id>,
    requested: bool,
    active: set<Id>,
    nextRun: Id)

  const DEFAULT: Gate := Gate(map[], map[], {}, None, None, None, false, {}, 0)

  datatype RunAction =
    | CheckRequested
    | PollSerial
    | TakeRunSerial
    | AwaitRunSerial
    | CheckAfterSerial
    | PollGate
    | TakeGate
    | AwaitRunGate
    | CheckAfterGate
    | BeginWork
    | CancelToken
    | DropRun
    | DropRunSerial
    | DropRunGate

  datatype ResetAction =
    | TakeResetSerial
    | StoreRequested
    | CollectFirst
    | CancelFirst(run: Id)
    | TakeExclusive
    | CollectSecond
    | CancelSecond(run: Id)
    | ReturnLease
    | DropReset
    | DropRequest
    | DropResetSerial
    | DropExclusive

  datatype Action =
    | RegisterRun
    | RunStep(run: Id, runAction: RunAction)
    | QueueReset(reset: Id)
    | ResetStep(reset: Id, resetAction: ResetAction)

  // ------------------------------------------------------- who holds what

  predicate HoldsRunSerial(pc: RunPc) {
    pc.SerialHeld? || pc.AwaitGate? || pc.GatePolled? || InProgress(pc) || (pc.DroppingSerial? && pc.serial)
  }

  // Holding the run gate: admitted, or one check away from it.
  predicate InProgress(pc: RunPc) {
    pc.GateHeld? || pc.Admitted? || pc.Working?
  }

  predicate HoldsGateRead(pc: RunPc) {
    InProgress(pc) || (pc.DroppingSerial? && pc.gate) || (pc.DroppingGate? && pc.gate)
  }

  predicate Dropping(pc: RunPc) { pc.DroppingSerial? || pc.DroppingGate? }

  predicate AwaitsExclusive(pc: ResetPc) { pc.FirstPass? && pc.todo == {} }

  predicate HoldsRequest(pc: ResetPc) {
    !pc.Queued? && !pc.ResetSerialHeld? && !pc.DroppingResetSerial? && !pc.DroppingExclusive?
  }

  predicate HoldsResetSerial(pc: ResetPc) {
    HoldsRequest(pc) || pc.ResetSerialHeld? || pc.DroppingResetSerial?
  }

  predicate HoldsExclusive(pc: ResetPc) {
    match pc
    case Exclusive | SecondPass(_, _) | LeaseHeld(_) => true
    case DroppingRequest(gate) => gate
    case DroppingResetSerial(gate) => gate
    case DroppingExclusive(gate) => gate
    case _ => false
  }

  // ------------------------------------------------------------------ steps

  ghost predicate SetsRun(s: Gate, m: Id, run: MemoryRun, t: Gate) {
    t == s.(runs := s.runs[m := run])
  }

  // MemoryRunLease::drop: cancel the token and unregister; the guards go next.
  ghost predicate StartsDropping(s: Gate, m: Id, t: Gate)
    requires m in s.runs
  {
    var pc := s.runs[m].pc;
    t == s.(runs := s.runs[m := MemoryRun(DroppingSerial(HoldsRunSerial(pc), HoldsGateRead(pc)), true)],
            active := s.active - {m})
  }

  ghost predicate RunNext(s: Gate, m: Id, a: RunAction, t: Gate) {
    m in s.runs &&
    var run := s.runs[m];
    match a
    case CheckRequested =>
      run.pc.Registered? && SetsRun(s, m, MemoryRun(Checked, run.cancelled || s.requested), t)
    case PollSerial => run.pc.Checked? && !run.cancelled && SetsRun(s, m, run.(pc := SerialPolled), t)
    case TakeRunSerial =>
      run.pc.SerialPolled? && s.runSerial.None?
      && t == s.(runs := s.runs[m := run.(pc := SerialHeld)], runSerial := Some(m))
    case AwaitRunSerial => run.pc.SerialPolled? && SetsRun(s, m, run.(pc := Checked), t)
    case CheckAfterSerial =>
      run.pc.SerialHeld?
      && if s.requested then StartsDropping(s, m, t) else SetsRun(s, m, run.(pc := AwaitGate), t)
    case PollGate => run.pc.AwaitGate? && !run.cancelled && SetsRun(s, m, run.(pc := GatePolled), t)
    case TakeGate =>
      run.pc.GatePolled? && s.writer.None?
      && t == s.(runs := s.runs[m := run.(pc := GateHeld)], readers := s.readers + {m})
    case AwaitRunGate => run.pc.GatePolled? && SetsRun(s, m, run.(pc := AwaitGate), t)
    case CheckAfterGate =>
      run.pc.GateHeld?
      && if s.requested then StartsDropping(s, m, t) else SetsRun(s, m, run.(pc := Admitted), t)
    case BeginWork => run.pc.Admitted? && !run.cancelled && SetsRun(s, m, run.(pc := Working), t)
    case CancelToken => SetsRun(s, m, run.(cancelled := true), t)
    case DropRun => !Dropping(run.pc) && StartsDropping(s, m, t)
    case DropRunSerial =>
      run.pc.DroppingSerial?
      && t == s.(runs := s.runs[m := run.(pc := DroppingGate(run.pc.gate))],
                 runSerial := if run.pc.serial then None else s.runSerial)
    case DropRunGate =>
      run.pc.DroppingGate? && t == s.(runs := s.runs - {m}, readers := s.readers - {m})
  }

  function WithCancelled(runs: map<Id, MemoryRun>, m: Id): map<Id, MemoryRun> {
    if m in runs then runs[m := runs[m].(cancelled := true)] else runs
  }

  ghost predicate SetsReset(s: Gate, r: Id, pc: ResetPc, t: Gate) {
    t == s.(resets := s.resets[r := pc])
  }

  ghost predicate ResetNext(s: Gate, r: Id, a: ResetAction, t: Gate) {
    r in s.resets &&
    var pc := s.resets[r];
    match a
    case TakeResetSerial =>
      pc.Queued? && s.resetSerial.None?
      && t == s.(resets := s.resets[r := ResetSerialHeld], resetSerial := Some(r))
    case StoreRequested =>
      pc.ResetSerialHeld? && t == s.(resets := s.resets[r := Requested], requested := true)
    case CollectFirst => pc.Requested? && SetsReset(s, r, FirstPass(s.active), t)
    case CancelFirst(m) =>
      pc.FirstPass? && m in pc.todo
      && t == s.(resets := s.resets[r := FirstPass(pc.todo - {m})], runs := WithCancelled(s.runs, m))
    case TakeExclusive =>
      AwaitsExclusive(pc) && s.writer.None? && s.readers == {}
      && t == s.(resets := s.resets[r := Exclusive], writer := Some(r))
    case CollectSecond => pc.Exclusive? && SetsReset(s, r, SecondPass(s.active, s.active), t)
    case CancelSecond(m) =>
      pc.SecondPass? && m in pc.todo
      && t == s.(resets := s.resets[r := SecondPass(pc.todo - {m}, pc.seen)], runs := WithCancelled(s.runs, m))
    case ReturnLease => pc.SecondPass? && pc.todo == {} && SetsReset(s, r, LeaseHeld(pc.seen), t)
    case DropReset =>
      // begin_reset is dropped at an await point, or its lease is dropped.
      (pc.Queued? && t == s.(resets := s.resets - {r}))
      || (AwaitsExclusive(pc) && SetsReset(s, r, DroppingRequest(false), t))
      || (pc.LeaseHeld? && SetsReset(s, r, DroppingRequest(true), t))
    case DropRequest =>
      pc.DroppingRequest? && t == s.(resets := s.resets[r := DroppingResetSerial(pc.gate)], requested := false)
    case DropResetSerial =>
      pc.DroppingResetSerial? && t == s.(resets := s.resets[r := DroppingExclusive(pc.gate)], resetSerial := None)
    case DropExclusive =>
      pc.DroppingExclusive?
      && t == s.(resets := s.resets - {r}, writer := if pc.gate then None else s.writer)
  }

  ghost predicate Next(s: Gate, a: Action, t: Gate) {
    match a
    case RegisterRun =>
      t == s.(runs := s.runs[s.nextRun := MemoryRun(Registered, false)],
              active := s.active + {s.nextRun}, nextRun := s.nextRun + 1)
    case RunStep(m, action) => RunNext(s, m, action, t)
    case QueueReset(r) => r !in s.resets && SetsReset(s, r, Queued, t)
    case ResetStep(r, action) => ResetNext(s, r, action, t)
  }

  // The schedule leads from s to t, every action being possible in its turn.
  ghost predicate Reaches(s: Gate, schedule: seq<Action>, t: Gate)
    decreases |schedule|
  {
    if schedule == [] then s == t
    else exists mid :: Next(s, schedule[0], mid) && Reaches(mid, schedule[1..], t)
  }

  // ------------------------------------------------------------- invariant

  ghost predicate GateInv(runs: map<Id, MemoryRun>, resets: map<Id, ResetPc>, readers: set<Id>, writer: Option<Id>) {
    && readers <= runs.Keys
    && (forall m | m in runs :: m in readers <==> HoldsGateRead(runs[m].pc))
    && (forall r | r in resets :: writer == Some(r) <==> HoldsExclusive(resets[r]))
    && (writer.Some? ==> writer.value in resets && readers == {})
  }

  ghost predicate RunSerialInv(runs: map<Id, MemoryRun>, holder: Option<Id>) {
    && (forall m | m in runs :: holder == Some(m) <==> HoldsRunSerial(runs[m].pc))
    && (holder.Some? ==> holder.value in runs)
  }

  ghost predicate ResetSerialInv(resets: map<Id, ResetPc>, holder: Option<Id>, requested: bool) {
    && (forall r | r in resets :: holder == Some(r) <==> HoldsResetSerial(resets[r]))
    && (holder.Some? ==> holder.value in resets)
    && (requested <==> holder.Some? && HoldsRequest(resets[holder.value]))
  }

  ghost predicate TokenInv(runs: map<Id, MemoryRun>, active: set<Id>, nextRun: Id) {
    && active <= runs.Keys
    && (forall m | m in runs :: m < nextRun && (m in active <==> !Dropping(runs[m].pc)))
    && (forall m | m in runs && Dropping(runs[m].pc) :: runs[m].cancelled)
  }

  // Once the first pass has copied the tokens, a run is about to be cancelled
  // by it, or cancelled, or registered so late that it will cancel itself,
  // because the request flag is still up.
  ghost predicate SweepInv(runs: map<Id, MemoryRun>, nextRun: Id, pc: ResetPc) {
    && (pc.FirstPass? || pc.Exclusive? || pc.SecondPass? || pc.LeaseHeld? ==>
          forall m | m in runs ::
            runs[m].pc.Registered? || runs[m].cancelled || (pc.FirstPass? && m in pc.todo))
    && (pc.SecondPass? || pc.LeaseHeld? ==> forall m | m in pc.seen :: m < nextRun)
    && (pc.SecondPass? ==> forall m | m in runs && m in pc.seen && m !in pc.todo :: runs[m].cancelled)
    && (pc.LeaseHeld? ==> forall m | m in runs && m in pc.seen :: runs[m].cancelled)
  }

  ghost predicate SweepsInv(s: Gate) {
    forall r | r in s.resets :: SweepInv(s.runs, s.nextRun, s.resets[r])
  }

  ghost predicate Inv(s: Gate) {
    && GateInv(s.runs, s.resets, s.readers, s.writer)
    && RunSerialInv(s.runs, s.runSerial)
    && ResetSerialInv(s.resets, s.resetSerial, s.requested)
    && TokenInv(s.runs, s.active, s.nextRun)
    && SweepsInv(s)
  }

  lemma {:induction false} StepKeepsGate(s: Gate, a: Action, t: Gate)
    requires GateInv(s.runs, s.resets, s.readers, s.writer) && TokenInv(s.runs, s.active, s.nextRun) && Next(s, a, t)
    ensures GateInv(t.runs, t.resets, t.readers, t.writer)
  {
    match a
    case RunStep(m, action) => RunKeepsGate(s, m, action, t);
    case ResetStep(r, action) => ResetKeepsGate(s, r, action, t);
    case _ =>
  }

  lemma {:induction false} RunKeepsGate(s: Gate, m: Id, a: RunAction, t: Gate)
    requires GateInv(s.runs, s.resets, s.readers, s.writer) && RunNext(s, m, a, t)
    ensures GateInv(t.runs, t.resets, t.readers, t.writer)
  {
    match a
    case TakeGate => GateTaken(s.runs, s.resets, s.readers, m, t.runs[m]);
    case DropRunGate => GateLeft(s.runs, s.resets, s.readers, s.writer, m);
    case _ =>
      assert HoldsGateRead(t.runs[m].pc) == HoldsGateRead(s.runs[m].pc);
      hide GateInv;
      GateKept(s.runs, s.resets, s.readers, s.writer, m, t.runs[m]);
  }

  lemma GateTaken(runs: map<Id, MemoryRun>, resets: map<Id, ResetPc>, readers: set<Id>, m: Id, run: MemoryRun)
    requires GateInv(runs, resets, readers, None) && m in runs && HoldsGateRead(run.pc)
    ensures GateInv(runs[m := run], resets, readers + {m}, None)
  {
    hide HoldsGateRead, HoldsExclusive;
  }

  lemma GateLeft(runs: map<Id, MemoryRun>, resets: map<Id, ResetPc>, readers: set<Id>, writer: Option<Id>, m: Id)
    requires GateInv(runs, resets, readers, writer) && m in runs
    ensures GateInv(runs - {m}, resets, readers - {m}, writer)
  {
    hide HoldsGateRead, HoldsExclusive;
  }

  // A run that moves on without taking or leaving the gate.
  lemma GateKept(runs: map<Id, MemoryRun>, resets: map<Id, ResetPc>, readers: set<Id>, writer: Option<Id>, m: Id,
                 run: MemoryRun)
    requires GateInv(runs, resets, readers, writer) && m in runs
    requires HoldsGateRead(run.pc) == HoldsGateRead(runs[m].pc)
    ensures GateInv(runs[m := run], resets, readers, writer)
  {
    hide HoldsGateRead, HoldsExclusive;
  }

  lemma {:induction false} ResetKeepsGate(s: Gate, r: Id, a: ResetAction, t: Gate)
    requires GateInv(s.runs, s.resets, s.readers, s.writer) && ResetNext(s, r, a, t)
    ensures GateInv(t.runs, t.resets, t.readers, t.writer)
  {
  }

  lemma {:induction false} StepKeepsRunSerial(s: Gate, a: Action, t: Gate)
    requires RunSerialInv(s.runs, s.runSerial) && TokenInv(s.runs, s.active, s.nextRun) && Next(s, a, t)
    ensures RunSerialInv(t.runs, t.runSerial)
  {
    match a
    case RunStep(m, action) => RunKeepsRunSerial(s, m, action, t);
    case ResetStep(r, action) => ResetKeepsRunSerial(s, r, action, t);
    case _ =>
  }

  lemma {:induction false} RunKeepsRunSerial(s: Gate, m: Id, a: RunAction, t: Gate)
    requires RunSerialInv(s.runs, s.runSerial) && RunNext(s, m, a, t)
    ensures RunSerialInv(t.runs, t.runSerial)
  {
  }

  lemma {:induction false} ResetKeepsRunSerial(s: Gate, r: Id, a: ResetAction, t: Gate)
    requires RunSerialInv(s.runs, s.runSerial) && ResetNext(s, r, a, t)
    ensures RunSerialInv(t.runs, t.runSerial)
  {
  }

  lemma {:induction false} StepKeepsResetSerial(s: Gate, a: Action, t: Gate)
    requires ResetSerialInv(s.resets, s.resetSerial, s.requested) && Next(s, a, t)
    ensures ResetSerialInv(t.resets, t.resetSerial, t.requested)
  {
    match a
    case RunStep(m, action) => RunKeepsResetSerial(s, m, action, t);
    case ResetStep(r, action) => ResetKeepsResetSerial(s, r, action, t);
    case _ =>
  }

  lemma {:induction false} RunKeepsResetSerial(s: Gate, m: Id, a: RunAction, t: Gate)
    requires ResetSerialInv(s.resets, s.resetSerial, s.requested) && RunNext(s, m, a, t)
    ensures ResetSerialInv(t.resets, t.resetSerial, t.requested)
  {
  }

  lemma {:induction false} ResetKeepsResetSerial(s: Gate, r: Id, a: ResetAction, t: Gate)
    requires ResetSerialInv(s.resets, s.resetSerial, s.requested) && ResetNext(s, r, a, t)
    ensures ResetSerialInv(t.resets, t.resetSerial, t.requested)
  {
  }

  lemma {:induction false} StepKeepsTokens(s: Gate, a: Action, t: Gate)
    requires TokenInv(s.runs, s.active, s.nextRun) && Next(s, a, t)
    ensures TokenInv(t.runs, t.active, t.nextRun)
  {
    match a
    case RunStep(m, action) => RunKeepsTokens(s, m, action, t);
    case ResetStep(r, action) => ResetKeepsTokens(s, r, action, t);
    case _ =>
  }

  lemma {:induction false} RunKeepsTokens(s: Gate, m: Id, a: RunAction, t: Gate)
    requires TokenInv(s.runs, s.active, s.nextRun) && RunNext(s, m, a, t)
    ensures TokenInv(t.runs, t.active, t.nextRun)
  {
  }

  lemma {:induction false} ResetKeepsTokens(s: Gate, r: Id, a: ResetAction, t: Gate)
    requires TokenInv(s.runs, s.active, s.nextRun) && ResetNext(s, r, a, t)
    ensures TokenInv(t.runs, t.active, t.nextRun)
  {
  }

  lemma {:induction false} StepKeepsSweeps(s: Gate, a: Action, t: Gate)
    requires ResetSerialInv(s.resets, s.resetSerial, s.requested)
    requires TokenInv(s.runs, s.active, s.nextRun) && SweepsInv(s) && Next(s, a, t)
    ensures SweepsInv(t)
  {
    match a
    case RunStep(m, action) => RunKeepsSweeps(s, m, action, t);
    case ResetStep(r, action) => ResetKeepsSweeps(s, r, action, t);
    case _ =>
  }

  lemma {:induction false} RunKeepsSweeps(s: Gate, m: Id, a: RunAction, t: Gate)
    requires ResetSerialInv(s.resets, s.resetSerial, s.requested) && SweepsInv(s) && RunNext(s, m, a, t)
    ensures SweepsInv(t)
  {
    hide ResetSerialInv;
    forall r | r in t.resets
      ensures SweepInv(t.runs, t.nextRun, t.resets[r])
    {
      hide SweepInv;
      var pc := s.resets[r];
      SweepIsRequested(s.resets, s.resetSerial, s.requested, r);
      if a.DropRunGate? {
        RunGoesFromSweep(s.runs, s.nextRun, pc, m);
      } else {
        RunStaysSwept(s.runs, s.nextRun, pc, m, t.runs[m]);
      }
    }
  }

  lemma SweepIsRequested(resets: map<Id, ResetPc>, holder: Option<Id>, requested: bool, r: Id)
    requires ResetSerialInv(resets, holder, requested) && r in resets
    ensures Sweeping(resets[r]) ==> requested
  {
  }

  predicate Sweeping(pc: ResetPc) { pc.FirstPass? || pc.Exclusive? || pc.SecondPass? || pc.LeaseHeld? }

  lemma RunGoesFromSweep(runs: map<Id, MemoryRun>, nextRun: Id, pc: ResetPc, m: Id)
    requires SweepInv(runs, nextRun, pc)
    ensures SweepInv(runs - {m}, nextRun, pc)
  {
  }

  // A run that moves on keeps its cancellation; while a sweep is on it leaves its
  // first check only with one.
  lemma RunStaysSwept(runs: map<Id, MemoryRun>, nextRun: Id, pc: ResetPc, m: Id, run: MemoryRun)
    requires SweepInv(runs, nextRun, pc) && m in runs && (runs[m].cancelled ==> run.cancelled)
    requires Sweeping(pc) && runs[m].pc.Registered? ==> run.pc.Registered? || run.cancelled
    ensures SweepInv(runs[m := run], nextRun, pc)
  {
  }

  lemma {:induction false} ResetKeepsSweeps(s: Gate, r: Id, a: ResetAction, t: Gate)
    requires TokenInv(s.runs, s.active, s.nextRun) && SweepsInv(s) && ResetNext(s, r, a, t)
    ensures SweepsInv(t)
  {
  }

  lemma {:induction false} StepKeepsInv(s: Gate, a: Action, t: Gate)
    requires Inv(s) && Next(s, a, t)
    ensures Inv(t)
  {
    StepKeepsGate(s, a, t);
    StepKeepsRunSerial(s, a, t);
    StepKeepsResetSerial(s, a, t);
    StepKeepsTokens(s, a, t);
    StepKeepsSweeps(s, a, t);
  }

  lemma {:induction false} RunsKeepInv(s: Gate, schedule: seq<Action>, t: Gate)
    requires Inv(s) && Reaches(s, schedule, t)
    ensures Inv(t)
    decreases |schedule|
  {
    if schedule != [] {
      var mid :| Next(s, schedule[0], mid) && Reaches(mid, schedule[1..], t);
      StepKeepsInv(s, schedule[0], mid);
      RunsKeepInv(mid, schedule[1..], t);
    }
  }

  // ---------------------------------------------------------- main results

  // Between begin_reset's return and the drop of its lease, no run is admitted
  // or about to be, every run the second pass found has a cancelled token, and
  // every other run is cancelled or still ahead of a check that will cancel it.
  lemma {:induction false} LeaseExcludesRuns(schedule: seq<Action>, t: Gate, r: Id)
    requires Reaches(DEFAULT, schedule, t)
    requires r in t.resets && t.resets[r].LeaseHeld?
    ensures t.requested
    ensures forall m | m in t.runs :: !InProgress(t.runs[m].pc)
    ensures forall m | m in t.runs && m in t.resets[r].seen :: t.runs[m].cancelled
    ensures forall m | m in t.runs :: t.runs[m].cancelled || t.runs[m].pc.Registered?
    ensures forall q | q in t.resets && t.resets[q].LeaseHeld? :: q == r
  {
    RunsKeepInv(DEFAULT, schedule, t);
    assert SweepInv(t.runs, t.nextRun, t.resets[r]);
    assert t.writer == Some(r) && t.resetSerial == Some(r);
    forall m | m in t.runs ensures !InProgress(t.runs[m].pc) {
      assert m !in t.readers;
    }
  }

  // Generation runs never overlap, so one run at a time owns the key cache.
  lemma {:induction false} RunsAreSerial(schedule: seq<Action>, t: Gate, m: Id, n: Id)
    requires Reaches(DEFAULT, schedule, t)
    requires m in t.runs && InProgress(t.runs[m].pc) && n in t.runs && InProgress(t.runs[n].pc)
    ensures m == n
  {
    RunsKeepInv(DEFAULT, schedule, t);
    assert t.runSerial == Some(m) && t.runSerial == Some(n);
  }

  // What a reset waits for at the exclusive gate has been told to stop: every
  // run holding the gate has a cancelled token.
  lemma {:induction false} WaitingResetHasCancelledRuns(schedule: seq<Action>, t: Gate, r: Id)
    requires Reaches(DEFAULT, schedule, t)
    requires r in t.resets && AwaitsExclusive(t.resets[r])
    ensures t.requested
    ensures forall m | m in t.runs && HoldsGateRead(t.runs[m].pc) :: t.runs[m].cancelled
  {
    RunsKeepInv(DEFAULT, schedule, t);
    assert SweepInv(t.runs, t.nextRun, t.resets[r]);
  }

  // With nobody left, the gate is as it was built.
  lemma {:induction false} QuiescentGateIsDefault(schedule: seq<Action>, t: Gate)
    requires Reaches(DEFAULT, schedule, t)
    requires t.runs == map[] && t.resets == map[]
    ensures t == DEFAULT.(nextRun := t.nextRun)
  {
    RunsKeepInv(DEFAULT, schedule, t);
  }

  lemma {:induction false} Then(s: Gate, a: Action, mid: Gate, rest: seq<Action>, t: Gate)
    requires Next(s, a, mid) && Reaches(mid, rest, t)
    ensures Reaches(s, [a] + rest, t)
  {
    assert ([a] + rest)[1..] == rest;
  }

  function DropOfReset(r: Id): seq<Action> {
    [ResetStep(r, DropReset)]
    + ([ResetStep(r, DropRequest)] + ([ResetStep(r, DropResetSerial)] + ([ResetStep(r, DropExclusive)] + [])))
  }

  function DropOfRun(m: Id): seq<Action> {
    [RunStep(m, DropRun)] + ([RunStep(m, DropRunSerial)] + ([RunStep(m, DropRunGate)] + []))
  }

  // Dropping a reset at an await point, or dropping its lease, never waits and
  // gives back exactly what the reset had taken.
  lemma {:induction false} DroppedResetRestoresGate(s: Gate, r: Id) returns (t: Gate)
    requires Inv(s) && r in s.resets
    requires AwaitsExclusive(s.resets[r]) || s.resets[r].LeaseHeld?
    ensures Reaches(s, DropOfReset(r), t)
    ensures t == s.(resets := s.resets - {r}, requested := false, resetSerial := None,
                    writer := if s.resets[r].LeaseHeld? then None else s.writer)
  {
    var gate := s.resets[r].LeaseHeld?;
    var s1 := s.(resets := s.resets[r := DroppingRequest(gate)]);
    t := UnwoundReset(s1, r, gate);
    Then(s, ResetStep(r, DropReset), s1,
         [ResetStep(r, DropRequest)] + ([ResetStep(r, DropResetSerial)] + ([ResetStep(r, DropExclusive)] + [])), t);
    assert s1.resets - {r} == s.resets - {r};
  }

  lemma {:induction false} UnwoundReset(s: Gate, r: Id, gate: bool) returns (t: Gate)
    requires r in s.resets && s.resets[r] == DroppingRequest(gate)
    ensures Reaches(s, [ResetStep(r, DropRequest)]
                    + ([ResetStep(r, DropResetSerial)] + ([ResetStep(r, DropExclusive)] + [])), t)
    ensures t == s.(resets := s.resets - {r}, requested := false, resetSerial := None,
                    writer := if gate then None else s.writer)
  {
    var s2 := s.(resets := s.resets[r := DroppingResetSerial(gate)], requested := false);
    var s3 := s2.(resets := s2.resets[r := DroppingExclusive(gate)], resetSerial := None);
    t := s3.(resets := s3.resets - {r}, writer := if gate then None else s3.writer);
    Then(s3, ResetStep(r, DropExclusive), t, [], t);
    Then(s2, ResetStep(r, DropResetSerial), s3, [ResetStep(r, DropExclusive)] + [], t);
    Then(s, ResetStep(r, DropRequest), s2, [ResetStep(r, DropResetSerial)] + ([ResetStep(r, DropExclusive)] + []), t);
    assert t.resets == s.resets - {r};
  }

  // The same for a run lease, at any point of begin_run or afterwards.
  lemma {:induction false} DroppedRunRestoresGate(s: Gate, m: Id) returns (t: Gate)
    requires Inv(s) && m in s.runs && !Dropping(s.runs[m].pc)
    ensures Reaches(s, DropOfRun(m), t)
    ensures t == s.(runs := s.runs - {m}, active := s.active - {m}, readers := s.readers - {m},
                    runSerial := if s.runSerial == Some(m) then None else s.runSerial)
  {
    var pc := s.runs[m].pc;
    var serial, gate := HoldsRunSerial(pc), HoldsGateRead(pc);
    var s1 := s.(runs := s.runs[m := MemoryRun(DroppingSerial(serial, gate), true)], active := s.active - {m});
    t := UnwoundRun(s1, m, serial, gate);
    Then(s, RunStep(m, DropRun), s1, [RunStep(m, DropRunSerial)] + ([RunStep(m, DropRunGate)] + []), t);
    assert s1.runs - {m} == s.runs - {m};
  }

  lemma {:induction false} UnwoundRun(s: Gate, m: Id, serial: bool, gate: bool) returns (t: Gate)
    requires m in s.runs && s.runs[m] == MemoryRun(DroppingSerial(serial, gate), true)
    ensures Reaches(s, [RunStep(m, DropRunSerial)] + ([RunStep(m, DropRunGate)] + []), t)
    ensures t == s.(runs := s.runs - {m}, readers := s.readers - {m}, runSerial := if serial then None else s.runSerial)
  {
    var s1 := s.(runs := s.runs[m := MemoryRun(DroppingGate(gate), true)],
                 runSerial := if serial then None else s.runSerial);
    t := s1.(runs := s1.runs - {m}, readers := s1.readers - {m});
    Then(s1, RunStep(m, DropRunGate), t, [], t);
    Then(s, RunStep(m, DropRunSerial), s1, [RunStep(m, DropRunGate)] + [], t);
    assert t.runs == s.runs - {m};
  }

  // ------------------------------------------------------- after the reset

  // A doomed run holds a cancelled token and has not polled it for the gate before
  // that.
  ghost predicate Doomed(s: Gate, m: Id) {
    m < s.nextRun && (m in s.runs ==> s.runs[m].cancelled && !InProgress(s.runs[m].pc) && !s.runs[m].pc.GatePolled?)
  }

  lemma {:induction false} StepKeepsDoomed(s: Gate, a: Action, t: Gate, m: Id)
    requires Doomed(s, m) && Next(s, a, t)
    ensures Doomed(t, m)
  {
    match a
    case RunStep(k, action) => RunKeepsDoomed(s, k, action, t, m);
    case ResetStep(r, action) => ResetKeepsDoomed(s, r, action, t, m);
    case _ =>
  }

  lemma {:induction false} RunKeepsDoomed(s: Gate, k: Id, a: RunAction, t: Gate, m: Id)
    requires Doomed(s, m) && RunNext(s, k, a, t)
    ensures Doomed(t, m)
  {
  }

  lemma {:induction false} ResetKeepsDoomed(s: Gate, r: Id, a: ResetAction, t: Gate, m: Id)
    requires Doomed(s, m) && ResetNext(s, r, a, t)
    ensures Doomed(t, m)
  {
  }

  lemma {:induction false} RunsKeepDoomed(s: Gate, schedule: seq<Action>, t: Gate, m: Id)
    requires Doomed(s, m) && Reaches(s, schedule, t)
    ensures Doomed(t, m)
    decreases |schedule|
  {
    if schedule != [] {
      var mid :| Next(s, schedule[0], mid) && Reaches(mid, schedule[1..], t);
      StepKeepsDoomed(s, schedule[0], mid, m);
      RunsKeepDoomed(mid, schedule[1..], t, m);
    }
  }

  // An idle run holds a cancelled token and does not work.
  ghost predicate Idle(s: Gate, m: Id) {
    m < s.nextRun && (m in s.runs ==> s.runs[m].cancelled && !s.runs[m].pc.Working?)
  }

  lemma {:induction false} StepKeepsIdle(s: Gate, a: Action, t: Gate, m: Id)
    requires Idle(s, m) && Next(s, a, t)
    ensures Idle(t, m)
  {
    match a
    case RunStep(k, action) => RunKeepsIdle(s, k, action, t, m);
    case ResetStep(r, action) => ResetKeepsIdle(s, r, action, t, m);
    case _ =>
  }

  lemma {:induction false} RunKeepsIdle(s: Gate, k: Id, a: RunAction, t: Gate, m: Id)
    requires Idle(s, m) && RunNext(s, k, a, t)
    ensures Idle(t, m)
  {
  }

  lemma {:induction false} ResetKeepsIdle(s: Gate, r: Id, a: ResetAction, t: Gate, m: Id)
    requires Idle(s, m) && ResetNext(s, r, a, t)
    ensures Idle(t, m)
  {
  }

  lemma {:induction false} RunsKeepIdle(s: Gate, schedule: seq<Action>, t: Gate, m: Id)
    requires Idle(s, m) && Reaches(s, schedule, t)
    ensures Idle(t, m)
    decreases |schedule|
  {
    if schedule != [] {
      var mid :| Next(s, schedule[0], mid) && Reaches(mid, schedule[1..], t);
      StepKeepsIdle(s, schedule[0], mid, m);
      RunsKeepIdle(mid, schedule[1..], t, m);
    }
  }

  lemma SweptIsCancelled(before: seq<Action>, s: Gate, r: Id, m: Id)
    requires Reaches(DEFAULT, before, s)
    requires r in s.resets && s.resets[r].LeaseHeld? && m in s.resets[r].seen
    ensures m < s.nextRun && (m in s.runs ==> s.runs[m].cancelled && !InProgress(s.runs[m].pc))
  {
    LeaseExcludesRuns(before, s, r);
    RunsKeepInv(DEFAULT, before, s);
    assert SweepInv(s.runs, s.nextRun, s.resets[r]);
  }

  // Whatever comes after, a run that the second pass found keeps a cancelled token
  // and never works, and it does not even hold the gate while a reset lease is held.
  lemma {:induction false} SweptRunNeverWorks(before: seq<Action>, s: Gate, r: Id, m: Id, after: seq<Action>, t: Gate)
    requires Reaches(DEFAULT, before, s) && Reaches(s, after, t)
    requires r in s.resets && s.resets[r].LeaseHeld? && m in s.resets[r].seen
    ensures m in t.runs ==> t.runs[m].cancelled && !t.runs[m].pc.Working?
    ensures forall q | q in t.resets && t.resets[q].LeaseHeld? :: m in t.runs ==> !InProgress(t.runs[m].pc)
  {
    SweptIsCancelled(before, s, r, m);
    RunsKeepIdle(s, after, t, m);
    Steps(DEFAULT, before, s, after, t);
    forall q | q in t.resets && t.resets[q].LeaseHeld?
      ensures m in t.runs ==> !InProgress(t.runs[m].pc)
    {
      LeaseExcludesRuns(before + after, t, q);
    }
  }

  ghost predicate EverInProgress(s: Gate, m: Id) {
    exists after: seq<Action>, t: Gate :: Reaches(s, after, t) && m in t.runs && InProgress(t.runs[m].pc)
  }

  // Once the lease is gone such a run may still be admitted: exactly when it had
  // polled its token, but not yet the gate.
  lemma {:induction false} SweptRunIsAdmittedIff(before: seq<Action>, s: Gate, r: Id, m: Id)
    requires Reaches(DEFAULT, before, s)
    requires r in s.resets && s.resets[r].LeaseHeld? && m in s.resets[r].seen
    ensures EverInProgress(s, m) <==> m in s.runs && s.runs[m].pc.GatePolled?
  {
    hide Next, Reaches, Inv, DropOfReset;
    DefaultIsValid();
    SweptIsCancelled(before, s, r, m);
    RunsKeepInv(DEFAULT, before, s);
    if m in s.runs && s.runs[m].pc.GatePolled? {
      var t := PolledRunIsAdmitted(s, r, m);
    } else if EverInProgress(s, m) {
      var after: seq<Action>, t: Gate :| Reaches(s, after, t) && m in t.runs && InProgress(t.runs[m].pc);
      RunsKeepDoomed(s, after, t, m);
    }
  }

  lemma {:induction false} PolledRunIsAdmitted(s: Gate, r: Id, m: Id) returns (t: Gate)
    requires Inv(s) && r in s.resets && s.resets[r].LeaseHeld?
    requires m in s.runs && s.runs[m].pc.GatePolled?
    ensures Reaches(s, DropOfReset(r) + ([RunStep(m, TakeGate)] + ([RunStep(m, CheckAfterGate)] + [])), t)
    ensures t == s.(resets := s.resets - {r}, requested := false, resetSerial := None, writer := None,
                    runs := s.runs[m := s.runs[m].(pc := Admitted)], readers := s.readers + {m})
  {
    var free := DroppedResetRestoresGate(s, r);
    hide Inv;
    var held := free.(runs := s.runs[m := s.runs[m].(pc := GateHeld)], readers := free.readers + {m});
    t := held.(runs := held.runs[m := held.runs[m].(pc := Admitted)]);
    assert t.runs == s.runs[m := s.runs[m].(pc := Admitted)];
    Then(held, RunStep(m, CheckAfterGate), t, [], t);
    Then(free, RunStep(m, TakeGate), held, [RunStep(m, CheckAfterGate)] + [], t);
    Steps(s, DropOfReset(r), free, [RunStep(m, TakeGate)] + ([RunStep(m, CheckAfterGate)] + []), t);
  }

  // ------------------------------------------------- nobody waits for nothing

  // A run that owns the serial lock goes on to be admitted.
  lemma {:induction false} SerialRunIsAdmitted(s: Gate, m: Id) returns (schedule: seq<Action>, t: Gate)
    requires m in s.runs && s.runs[m] == MemoryRun(SerialHeld, false) && s.writer.None? && !s.requested
    ensures Reaches(s, schedule, t)
    ensures t == s.(runs := s.runs[m := MemoryRun(Admitted, false)], readers := s.readers + {m})
  {
    var s1 := s.(runs := s.runs[m := MemoryRun(AwaitGate, false)]);
    var s2 := s1.(runs := s1.runs[m := MemoryRun(GatePolled, false)]);
    var s3 := s2.(runs := s2.runs[m := MemoryRun(GateHeld, false)], readers := s.readers + {m});
    t := s3.(runs := s3.runs[m := MemoryRun(Admitted, false)]);
    Then(s3, RunStep(m, CheckAfterGate), t, [], t);
    schedule := [RunStep(m, CheckAfterGate)] + [];
    Then(s2, RunStep(m, TakeGate), s3, schedule, t);
    schedule := [RunStep(m, TakeGate)] + schedule;
    Then(s1, RunStep(m, PollGate), s2, schedule, t);
    schedule := [RunStep(m, PollGate)] + schedule;
    Then(s, RunStep(m, CheckAfterSerial), s1, schedule, t);
    schedule := [RunStep(m, CheckAfterSerial)] + schedule;
    assert t.runs == s.runs[m := MemoryRun(Admitted, false)];
  }

  // A new run comes to own a free serial lock.
  lemma {:induction false} NewRunTakesSerial(s: Gate) returns (schedule: seq<Action>, t: Gate)
    requires s.runSerial.None? && !s.requested
    ensures Reaches(s, schedule, t)
    ensures var m := s.nextRun;
            t == s.(runs := s.runs[m := MemoryRun(SerialHeld, false)], active := s.active + {m},
                    runSerial := Some(m), nextRun := m + 1)
  {
    var m := s.nextRun;
    var s1 := s.(runs := s.runs[m := MemoryRun(Registered, false)], active := s.active + {m}, nextRun := m + 1);
    var s2 := s1.(runs := s1.runs[m := MemoryRun(Checked, false)]);
    var s3 := s2.(runs := s2.runs[m := MemoryRun(SerialPolled, false)]);
    t := s3.(runs := s3.runs[m := MemoryRun(SerialHeld, false)], runSerial := Some(m));
    Then(s3, RunStep(m, TakeRunSerial), t, [], t);
    schedule := [RunStep(m, TakeRunSerial)] + [];
    Then(s2, RunStep(m, PollSerial), s3, schedule, t);
    schedule := [RunStep(m, PollSerial)] + schedule;
    Then(s1, RunStep(m, CheckRequested), s2, schedule, t);
    schedule := [RunStep(m, CheckRequested)] + schedule;
    Then(s, RegisterRun, s1, schedule, t);
    schedule := [RegisterRun] + schedule;
    assert t.runs == s.runs[m := MemoryRun(SerialHeld, false)];
  }

  // With no reset about and no other run ahead of it, a new run is admitted and works.
  lemma {:induction false} FreeGateAdmitsRun(s: Gate) returns (schedule: seq<Action>, t: Gate)
    requires s.writer.None? && s.runSerial.None? && !s.requested
    ensures Reaches(s, schedule, t)
    ensures var m := s.nextRun;
            t == s.(runs := s.runs[m := MemoryRun(Working, false)], active := s.active + {m},
                    readers := s.readers + {m}, runSerial := Some(m), nextRun := m + 1)
  {
    var m := s.nextRun;
    var first, mid := NewRunTakesSerial(s);
    var second, admitted := SerialRunIsAdmitted(mid, m);
    t := admitted.(runs := admitted.runs[m := MemoryRun(Working, false)]);
    Then(admitted, RunStep(m, BeginWork), t, [], t);
    assert t.runs == s.runs[m := MemoryRun(Working, false)];
    schedule := first + second + ([RunStep(m, BeginWork)] + []);
    hide *;
    Steps(s, first, mid, second, admitted);
    Steps(s, first + second, admitted, [RunStep(m, BeginWork)] + [], t);
  }

  lemma {:induction false} Steps(s: Gate, first: seq<Action>, mid: Gate, rest: seq<Action>, t: Gate)
    requires Reaches(s, first, mid) && Reaches(mid, rest, t)
    ensures Reaches(s, first + rest, t)
    decreases |first|
  {
    if first == [] {
      assert first + rest == rest;
    } else {
      var next :| Next(s, first[0], next) && Reaches(next, first[1..], mid);
      hide Next;
      Steps(next, first[1..], mid, rest, t);
      assert (first + rest)[1..] == first[1..] + rest;
    }
  }

  // A cancellation pass comes to its end, and cancels what it had copied.
  lemma {:induction false} PassEnds(s: Gate, r: Id) returns (schedule: seq<Action>, t: Gate)
    requires r in s.resets && (s.resets[r].FirstPass? || s.resets[r].SecondPass?)
    ensures Reaches(s, schedule, t)
    ensures t == s.(runs := t.runs, resets := s.resets[r := s.resets[r].(todo := {})])
    ensures forall m | m in t.runs && m in s.resets[r].todo :: t.runs[m].cancelled
    ensures t.runs.Keys == s.runs.Keys
    ensures forall m | m in s.runs :: t.runs[m].pc == s.runs[m].pc && (s.runs[m].cancelled ==> t.runs[m].cancelled)
    decreases |s.resets[r].todo|
  {
    if s.resets[r].todo == {} {
      schedule, t := [], s;
      assert s.resets == s.resets[r := s.resets[r].(todo := {})];
    } else {
      var m := HasElement(s.resets[r].todo);
      var less := s.resets[r].(todo := s.resets[r].todo - {m});
      var mid := s.(resets := s.resets[r := less], runs := WithCancelled(s.runs, m));
      var a := ResetStep(r, if s.resets[r].FirstPass? then CancelFirst(m) else CancelSecond(m));
      schedule, t := PassEnds(mid, r);
      Then(s, a, mid, schedule, t);
      schedule := [a] + schedule;
      assert mid.resets[r := less.(todo := {})] == s.resets[r := less.(todo := {})];
    }
  }

  // With no other reset about and no run holding the gate, a reset gets its lease,
  // and every run it found then has a cancelled token.
  lemma {:induction false} FreeGateGrantsLease(s: Gate, r: Id) returns (schedule: seq<Action>, t: Gate)
    requires s.writer.None? && s.resetSerial.None? && s.readers == {} && r !in s.resets
    ensures Reaches(s, schedule, t)
    ensures r in t.resets && t.resets[r] == LeaseHeld(s.active)
    ensures forall m | m in t.runs && m in s.active :: t.runs[m].cancelled
    ensures t.runs.Keys == s.runs.Keys && forall m | m in s.runs :: t.runs[m].pc == s.runs[m].pc
  {
    var s1 := s.(resets := s.resets[r := Queued]);
    var s2 := s1.(resets := s1.resets[r := ResetSerialHeld], resetSerial := Some(r));
    var s3 := s2.(resets := s2.resets[r := Requested], requested := true);
    var s4 := s3.(resets := s3.resets[r := FirstPass(s.active)]);
    Then(s3, ResetStep(r, CollectFirst), s4, [], s4);
    Then(s2, ResetStep(r, StoreRequested), s3, [ResetStep(r, CollectFirst)] + [], s4);
    schedule := [ResetStep(r, StoreRequested)] + ([ResetStep(r, CollectFirst)] + []);
    Then(s1, ResetStep(r, TakeResetSerial), s2, schedule, s4);
    schedule := [ResetStep(r, TakeResetSerial)] + schedule;
    Then(s, QueueReset(r), s1, schedule, s4);
    schedule := [QueueReset(r)] + schedule;
    var first, s5 := PassEnds(s4, r);
    var s6 := s5.(resets := s5.resets[r := Exclusive], writer := Some(r));
    var s7 := s6.(resets := s6.resets[r := SecondPass(s.active, s.active)]);
    Then(s6, ResetStep(r, CollectSecond), s7, [], s7);
    Then(s5, ResetStep(r, TakeExclusive), s6, [ResetStep(r, CollectSecond)] + [], s7);
    var locked := [ResetStep(r, TakeExclusive)] + ([ResetStep(r, CollectSecond)] + []);
    var second, s8 := PassEnds(s7, r);
    t := s8.(resets := s8.resets[r := LeaseHeld(s.active)]);
    Then(s8, ResetStep(r, ReturnLease), t, [], t);
    hide *;
    Steps(s, schedule, s4, first, s5);
    Steps(s, schedule + first, s5, locked, s7);
    Steps(s, schedule + first + locked, s7, second, s8);
    Steps(s, schedule + first + locked + second, s8, [ResetStep(r, ReturnLease)] + [], t);
    schedule := schedule + first + locked + second + ([ResetStep(r, ReturnLease)] + []);
  }

  // Before any reset, a lone run has polled its token and comes to the gate next.
  lemma {:induction false} LoneRunPolls() returns (schedule: seq<Action>, t: Gate)
    ensures Reaches(DEFAULT, schedule, t)
    ensures t == DEFAULT.(runs := map[0 := MemoryRun(GatePolled, false)], active := {0}, runSerial := Some(0),
                          nextRun := 1)
  {
    var first, serial := NewRunTakesSerial(DEFAULT);
    var waiting := serial.(runs := map[0 := MemoryRun(AwaitGate, false)]);
    t := waiting.(runs := map[0 := MemoryRun(GatePolled, false)]);
    Then(waiting, RunStep(0, PollGate), t, [], t);
    Then(serial, RunStep(0, CheckAfterSerial), waiting, [RunStep(0, PollGate)] + [], t);
    hide Next, Reaches;
    schedule := first + ([RunStep(0, CheckAfterSerial)] + ([RunStep(0, PollGate)] + []));
    Steps(DEFAULT, first, serial, [RunStep(0, CheckAfterSerial)] + ([RunStep(0, PollGate)] + []), t);
  }

  lemma DefaultIsValid()
    ensures Inv(DEFAULT)
  {
  }

  // Such an admission does happen: a lone run polls its token for the gate, a whole
  // reset sweeps it and ends, and the run then takes the gate.
  lemma {:induction false} SweptRunCanBeAdmitted()
    returns (before: seq<Action>, s: Gate, after: seq<Action>, t: Gate)
    ensures Reaches(DEFAULT, before, s) && 0 in s.resets && s.resets[0] == LeaseHeld({0})
    ensures Reaches(s, after, t) && 0 !in t.resets
    ensures 0 in t.runs && t.runs[0] == MemoryRun(Admitted, true)
  {
    hide Next, Reaches, Inv, DropOfReset;
    DefaultIsValid();
    var first, polled := LoneRunPolls();
    var second;
    second, s := FreeGateGrantsLease(polled, 0);
    before := first + second;
    Steps(DEFAULT, first, polled, second, s);
    RunsKeepInv(DEFAULT, before, s);
    t := PolledRunIsAdmitted(s, 0, 0);
    after := DropOfReset(0) + ([RunStep(0, TakeGate)] + ([RunStep(0, CheckAfterGate)] + []));
  }
}
