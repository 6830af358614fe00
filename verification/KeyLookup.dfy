// The shared native key lookup: callers of resolve_key may be cancelled and
// restarted at any await point, the native read may never be started twice.
module KeyLookup {
  import opened Wrappers

  type Id = nat

  datatype CallerPc =
    | Starting                // before the first look at the cache
    | AwaitGate
    | GateHeld                // before the second look at the cache
    | Waiting(operation: Id)
    | Finishing(operation: Id)
    | Leaving(held: bool)     // dropped or returning; the gate guard goes last

  // A worker runs the native call, then publishes its outcome.
  datatype Progress = Native | Returned | Completed

  datatype Lookup = Lookup(
    callers: map<Id, CallerPc>,
    gate: Option<Id>,
    current: Option<Id>,
    operations: map<Id, Progress>,
    nextOperation: Id,
    cached: bool)

  const DEFAULT: Lookup := Lookup(map[], None, None, map[], 0, false)

  datatype CallerAction =
    | HitCache
    | MissCache
    | TakeGate
    | JoinOperation(spawned: bool)
    | SeeOutcome(key: bool)
    | Finish
    | DropCaller
    | Leave

  datatype Action =
    | Call(caller: Id)
    | CallerStep(caller: Id, callerAction: CallerAction)
    | NativeReturns(operation: Id)
    | Complete(operation: Id)
    | ClearCache

  ghost predicate SetsCaller(s: Lookup, c: Id, pc: CallerPc, t: Lookup) {
    t == s.(callers := s.callers[c := pc])
  }

  // KeyLookupCoordinator::operation, one critical section: share the current
  // operation, or publish a new one and start its worker. A worker that could
  // not be spawned has completed at once.
  ghost predicate JoinsOperation(s: Lookup, c: Id, spawned: bool, t: Lookup) {
    if s.current.Some? then SetsCaller(s, c, Waiting(s.current.value), t)
    else t == s.(callers := s.callers[c := Waiting(s.nextOperation)],
                 current := Some(s.nextOperation),
                 operations := s.operations[s.nextOperation := if spawned then Native else Completed],
                 nextOperation := s.nextOperation + 1)
  }

  ghost predicate CallerNext(s: Lookup, c: Id, a: CallerAction, t: Lookup) {
    c in s.callers &&
    var pc := s.callers[c];
    match a
    case HitCache => (pc.Starting? || pc.GateHeld?) && s.cached && SetsCaller(s, c, Leaving(pc.GateHeld?), t)
    case MissCache => pc.Starting? && !s.cached && SetsCaller(s, c, AwaitGate, t)
    case TakeGate =>
      pc.AwaitGate? && s.gate.None? && t == s.(callers := s.callers[c := GateHeld], gate := Some(c))
    case JoinOperation(spawned) => pc.GateHeld? && !s.cached && JoinsOperation(s, c, spawned, t)
    case SeeOutcome(key) =>
      pc.Waiting? && pc.operation in s.operations && s.operations[pc.operation].Completed?
      && t == s.(callers := s.callers[c := Finishing(pc.operation)], cached := s.cached || key)
    case Finish =>
      pc.Finishing?
      && t == s.(callers := s.callers[c := Leaving(true)],
                 current := if s.current == Some(pc.operation) then None else s.current)
    case DropCaller =>
      (pc.AwaitGate? && SetsCaller(s, c, Leaving(false), t)) || (pc.Waiting? && SetsCaller(s, c, Leaving(true), t))
    case Leave =>
      pc.Leaving? && t == s.(callers := s.callers - {c}, gate := if pc.held then None else s.gate)
  }

  ghost predicate Next(s: Lookup, a: Action, t: Lookup) {
    match a
    case Call(c) => c !in s.callers && SetsCaller(s, c, Starting, t)
    case CallerStep(c, action) => CallerNext(s, c, action, t)
    case NativeReturns(o) =>
      o in s.operations && s.operations[o].Native? && t == s.(operations := s.operations[o := Returned])
    case Complete(o) =>
      o in s.operations && s.operations[o].Returned? && t == s.(operations := s.operations[o := Completed])
    case ClearCache => t == s.(cached := false)
  }

  ghost predicate Reaches(s: Lookup, schedule: seq<Action>, t: Lookup)
    decreases |schedule|
  {
    if schedule == [] then s == t
    else exists mid :: Next(s, schedule[0], mid) && Reaches(mid, schedule[1..], t)
  }

  // The native calls in flight.
  ghost function Running(s: Lookup): set<Id> {
    set o | o in s.operations && s.operations[o].Native?
  }

  ghost predicate OperationInv(s: Lookup) {
    && (s.current.Some? ==> s.current.value in s.operations)
    && (forall o | o in s.operations :: o < s.nextOperation && (s.operations[o].Completed? || s.current == Some(o)))
  }

  ghost predicate CallerInv(s: Lookup) {
    && (forall c | c in s.callers && s.callers[c].Waiting? ::
          s.callers[c].operation in s.operations && s.current == Some(s.callers[c].operation))
    && (forall c | c in s.callers && s.callers[c].Finishing? ::
          && s.callers[c].operation in s.operations
          && s.operations[s.callers[c].operation].Completed?
          && s.current == Some(s.callers[c].operation))
  }

  predicate HoldsGate(pc: CallerPc) {
    pc.GateHeld? || pc.Waiting? || pc.Finishing? || (pc.Leaving? && pc.held)
  }

  ghost predicate GuardInv(s: Lookup) {
    && (forall c | c in s.callers :: s.gate == Some(c) <==> HoldsGate(s.callers[c]))
    && (s.gate.Some? ==> s.gate.value in s.callers)
  }

  lemma {:induction false} StepKeepsGuard(s: Lookup, a: Action, t: Lookup)
    requires GuardInv(s) && Next(s, a, t)
    ensures GuardInv(t)
  {
  }

  lemma {:induction false} StepKeepsOperations(s: Lookup, a: Action, t: Lookup)
    requires OperationInv(s) && CallerInv(s) && Next(s, a, t)
    ensures OperationInv(t)
  {
  }

  lemma {:induction false} StepKeepsCallers(s: Lookup, a: Action, t: Lookup)
    requires GuardInv(s) && OperationInv(s) && CallerInv(s) && Next(s, a, t)
    ensures CallerInv(t)
  {
    match a
    case CallerStep(c, action) => CallerKeepsCallers(s, c, action, t);
    case _ =>
  }

  lemma CallerKeepsCallers(s: Lookup, c: Id, a: CallerAction, t: Lookup)
    requires GuardInv(s) && OperationInv(s) && CallerInv(s) && CallerNext(s, c, a, t)
    ensures CallerInv(t)
  {
  }

  lemma {:induction false} RunsKeepInv(s: Lookup, schedule: seq<Action>, t: Lookup)
    requires GuardInv(s) && OperationInv(s) && CallerInv(s) && Reaches(s, schedule, t)
    ensures GuardInv(t) && OperationInv(t) && CallerInv(t)
    decreases |schedule|
  {
    if schedule != [] {
      var mid :| Next(s, schedule[0], mid) && Reaches(mid, schedule[1..], t);
      StepKeepsGuard(s, schedule[0], mid);
      StepKeepsOperations(s, schedule[0], mid);
      StepKeepsCallers(s, schedule[0], mid);
      RunsKeepInv(mid, schedule[1..], t);
    }
  }

  // However callers are cancelled and restarted, at most one native lookup is
  // running, a caller waits for that one and no other, and the coordinator
  // forgets an operation only after its native call is over.
  lemma {:induction false} AtMostOneNativeLookup(schedule: seq<Action>, t: Lookup)
    requires Reaches(DEFAULT, schedule, t)
    ensures |Running(t)| <= 1
    ensures forall c | c in t.callers && t.callers[c].Waiting? :: Running(t) <= {t.callers[c].operation}
    ensures t.current.None? ==> Running(t) == {}
    ensures forall c, d | c in t.callers && d in t.callers && HoldsGate(t.callers[c]) && HoldsGate(t.callers[d]) ::
            c == d
  {
    RunsKeepInv(DEFAULT, schedule, t);
    if t.current.Some? {
      assert Running(t) <= {t.current.value};
      SubsetOfSingleton(Running(t), t.current.value);
    } else {
      assert Running(t) == {};
    }
  }

  lemma SubsetOfSingleton(s: set<Id>, x: Id)
    requires s <= {x}
    ensures |s| <= 1
  {
    assert s == {} || s == {x};
  }

  // ------------------------------------------------- lookups do happen

  lemma Then(s: Lookup, a: Action, mid: Lookup, rest: seq<Action>, t: Lookup)
    requires Next(s, a, mid) && Reaches(mid, rest, t)
    ensures Reaches(s, [a] + rest, t)
  {
    hide Next;
    assert ([a] + rest)[1..] == rest;
  }

  lemma CallerActs(s: Lookup, c: Id, a: CallerAction, t: Lookup)
    requires CallerNext(s, c, a, t)
    ensures Next(s, CallerStep(c, a), t)
  {
    hide CallerNext;
  }

  // A caller that finds no key cached, a free gate and nothing under way starts one native
  // call, and what that returns is cached when it leaves.
  lemma FreeGateLooksUp(s: Lookup, c: Id, key: bool) returns (schedule: seq<Action>, t: Lookup)
    requires s.gate.None? && s.current.None? && !s.cached && c !in s.callers
    ensures Reaches(s, schedule, t)
    ensures t == s.(operations := s.operations[s.nextOperation := Completed], nextOperation := s.nextOperation + 1,
                    cached := key)
  {
    var o := s.nextOperation;
    var s1 := s.(callers := s.callers[c := Starting]);
    var s2 := s.(callers := s.callers[c := AwaitGate]);
    var s3 := s.(callers := s.callers[c := GateHeld], gate := Some(c));
    var s4 := s.(callers := s.callers[c := Waiting(o)], gate := Some(c), current := Some(o),
                 operations := s.operations[o := Native], nextOperation := o + 1);
    assert s1.callers[c := AwaitGate] == s2.callers && s2.callers[c := GateHeld] == s3.callers;
    assert s3.callers[c := Waiting(o)] == s4.callers;
    assert Next(s, Call(c), s1);
    CallerActs(s1, c, MissCache, s2);
    CallerActs(s2, c, TakeGate, s3);
    CallerActs(s3, c, JoinOperation(true), s4);
    hide Next, CallerNext, Reaches;
    schedule, t := LookupReturns(s, s4, c, key);
    Then(s3, CallerStep(c, JoinOperation(true)), s4, schedule, t);
    schedule := [CallerStep(c, JoinOperation(true))] + schedule;
    Then(s2, CallerStep(c, TakeGate), s3, schedule, t);
    schedule := [CallerStep(c, TakeGate)] + schedule;
    Then(s1, CallerStep(c, MissCache), s2, schedule, t);
    schedule := [CallerStep(c, MissCache)] + schedule;
    Then(s, Call(c), s1, schedule, t);
    schedule := [Call(c)] + schedule;
  }

  lemma LookupReturns(s: Lookup, s4: Lookup, c: Id, key: bool) returns (schedule: seq<Action>, t: Lookup)
    requires s.gate.None? && s.current.None? && !s.cached && c !in s.callers
    requires var o := s.nextOperation;
             s4 == s.(callers := s.callers[c := Waiting(o)], gate := Some(c), current := Some(o),
                      operations := s.operations[o := Native], nextOperation := o + 1)
    ensures Reaches(s4, schedule, t)
    ensures t == s.(operations := s.operations[s.nextOperation := Completed], nextOperation := s.nextOperation + 1,
                    cached := key)
  {
    var o := s.nextOperation;
    var s5 := s4.(operations := s.operations[o := Returned]);
    var s6 := s4.(operations := s.operations[o := Completed]);
    assert s4.operations[o := Returned] == s5.operations && s5.operations[o := Completed] == s6.operations;
    assert Next(s4, NativeReturns(o), s5) && Next(s5, Complete(o), s6);
    hide Next, CallerNext, Reaches;
    schedule, t := OutcomeIsSeen(s, s6, c, key);
    Then(s5, Complete(o), s6, schedule, t);
    schedule := [Complete(o)] + schedule;
    Then(s4, NativeReturns(o), s5, schedule, t);
    schedule := [NativeReturns(o)] + schedule;
  }

  lemma OutcomeIsSeen(s: Lookup, s6: Lookup, c: Id, key: bool) returns (schedule: seq<Action>, t: Lookup)
    requires s.gate.None? && s.current.None? && !s.cached && c !in s.callers
    requires var o := s.nextOperation;
             s6 == s.(callers := s.callers[c := Waiting(o)], gate := Some(c), current := Some(o),
                      operations := s.operations[o := Completed], nextOperation := o + 1)
    ensures Reaches(s6, schedule, t)
    ensures t == s.(operations := s.operations[s.nextOperation := Completed], nextOperation := s.nextOperation + 1,
                    cached := key)
  {
    var o := s.nextOperation;
    var s7 := s6.(callers := s.callers[c := Finishing(o)], cached := key);
    var s8 := s7.(callers := s.callers[c := Leaving(true)], current := None);
    t := s.(operations := s.operations[o := Completed], nextOperation := o + 1, cached := key);
    assert s6.callers[c := Finishing(o)] == s7.callers && s7.callers[c := Leaving(true)] == s8.callers;
    assert s8.callers - {c} == s.callers;
    CallerActs(s6, c, SeeOutcome(key), s7);
    CallerActs(s7, c, Finish, s8);
    CallerActs(s8, c, Leave, t);
    hide Next, CallerNext;
    Then(s8, CallerStep(c, Leave), t, [], t);
    hide Reaches;
    schedule := [CallerStep(c, Leave)] + [];
    Then(s7, CallerStep(c, Finish), s8, schedule, t);
    schedule := [CallerStep(c, Finish)] + schedule;
    Then(s6, CallerStep(c, SeeOutcome(key)), s7, schedule, t);
    schedule := [CallerStep(c, SeeOutcome(key))] + schedule;
  }

  // A caller that comes while a native call is under way waits for that one; a cached key
  // needs neither gate nor call.
  lemma LookupIsShared(s: Lookup, c: Id) returns (schedule: seq<Action>, t: Lookup)
    requires c !in s.callers && (s.cached || (s.gate.None? && s.current.Some?))
    ensures Reaches(s, schedule, t) && t.operations == s.operations && t.current == s.current
    ensures if s.cached then t == s else t.callers == s.callers[c := Waiting(s.current.value)]
  {
    var s1 := s.(callers := s.callers[c := Starting]);
    if s.cached {
      var s2 := s.(callers := s.callers[c := Leaving(false)]);
      t := s;
      assert s1.callers[c := Leaving(false)] == s2.callers && s2.callers - {c} == s.callers;
      Then(s2, CallerStep(c, Leave), t, [], t);
      schedule := [CallerStep(c, Leave)] + [];
      Then(s1, CallerStep(c, HitCache), s2, schedule, t);
      schedule := [CallerStep(c, HitCache)] + schedule;
    } else {
      var s2 := s.(callers := s.callers[c := AwaitGate]);
      var s3 := s.(callers := s.callers[c := GateHeld], gate := Some(c));
      t := s.(callers := s.callers[c := Waiting(s.current.value)], gate := Some(c));
      assert s1.callers[c := AwaitGate] == s2.callers && s2.callers[c := GateHeld] == s3.callers;
      assert s3.callers[c := Waiting(s.current.value)] == t.callers;
      Then(s3, CallerStep(c, JoinOperation(true)), t, [], t);
      schedule := [CallerStep(c, JoinOperation(true))] + [];
      Then(s2, CallerStep(c, TakeGate), s3, schedule, t);
      schedule := [CallerStep(c, TakeGate)] + schedule;
      Then(s1, CallerStep(c, MissCache), s2, schedule, t);
      schedule := [CallerStep(c, MissCache)] + schedule;
    }
    Then(s, Call(c), s1, schedule, t);
    schedule := [Call(c)] + schedule;
  }
}
