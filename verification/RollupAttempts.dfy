// Chronicle attempts while captures store rows and rows are deleted.
module RollupAttempts {
  // The scheduler makes one attempt at a time. Between its epoch read and its
  // commit every read of the store is a step of its own, and captures, retention
  // prunes and delete-alls act between any two of them. Whoever writes holds the
  // mutation lock meanwhile; the reads of an attempt do not.
  //
  // Snapshots are known by their capture time. A rollup is stored with the
  // children it was made from.

  import opened Wrappers
  import opened Calendar
  import opened Chronicle
  import opened Scheduler

  datatype Lock = Free | Deleting | Deleted | Published | Committing

  datatype Pc = Started | Reading | Checking | Ready | Locked

  // Of the children: those looked up, those that had a chronicle, and those
  // without one that had no snapshot either.
  datatype Attempt = Attempt(key: Key, epoch: nat, pc: Pc, read: set<int>, available: set<int>, checked: set<int>)

  datatype State = State(
    snapshots: set<int>,
    chronicles: map<Key, set<int>>,
    dataEpoch: nat,
    lock: Lock,
    attempt: Option<Attempt>)

  const INIT: State := State({}, map[], 0, Free, None)

  datatype AttemptAction =
    | FindPresent
    | FindNoSnapshots
    | ReadSnapshots
    | ListChildren
    | ReadChild(child: int)
    | EndReading
    | CheckChild(child: int)
    | FindUnsummarizedChild(child: int)
    | FindNoChronicles
    | EndChecking
    | GiveUp
    | LockForCommit
    | Commit

  datatype Action =
    | Arrive(at: int)
    | LockForDelete
    | DeleteRows(kept: set<int>, summaries: bool)
    | DeleteNothing
    | AdvanceEpoch
    | FinishDelete
    | LoseEpoch
    | Begin(key: Key)
    | Step(step: AttemptAction)

  ghost predicate Covers(k: Key, x: int) { Start(k.level, k.index) <= x < Start(k.level, k.index + 1) }

  function PartOf(k: Key, x: int): int
    requires k.level != Hour
  {
    Index(ChildLevel(k.level), x)
  }

  ghost predicate IsPart(k: Key, n: int)
    requires k.level != Hour
  {
    Meets(ChildLevel(k.level), n, PeriodAt(k.level, k.index))
  }

  function Max(a: int, b: int): int { if a < b then b else a }

  function Min(a: int, b: int): int { if a < b then a else b }

  // Asked of the part of child n that lies in the span.
  ghost predicate HasSnapshotsOf(snapshots: set<int>, k: Key, n: int)
    requires k.level != Hour
  {
    var child, period := PeriodAt(ChildLevel(k.level), n), PeriodAt(k.level, k.index);
    HasSnapshots(snapshots, Max(child.start, period.start), Min(child.end, period.end))
  }

  // ------------------------------------------------------------------ steps

  ghost predicate SetsAttempt(s: State, at: Attempt, t: State) { t == s.(attempt := Some(at)) }

  ghost predicate EndsAttempt(s: State, t: State) { t == s.(attempt := None) }

  ghost predicate AllRead(at: Attempt)
    requires at.key.level != Hour
  {
    forall n | IsPart(at.key, n) :: n in at.read
  }

  ghost predicate AllChecked(at: Attempt)
    requires at.key.level != Hour
  {
    forall n | IsPart(at.key, n) :: n in at.available || n in at.checked
  }

  ghost predicate ToCheck(at: Attempt, n: int)
    requires at.key.level != Hour
  {
    at.pc.Checking? && IsPart(at.key, n) && n !in at.available && n !in at.checked
  }

  ghost predicate HourNext(s: State, at: Attempt, a: AttemptAction, t: State)
    requires at.key.level == Hour
  {
    match a
    case FindNoSnapshots =>
      at.pc.Started? && at.key !in s.chronicles && !HasSnapshots(s.snapshots, PeriodAt(Hour, at.key.index).start,
                                                                 PeriodAt(Hour, at.key.index).end)
      && EndsAttempt(s, t)
    case ReadSnapshots =>
      at.pc.Started? && at.key !in s.chronicles && HasSnapshots(s.snapshots, PeriodAt(Hour, at.key.index).start,
                                                                PeriodAt(Hour, at.key.index).end)
      && SetsAttempt(s, at.(pc := Ready), t)
    case _ => false
  }

  ghost predicate RollupNext(s: State, at: Attempt, a: AttemptAction, t: State)
    requires at.key.level != Hour
  {
    match a
    case ListChildren => at.pc.Started? && at.key !in s.chronicles && SetsAttempt(s, at.(pc := Reading), t)
    case ReadChild(n) =>
      at.pc.Reading? && IsPart(at.key, n) && n !in at.read
      && SetsAttempt(s, at.(read := at.read + {n},
                            available := if Key(ChildLevel(at.key.level), n) in s.chronicles
                                         then at.available + {n} else at.available), t)
    case EndReading => at.pc.Reading? && AllRead(at) && SetsAttempt(s, at.(pc := Checking), t)
    case CheckChild(n) =>
      ToCheck(at, n) && !HasSnapshotsOf(s.snapshots, at.key, n)
      && SetsAttempt(s, at.(checked := at.checked + {n}), t)
    case FindUnsummarizedChild(n) =>
      ToCheck(at, n) && HasSnapshotsOf(s.snapshots, at.key, n) && EndsAttempt(s, t)
    case FindNoChronicles => at.pc.Checking? && AllChecked(at) && at.available == {} && EndsAttempt(s, t)
    case EndChecking =>
      at.pc.Checking? && AllChecked(at) && at.available != {} && SetsAttempt(s, at.(pc := Ready), t)
    case _ => false
  }

  // Once the epoch is unchanged the row is inserted unless there is one.
  function Committed(s: State, at: Attempt): map<Key, set<int>> {
    if s.dataEpoch == at.epoch && at.key !in s.chronicles then s.chronicles[at.key := at.available] else s.chronicles
  }

  ghost predicate AttemptNext(s: State, at: Attempt, a: AttemptAction, t: State) {
    match a
    case FindPresent => at.pc.Started? && at.key in s.chronicles && EndsAttempt(s, t)
    case GiveUp => t == s.(attempt := None, lock := if at.pc.Locked? then Free else s.lock)
    case LockForCommit =>
      at.pc.Ready? && s.lock.Free? && t == s.(attempt := Some(at.(pc := Locked)), lock := Committing)
    case Commit =>
      at.pc.Locked? && t == s.(attempt := None, lock := Free, chronicles := Committed(s, at))
    case _ => if at.key.level == Hour then HourNext(s, at, a, t) else RollupNext(s, at, a, t)
  }

  // A deletion of snapshots deletes every chronicle. When it fails after its rows
  // are gone it releases the lock without moving the epoch.
  ghost predicate OtherNext(s: State, a: Action, t: State) {
    match a
    case Arrive(at) => s.lock.Free? && t == s.(snapshots := s.snapshots + {at})
    case LockForDelete => s.lock.Free? && t == s.(lock := Deleting)
    case DeleteRows(kept, summaries) =>
      s.lock.Deleting? && kept <= s.snapshots && (summaries || kept == s.snapshots)
      && t == s.(lock := Deleted, snapshots := kept, chronicles := if summaries then map[] else s.chronicles)
    case DeleteNothing => s.lock.Deleting? && t == s.(lock := Free)
    case AdvanceEpoch => s.lock.Deleted? && t == s.(lock := Published, dataEpoch := s.dataEpoch + 1)
    case FinishDelete => s.lock.Published? && t == s.(lock := Free)
    case LoseEpoch => s.lock.Deleted? && t == s.(lock := Free)
    case _ => false
  }

  ghost predicate Next(s: State, a: Action, t: State) {
    match a
    case Begin(key) => s.attempt.None? && SetsAttempt(s, Attempt(key, s.dataEpoch, Started, {}, {}, {}), t)
    case Step(step) => s.attempt.Some? && AttemptNext(s, s.attempt.value, step, t)
    case _ => OtherNext(s, a, t)
  }

  ghost predicate Trace(states: seq<State>, schedule: seq<Action>) {
    |states| == |schedule| + 1 && forall i | 0 <= i < |schedule| :: Next(states[i], schedule[i], states[i + 1])
  }

  // ------------------------------------------------------ partial rollups

  // A stored rollup was made without the child of a stored snapshot of its span.
  ghost predicate Partial(s: State, k: Key)
    requires k.level != Hour
  {
    k in s.chronicles && exists x :: x in s.snapshots && Covers(k, x) && PartOf(k, x) !in s.chronicles[k]
  }

  // A new snapshot of the span lies in a child that had no chronicle when it was
  // looked up, and it comes after that child was checked.
  ghost predicate Late(s: State, a: Action, k: Key)
    requires k.level != Hour
  {
    a.Arrive? && a.at !in s.snapshots && Covers(k, a.at) &&
    if k in s.chronicles then PartOf(k, a.at) !in s.chronicles[k]
    else s.attempt.Some? && s.attempt.value.key == k && PartOf(k, a.at) in s.attempt.value.checked
  }

  // The attempt at k is under way or its chronicle is stored.
  ghost predicate Concerns(s: State, k: Key) {
    k in s.chronicles || (s.attempt.Some? && s.attempt.value.key == k)
  }

  // ------------------------------------------------------------- invariant

  ghost predicate AttemptInv(s: State) {
    s.attempt.Some? ==> s.attempt.value.epoch <= s.dataEpoch && (s.attempt.value.pc.Locked? ==> s.lock.Committing?)
  }

  // Nothing has been deleted since the attempt began.
  ghost predicate Current(s: State, at: Attempt) { at.epoch == s.dataEpoch && !s.lock.Deleted? }

  ghost predicate Listed(chronicles: map<Key, set<int>>, at: Attempt)
    requires at.key.level != Hour
  {
    && (forall n | n in at.available :: Key(ChildLevel(at.key.level), n) in chronicles)
    && (forall n | n in at.read && n !in at.available :: Key(ChildLevel(at.key.level), n) !in chronicles)
    && at.checked !! at.available && at.checked <= at.read && at.available <= at.read
    && (forall n | n in at.read :: IsPart(at.key, n))
    && (at.pc.Started? ==> at.read == {})
    && (at.pc.Started? || at.pc.Reading? ==> at.checked == {})
    && (at.pc.Checking? ==> AllRead(at))
    && (at.pc.Ready? || at.pc.Locked? ==> AllChecked(at) && at.available != {})
  }

  ghost predicate InChecked(snapshots: set<int>, at: Attempt)
    requires at.key.level != Hour
  {
    exists x :: x in snapshots && Covers(at.key, x) && PartOf(at.key, x) in at.checked
  }

  ghost predicate Tracked(s: State, at: Attempt, late: bool)
    requires at.key.level != Hour
  {
    Listed(s.chronicles, at) && (InChecked(s.snapshots, at) <==> late)
  }

  // The children a rollup was made from are still summarized.
  ghost predicate Founded(chronicles: map<Key, set<int>>, k: Key)
    requires k.level != Hour && k in chronicles
  {
    forall n | n in chronicles[k] :: Key(ChildLevel(k.level), n) in chronicles
  }

  ghost predicate KeyInv(s: State, k: Key, late: bool)
    requires k.level != Hour
  {
    if k in s.chronicles then Founded(s.chronicles, k) && (Partial(s, k) <==> late)
    else
      s.attempt.Some? && s.attempt.value.key == k && Current(s, s.attempt.value) ==>
        Tracked(s, s.attempt.value, late)
  }

  // ------------------------------------- every step keeps the invariant

  lemma {:induction false} StepKeepsAttempt(s: State, a: Action, t: State)
    requires AttemptInv(s) && Next(s, a, t)
    ensures AttemptInv(t)
  {
    hide Start, Index, IsPart, HasSnapshotsOf, HasSnapshots, AllRead, AllChecked, PeriodAt;
  }

  // A snapshot of child n in the span is what the check asks for.
  lemma SnapshotsOfPart(snapshots: set<int>, k: Key, n: int)
    requires k.level != Hour
    ensures HasSnapshotsOf(snapshots, k, n) <==> exists x :: x in snapshots && Covers(k, x) && PartOf(k, x) == n
  {
    hide Start, Index;
    var child := ChildLevel(k.level);
    var from := Max(Start(child, n), Start(k.level, k.index));
    var to := Min(Start(child, n + 1), Start(k.level, k.index + 1));
    if HasSnapshotsOf(snapshots, k, n) {
      var x :| x in snapshots && from <= x < to;
      IndexUnique(child, x, n);
      assert Covers(k, x) && PartOf(k, x) == n;
    }
    if x :| x in snapshots && Covers(k, x) && PartOf(k, x) == n {
      IndexContains(child, x);
    }
  }

  lemma PartIsPart(k: Key, x: int)
    requires k.level != Hour && Covers(k, x)
    ensures IsPart(k, PartOf(k, x))
  {
    hide Start, Index;
    SnapshotMeets(ChildLevel(k.level), x, PeriodAt(k.level, k.index));
  }

  // Checking a child without snapshots adds none to those of checked children.
  lemma CheckKeeps(snapshots: set<int>, at: Attempt, n: int)
    requires at.key.level != Hour && !HasSnapshotsOf(snapshots, at.key, n)
    ensures InChecked(snapshots, at.(checked := at.checked + {n})) <==> InChecked(snapshots, at)
  {
    SnapshotsOfPart(snapshots, at.key, n);
    hide Start, Index, Covers, PartOf, HasSnapshotsOf;
    var more := at.(checked := at.checked + {n});
    if InChecked(snapshots, at) {
      var x :| x in snapshots && Covers(at.key, x) && PartOf(at.key, x) in at.checked;
      assert PartOf(more.key, x) in more.checked;
    }
  }

  lemma {:induction false} RollupStepKeeps(s: State, at: Attempt, a: AttemptAction, t: State, late: bool)
    requires at.key.level != Hour && Tracked(s, at, late) && RollupNext(s, at, a, t) && t.attempt.Some?
    ensures t == s.(attempt := t.attempt) && t.attempt.value.key == at.key && t.attempt.value.epoch == at.epoch
    ensures Tracked(t, t.attempt.value, late)
  {
    hide IsPart, HasSnapshotsOf, Covers, PartOf, InChecked, ChildLevel;
    if a.CheckChild? {
      CheckKeeps(s.snapshots, at, a.child);
    } else {
      SameChecked(s.snapshots, at, t.attempt.value);
    }
  }

  lemma SameChecked(snapshots: set<int>, at: Attempt, later: Attempt)
    requires at.key.level != Hour && later.key == at.key && later.checked == at.checked
    ensures InChecked(snapshots, later) <==> InChecked(snapshots, at)
  {
    hide Covers, PartOf;
  }

  // What is inserted misses a child exactly when a checked one has snapshots now.
  lemma CommitKeeps(s: State, at: Attempt, t: State, late: bool)
    requires at.key.level != Hour && at.key !in s.chronicles && Tracked(s, at, late) && at.pc.Locked?
    requires t == s.(attempt := None, lock := Free, chronicles := s.chronicles[at.key := at.available])
    ensures Founded(t.chronicles, at.key) && (Partial(t, at.key) <==> late)
  {
    hide Start, Index, IsPart, Covers, PartOf, ChildLevel;
    var k := at.key;
    if x :| x in s.snapshots && Covers(k, x) && PartOf(k, x) !in at.available {
      PartIsPart(k, x);
      assert InChecked(s.snapshots, at);
    }
    if InChecked(s.snapshots, at) {
      var x :| x in s.snapshots && Covers(k, x) && PartOf(k, x) in at.checked;
      assert PartOf(k, x) !in at.available;
    }
  }

  // The rollup of k when nothing but other chronicles is added.
  lemma MoreChronicles(s: State, t: State, k: Key)
    requires k.level != Hour && k in s.chronicles && Founded(s.chronicles, k)
    requires t.snapshots == s.snapshots && s.chronicles.Keys <= t.chronicles.Keys
    requires k in t.chronicles && t.chronicles[k] == s.chronicles[k]
    ensures Founded(t.chronicles, k) && (Partial(t, k) <==> Partial(s, k))
  {
    hide Covers, PartOf, ChildLevel;
  }

  lemma AttemptAdds(s: State, at: Attempt, a: AttemptAction, t: State)
    requires AttemptNext(s, at, a, t)
    ensures t.snapshots == s.snapshots && t.dataEpoch == s.dataEpoch
    ensures forall k | k in s.chronicles :: k in t.chronicles && t.chronicles[k] == s.chronicles[k]
    ensures forall k | k in t.chronicles && k !in s.chronicles :: k == at.key
    ensures t.attempt.Some? ==> t.attempt.value.key == at.key
  {
    hide IsPart, HasSnapshotsOf, HasSnapshots, AllRead, AllChecked, PeriodAt;
  }

  // A step of the attempt at k while k has no chronicle.
  lemma {:induction false} OwnStepKeeps(s: State, at: Attempt, a: AttemptAction, t: State, late: bool)
    requires at.key.level != Hour && at.key !in s.chronicles && s.attempt == Some(at) && AttemptInv(s)
    requires KeyInv(s, at.key, late) && AttemptNext(s, at, a, t)
    ensures KeyInv(t, at.key, late)
  {
    AttemptAdds(s, at, a, t);
    match a
    case Commit =>
      hide Tracked, Founded, Partial;
      if Current(s, at) {
        CommitKeeps(s, at, t, late);
      }
    case FindPresent =>
    case GiveUp =>
    case LockForCommit =>
      if Current(s, at) {
        hide AllRead, AllChecked, ChildLevel;
        SameChecked(s.snapshots, at, at.(pc := Locked));
      }
    case _ =>
      hide AllRead, AllChecked, HasSnapshotsOf, Tracked;
      if t.attempt.Some? && Current(s, at) {
        RollupStepKeeps(s, at, a, t, late);
      } else if t.attempt.Some? {
        StepSameEpoch(s, at, a, t);
      }
  }

  lemma StepSameEpoch(s: State, at: Attempt, a: AttemptAction, t: State)
    requires at.key.level != Hour && RollupNext(s, at, a, t) && t.attempt.Some?
    ensures t.lock == s.lock && t.dataEpoch == s.dataEpoch && t.attempt.value.epoch == at.epoch
  {
  }

  lemma {:induction false} AttemptKeepsKey(s: State, a: AttemptAction, t: State, k: Key, late: bool)
    requires k.level != Hour && AttemptInv(s) && KeyInv(s, k, late)
    requires s.attempt.Some? && AttemptNext(s, s.attempt.value, a, t)
    ensures KeyInv(t, k, late)
  {
    hide AttemptNext, Partial, Founded, Tracked, Current;
    var at := s.attempt.value;
    AttemptAdds(s, at, a, t);
    if k in s.chronicles {
      MoreChronicles(s, t, k);
    } else if at.key == k {
      OwnStepKeeps(s, at, a, t, late);
    }
  }

  // ---- The others ----------------------------------------------------------------------

  lemma ArrivalMakesPartial(s: State, x: int, t: State, k: Key)
    requires k.level != Hour && k in s.chronicles && t == s.(snapshots := s.snapshots + {x})
    ensures Partial(t, k) <==> Partial(s, k) || Late(s, Arrive(x), k)
  {
    hide Covers, PartOf;
    if Partial(s, k) {
      var y :| y in s.snapshots && Covers(k, y) && PartOf(k, y) !in s.chronicles[k];
      assert y in t.snapshots;
    }
    if Late(s, Arrive(x), k) {
      assert x in t.snapshots;
    }
  }

  lemma ArrivalInChecked(s: State, x: int, at: Attempt)
    requires at.key.level != Hour && at.key !in s.chronicles && s.attempt == Some(at)
    ensures InChecked(s.snapshots + {x}, at) <==> InChecked(s.snapshots, at) || Late(s, Arrive(x), at.key)
  {
    hide Covers, PartOf;
    if InChecked(s.snapshots, at) {
      var y :| y in s.snapshots && Covers(at.key, y) && PartOf(at.key, y) in at.checked;
      assert y in s.snapshots + {x};
    }
    if Late(s, Arrive(x), at.key) {
      assert x in s.snapshots + {x};
    }
  }

  lemma {:induction false} ArrivalKeepsKey(s: State, x: int, t: State, k: Key, late: bool)
    requires k.level != Hour && KeyInv(s, k, late) && OtherNext(s, Arrive(x), t)
    ensures KeyInv(t, k, late || Late(s, Arrive(x), k))
  {
    hide Partial, Founded, Listed, InChecked, Late;
    if k in s.chronicles {
      ArrivalMakesPartial(s, x, t, k);
    } else if s.attempt.Some? && s.attempt.value.key == k {
      ArrivalInChecked(s, x, s.attempt.value);
    }
  }

  lemma {:induction false} DeletionKeepsKey(s: State, a: Action, t: State, k: Key, late: bool)
    requires k.level != Hour && AttemptInv(s) && KeyInv(s, k, late) && OtherNext(s, a, t) && !a.Arrive? && !a.LoseEpoch?
    ensures KeyInv(t, k, late)
  {
    hide Founded, Listed, InChecked;
    if k in t.chronicles {
      assert t.chronicles == s.chronicles && t.snapshots == s.snapshots;
      assert Partial(t, k) <==> Partial(s, k);
    }
  }

  lemma {:induction false} StepKeepsKey(s: State, a: Action, t: State, k: Key, late: bool)
    requires k.level != Hour && AttemptInv(s) && KeyInv(s, k, late) && (Concerns(s, k) || !late)
    requires Next(s, a, t) && !a.LoseEpoch?
    ensures KeyInv(t, k, late || Late(s, a, k))
  {
    hide OtherNext, AttemptNext;
    match a
    case Begin(key) => BeginKeepsKey(s, key, t, k, late);
    case Step(step) => AttemptKeepsKey(s, step, t, k, late);
    case Arrive(x) => ArrivalKeepsKey(s, x, t, k, late);
    case _ => DeletionKeepsKey(s, a, t, k, late);
  }

  lemma BeginKeepsKey(s: State, key: Key, t: State, k: Key, late: bool)
    requires k.level != Hour && KeyInv(s, k, late) && (Concerns(s, k) || !late)
    requires s.attempt.None? && SetsAttempt(s, Attempt(key, s.dataEpoch, Started, {}, {}, {}), t)
    ensures KeyInv(t, k, late)
  {
    if k in s.chronicles {
      MoreChronicles(s, t, k);
    } else if key == k {
      assert !InChecked(t.snapshots, t.attempt.value);
    }
  }

  // ------------------------------------------------------------------ runs

  // A late snapshot among the first n actions.
  ghost predicate HasLate(states: seq<State>, schedule: seq<Action>, n: nat, k: Key)
    requires k.level != Hour && n <= |states| && n <= |schedule|
  {
    exists i :: 0 <= i < n && Late(states[i], schedule[i], k)
  }

  lemma {:induction false} RunKeepsKey(states: seq<State>, schedule: seq<Action>, k: Key, n: nat)
    requires k.level != Hour && Trace(states, schedule) && n <= |schedule| && LoseEpoch !in schedule
    requires AttemptInv(states[0]) && KeyInv(states[0], k, false)
    requires forall i | 0 < i <= |schedule| :: Concerns(states[i], k)
    ensures AttemptInv(states[n]) && KeyInv(states[n], k, HasLate(states, schedule, n, k))
  {
    hide AttemptInv, KeyInv, Next, Late, Concerns;
    if n == 0 {
      assert !HasLate(states, schedule, 0, k);
    } else {
      RunKeepsKey(states, schedule, k, n - 1);
      var late := HasLate(states, schedule, n - 1, k);
      assert Next(states[n - 1], schedule[n - 1], states[n]);
      assert n - 1 == 0 ==> !late;
      assert schedule[n - 1] in schedule;
      StepKeepsAttempt(states[n - 1], schedule[n - 1], states[n]);
      StepKeepsKey(states[n - 1], schedule[n - 1], states[n], k, late);
      LateSoFar(states, schedule, n, k);
    }
  }

  lemma LateSoFar(states: seq<State>, schedule: seq<Action>, n: nat, k: Key)
    requires k.level != Hour && 0 < n <= |states| && n <= |schedule|
    ensures HasLate(states, schedule, n, k)
       <==> HasLate(states, schedule, n - 1, k) || Late(states[n - 1], schedule[n - 1], k)
  {
    hide Late;
  }

  // From the begin of the attempt that stored a rollup, and as long as the rollup is
  // stored, it is partial exactly when a snapshot came late. So a partial rollup stays
  // one, until a deletion takes it away.
  lemma {:induction false} PartialIffLate(states: seq<State>, schedule: seq<Action>, k: Key)
    requires k.level != Hour && Trace(states, schedule) && LoseEpoch !in schedule
    requires schedule != [] && schedule[0] == Begin(k) && k !in states[0].chronicles
    requires forall i | 0 < i <= |schedule| :: Concerns(states[i], k)
    requires k in states[|schedule|].chronicles
    ensures Partial(states[|schedule|], k) <==>
            exists i :: 0 <= i < |schedule| && Late(states[i], schedule[i], k)
  {
    hide Concerns, Partial, Late, Founded;
    assert Next(states[0], schedule[0], states[1]);
    RunKeepsKey(states, schedule, k, |schedule|);
  }

  // In runs without a late snapshot, from an empty store, every rollup is whole and
  // its children are summarized, whatever arrives, is deleted or fails.
  lemma {:induction false} RunsKeepWhole(states: seq<State>, schedule: seq<Action>, k: Key)
    requires k.level != Hour && Trace(states, schedule) && states[0] == INIT && LoseEpoch !in schedule
    requires forall i | 0 <= i < |schedule| :: !Late(states[i], schedule[i], k)
    requires k in states[|schedule|].chronicles
    ensures !Partial(states[|schedule|], k) && Founded(states[|schedule|].chronicles, k)
  {
    hide Partial, Late, Founded, Tracked;
    for n := 0 to |schedule|
      invariant AttemptInv(states[n]) && KeyInv(states[n], k, false)
    {
      hide KeyInv, AttemptInv, Next;
      assert Next(states[n], schedule[n], states[n + 1]);
      assert schedule[n] in schedule;
      StepKeepsAttempt(states[n], schedule[n], states[n + 1]);
      StepKeepsKey(states[n], schedule[n], states[n + 1], k, false);
    }
  }

  // ---- What was stored at the check ------------------------------------------------------

  // The child of x has not been checked, or it became part of the rollup.
  ghost predicate Kept(s: State, k: Key, x: int)
    requires k.level != Hour
  {
    if k in s.chronicles then x in s.snapshots && PartOf(k, x) in s.chronicles[k]
    else
      s.attempt.Some? && s.attempt.value.key == k && Current(s, s.attempt.value) ==>
        x in s.snapshots && PartOf(k, x) !in s.attempt.value.checked
  }

  lemma OwnStepKeepsSnapshot(s: State, at: Attempt, a: AttemptAction, t: State, late: bool, x: int)
    requires at.key.level != Hour && at.key !in s.chronicles && s.attempt == Some(at) && AttemptInv(s)
    requires KeyInv(s, at.key, late) && Covers(at.key, x) && Kept(s, at.key, x) && AttemptNext(s, at, a, t)
    ensures Kept(t, at.key, x)
  {
    hide Tracked, HasSnapshotsOf, Covers, PartOf, AllRead, AllChecked, IsPart, ChildLevel;
    match a
    case Commit =>
      if Current(s, at) {
        CommitTakesIn(s, at, late, x);
      }
    case CheckChild(n) =>
      if x in s.snapshots {
        CheckedIsOther(s.snapshots, at.key, n, x);
      }
    case _ =>
  }

  lemma CommitTakesIn(s: State, at: Attempt, late: bool, x: int)
    requires at.key.level != Hour && Tracked(s, at, late) && at.pc.Locked?
    requires Covers(at.key, x) && PartOf(at.key, x) !in at.checked
    ensures PartOf(at.key, x) in at.available
  {
    hide IsPart, Covers, PartOf, ChildLevel, InChecked;
    PartIsPart(at.key, x);
  }

  lemma CheckedIsOther(snapshots: set<int>, k: Key, n: int, x: int)
    requires k.level != Hour && !HasSnapshotsOf(snapshots, k, n) && x in snapshots && Covers(k, x)
    ensures PartOf(k, x) != n
  {
    hide HasSnapshotsOf, Covers, PartOf;
    SnapshotsOfPart(snapshots, k, n);
  }

  lemma StepKeepsSnapshot(s: State, a: Action, t: State, k: Key, late: bool, x: int)
    requires k.level != Hour && AttemptInv(s) && KeyInv(s, k, late) && Concerns(s, k)
    requires Covers(k, x) && Kept(s, k, x) && Next(s, a, t) && !a.LoseEpoch?
    ensures Kept(t, k, x)
  {
    if a.Step? {
      hide AttemptNext, KeyInv, Covers, PartOf;
      AttemptAdds(s, s.attempt.value, a.step, t);
      if k !in s.chronicles {
        OwnStepKeepsSnapshot(s, s.attempt.value, a.step, t, late, x);
      }
    } else {
      hide KeyInv, Covers, PartOf;
    }
  }

  // A snapshot of the span that was stored before its child was checked lies in a
  // child that the rollup was made from and that still has its chronicle.
  lemma {:induction false} EarlySnapshotIsCovered(states: seq<State>, schedule: seq<Action>, k: Key, j: nat, x: int)
    requires k.level != Hour && Trace(states, schedule) && LoseEpoch !in schedule
    requires schedule != [] && schedule[0] == Begin(k) && k !in states[0].chronicles
    requires forall i | 0 < i <= |schedule| :: Concerns(states[i], k)
    requires 0 < j <= |schedule| && k !in states[j].chronicles && x in states[j].snapshots && Covers(k, x)
    requires states[j].attempt.Some? && PartOf(k, x) !in states[j].attempt.value.checked
    requires k in states[|schedule|].chronicles
    ensures var end := states[|schedule|];
            x in end.snapshots && PartOf(k, x) in end.chronicles[k]
            && Key(ChildLevel(k.level), PartOf(k, x)) in end.chronicles
  {
    hide Next, AttemptNext, Partial, Late, Tracked, Concerns, Covers, PartOf, ChildLevel;
    assert Next(states[0], schedule[0], states[1]);
    BeginIsClean(states[0], k, states[1]);
    for n := j to |schedule|
      invariant Kept(states[n], k, x)
    {
      hide Kept;
      RunKeepsKey(states, schedule, k, n);
      assert Next(states[n], schedule[n], states[n + 1]);
      assert schedule[n] in schedule;
      StepKeepsSnapshot(states[n], schedule[n], states[n + 1], k, HasLate(states, schedule, n, k), x);
    }
    RunKeepsKey(states, schedule, k, |schedule|);
  }

  lemma BeginIsClean(s: State, k: Key, t: State)
    requires k.level != Hour && Next(s, Begin(k), t) && k !in s.chronicles
    ensures AttemptInv(s) && KeyInv(s, k, false)
  {
  }

  // ---- The atomic attempt ----------------------------------------------------------------

  ghost function StoreOf(s: State): Store { Store(s.snapshots, s.chronicles.Keys) }

  ghost predicate Unsummarized(s: State, k: Key)
    requires k.level != Hour
  {
    var period := PeriodAt(k.level, k.index);
    HasUnsummarized(StoreOf(s), ChildLevel(k.level), period.start, period.end)
  }

  predicate Answers(a: AttemptAction) {
    a.FindPresent? || a.FindNoChronicles? || a.FindUnsummarizedChild? || a.Commit?
  }

  // The answer of an attempt whose epoch has not moved.
  function AnswerOf(a: AttemptAction): Outcome
    requires Answers(a)
  {
    match a
    case FindPresent => AlreadyPresent
    case FindNoChronicles => Empty
    case FindUnsummarizedChild(_) => Deferred
    case Commit => Generated
  }

  lemma CheckedHasNoChronicle(chronicles: map<Key, set<int>>, at: Attempt, n: int)
    requires at.key.level != Hour && Listed(chronicles, at) && AllChecked(at) && IsPart(at.key, n)
    ensures Key(ChildLevel(at.key.level), n) !in chronicles <==> n in at.checked
  {
    hide IsPart, ChildLevel;
  }

  // Unsummarized snapshots are those of checked children.
  lemma UnsummarizedIffChecked(s: State, at: Attempt)
    requires at.key.level != Hour && Listed(s.chronicles, at) && AllChecked(at)
    ensures Unsummarized(s, at.key) <==> InChecked(s.snapshots, at)
  {
    hide Start, Index, IsPart, Listed, AllChecked, ChildLevel;
    var k, child := at.key, ChildLevel(at.key.level);
    forall x | Covers(k, x) ensures Key(child, Index(child, x)) !in s.chronicles <==> PartOf(k, x) in at.checked {
      PartIsPart(k, x);
      CheckedHasNoChronicle(s.chronicles, at, PartOf(k, x));
    }
    if x :| x in s.snapshots && Covers(k, x) && Key(child, Index(child, x)) !in s.chronicles {
      assert PartOf(k, x) in at.checked;
    }
    if x :| x in s.snapshots && Covers(k, x) && PartOf(k, x) in at.checked {
      assert Key(child, Index(child, x)) !in s.chronicles;
    }
  }

  lemma AvailableIsChronicle(s: State, at: Attempt)
    requires at.key.level != Hour && Listed(s.chronicles, at) && AllRead(at)
    ensures HasChildChronicle(StoreOf(s), ChildLevel(at.key.level), PeriodAt(at.key.level, at.key.index))
       <==> at.available != {}
  {
    hide Meets, ChildLevel, PeriodAt;
    if at.available != {} {
      var n := HasElement(at.available);
      assert IsPart(at.key, n);
    }
  }

  lemma UncheckedHasNoChronicle(chronicles: map<Key, set<int>>, at: Attempt, n: int)
    requires at.key.level != Hour && Listed(chronicles, at) && ToCheck(at, n)
    ensures Key(ChildLevel(at.key.level), n) !in chronicles
  {
    hide IsPart, ChildLevel;
  }

  lemma FoundIsUnsummarized(s: State, at: Attempt, n: int)
    requires at.key.level != Hour && Listed(s.chronicles, at) && ToCheck(at, n)
             && HasSnapshotsOf(s.snapshots, at.key, n)
    ensures Unsummarized(s, at.key)
  {
    hide Start, Index, ToCheck, Listed, HasSnapshotsOf, ChildLevel;
    UncheckedHasNoChronicle(s.chronicles, at, n);
    SnapshotsOfPart(s.snapshots, at.key, n);
    var x :| x in s.snapshots && Covers(at.key, x) && PartOf(at.key, x) == n;
    assert Key(ChildLevel(at.key.level), Index(ChildLevel(at.key.level), x)) !in s.chronicles;
  }

  // One answer, from the state of the attempt that gives it.
  lemma AnswerIsDecided(s: State, at: Attempt, a: AttemptAction, t: State, late: bool)
    requires at.key.level != Hour && at.key !in s.chronicles && s.attempt == Some(at) && Current(s, at)
    requires Tracked(s, at, late) && AttemptNext(s, at, a, t) && Answers(a)
    ensures AnswerOf(a) == Decide(StoreOf(s), at.key, Text) <==> !late || a.FindUnsummarizedChild?
    ensures a.Commit? ==> (Unsummarized(s, at.key) <==> late)
    ensures StoreOf(t) == Land(StoreOf(s), at.key, AnswerOf(a))
  {
    DecideRollup(StoreOf(s), at.key, Text);
    hide Decide, HasUnsummarized, HasChildChronicle, PeriodAt, IsPart, HasSnapshotsOf, InChecked, Covers, PartOf;
    match a
    case FindUnsummarizedChild(n) => FoundIsUnsummarized(s, at, n);
    case FindNoChronicles =>
      UnsummarizedIffChecked(s, at);
      AvailableIsChronicle(s, at);
    case Commit =>
      AllWasRead(s.chronicles, at);
      UnsummarizedIffChecked(s, at);
      AvailableIsChronicle(s, at);
      assert StoreOf(t).chronicles == s.chronicles.Keys + {at.key};
    case _ =>
  }

  lemma AllWasRead(chronicles: map<Key, set<int>>, at: Attempt)
    requires at.key.level != Hour && Listed(chronicles, at) && AllChecked(at)
    ensures AllRead(at)
  {
    hide IsPart;
  }

  // However its reads were interleaved, an attempt during which nothing was deleted
  // answers as one that reads, decides and stores at once when it ends: exactly when
  // no snapshot came late, or it was deferred.
  lemma {:induction false} AttemptIsAtomic(states: seq<State>, schedule: seq<Action>, k: Key, a: AttemptAction,
                                           t: State)
    requires k.level != Hour && Trace(states, schedule) && LoseEpoch !in schedule
    requires schedule != [] && schedule[0] == Begin(k) && k !in states[0].chronicles
    requires forall i | 0 < i <= |schedule| :: Concerns(states[i], k)
    requires var s := states[|schedule|];
             k !in s.chronicles && s.attempt.Some? && Current(s, s.attempt.value) && Next(s, Step(a), t) && Answers(a)
    ensures var s := states[|schedule|];
            StoreOf(t) == Land(StoreOf(s), k, AnswerOf(a))
            && (AnswerOf(a) == Decide(StoreOf(s), k, Text) <==>
                a.FindUnsummarizedChild? || forall i | 0 <= i < |schedule| :: !Late(states[i], schedule[i], k))
            && (a.Commit? ==>
                  (Unsummarized(s, k) <==> exists i :: 0 <= i < |schedule| && Late(states[i], schedule[i], k)))
  {
    hide AttemptNext, Late, Tracked, Current, Decide, Land, AnswerOf, Answers, Unsummarized;
    assert Next(states[0], schedule[0], states[1]);
    RunKeepsKey(states, schedule, k, |schedule|);
    var s := states[|schedule|];
    AnswerIsDecided(s, s.attempt.value, a, t, HasLate(states, schedule, |schedule|, k));
  }

  // ---- Both conditions can fail ------------------------------------------------------------

  lemma Append(states: seq<State>, schedule: seq<Action>, a: Action, t: State)
    requires Trace(states, schedule) && Next(states[|schedule|], a, t)
    ensures Trace(states + [t], schedule + [a])
  {
    hide Next;
  }

  // A snapshot that is stored while the text of a rollup is generated, in a child
  // without a chronicle, is missing from that rollup.
  lemma LateSnapshotSeals(s: State, at: Attempt, x: int) returns (states: seq<State>, schedule: seq<Action>)
    requires at.key.level != Hour && s.attempt == Some(at) && at.pc.Ready? && s.lock.Free? && at.epoch == s.dataEpoch
    requires at.key !in s.chronicles && Covers(at.key, x) && PartOf(at.key, x) !in at.available
    ensures Trace(states, schedule) && states[0] == s
    ensures schedule == [Arrive(x), Step(LockForCommit), Step(Commit)] && Partial(states[|schedule|], at.key)
    ensures states[|schedule|] == s.(snapshots := s.snapshots + {x}, attempt := None,
                                     chronicles := s.chronicles[at.key := at.available])
  {
    hide Covers, PartOf;
    var s1 := s.(snapshots := s.snapshots + {x});
    var s2 := s1.(attempt := Some(at.(pc := Locked)), lock := Committing);
    var s3 := s1.(attempt := None, chronicles := s.chronicles[at.key := at.available]);
    states, schedule := [s, s1, s2, s3], [Arrive(x), Step(LockForCommit), Step(Commit)];
    assert x in s3.snapshots;
  }

  // A deletion that fails after its rows are gone lets an attempt store a rollup of
  // chronicles that were deleted.
  lemma LostEpochSeals(s: State, at: Attempt) returns (states: seq<State>, schedule: seq<Action>)
    requires at.key.level != Hour && s.attempt == Some(at) && at.pc.Ready? && s.lock.Free? && at.epoch == s.dataEpoch
    requires at.available != {}
    ensures Trace(states, schedule) && states[0] == s
    ensures states[|schedule|].chronicles == map[at.key := at.available]
    ensures !Founded(states[|schedule|].chronicles, at.key)
  {
    var s1 := s.(lock := Deleting);
    var s2 := s.(lock := Deleted, chronicles := map[]);
    var s3 := s2.(lock := Free);
    var s4 := s3.(attempt := Some(at.(pc := Locked)), lock := Committing);
    var s5 := s3.(attempt := None, chronicles := map[at.key := at.available]);
    states := [s, s1, s2, s3, s4, s5];
    schedule := [LockForDelete, DeleteRows(s.snapshots, true), LoseEpoch, Step(LockForCommit), Step(Commit)];
    assert s2.chronicles[at.key := at.available] == s5.chronicles;
    var n := HasElement(at.available);
    assert Key(ChildLevel(at.key.level), n) !in s5.chronicles;
  }

  // A deletion that succeeds leaves the kept snapshots and no chronicle, and an attempt
  // that was ready to commit stores nothing after it.
  lemma DeletionStopsAttempt(s: State, at: Attempt, kept: set<int>)
    returns (states: seq<State>, schedule: seq<Action>)
    requires s.attempt == Some(at) && at.pc.Ready? && at.epoch <= s.dataEpoch && s.lock.Free? && kept <= s.snapshots
    ensures Trace(states, schedule) && states[0] == s
    ensures schedule == [LockForDelete, DeleteRows(kept, true), AdvanceEpoch, FinishDelete, Step(LockForCommit),
                         Step(Commit)]
    ensures states[4] == State(kept, map[], s.dataEpoch + 1, Free, s.attempt)
    ensures states[6] == State(kept, map[], s.dataEpoch + 1, Free, None)
  {
    var s1, s2 := s.(lock := Deleting), s.(lock := Deleted, snapshots := kept, chronicles := map[]);
    var s3 := s2.(lock := Published, dataEpoch := s.dataEpoch + 1);
    var s4 := s3.(lock := Free);
    var s5, s6 := s4.(lock := Committing, attempt := Some(at.(pc := Locked))), s4.(attempt := None);
    states := [s, s1, s2, s3, s4, s5, s6];
    schedule := [LockForDelete, DeleteRows(kept, true), AdvanceEpoch, FinishDelete, Step(LockForCommit), Step(Commit)];
  }

  const DAY_ZERO: Key := Key(Day, 0)

  function Below(n: nat): (r: set<int>)
    ensures forall i :: i in r <==> 0 <= i < n
  {
    if n == 0 then {} else Below(n - 1) + {n - 1}
  }

  lemma HoursOfDay(n: int)
    ensures IsPart(DAY_ZERO, n) <==> 0 <= n < 24
    ensures Covers(DAY_ZERO, 86399) && PartOf(DAY_ZERO, 86399) == 23
    ensures 1 <= n < 24 ==> !HasSnapshotsOf({0}, DAY_ZERO, n)
  {
  }

  // The first hour of a day has one snapshot and gets its chronicle.
  lemma FirstHour() returns (states: seq<State>, schedule: seq<Action>, s: State)
    ensures Trace(states, schedule) && states[0] == INIT && states[|schedule|] == s && LoseEpoch !in schedule
    ensures s == State({0}, map[Key(Hour, 0) := {}], 0, Free, None)
  {
    var at := Attempt(Key(Hour, 0), 0, Started, {}, {}, {});
    var s1 := INIT.(snapshots := {0});
    var s2 := s1.(attempt := Some(at));
    var s3 := s1.(attempt := Some(at.(pc := Ready)));
    var s4 := s1.(attempt := Some(at.(pc := Locked)), lock := Committing);
    s := s1.(chronicles := map[Key(Hour, 0) := {}]);
    states := [INIT, s1, s2, s3, s4, s];
    schedule := [Arrive(0), Begin(Key(Hour, 0)), Step(ReadSnapshots), Step(LockForCommit), Step(Commit)];
    assert INIT.snapshots + {0} == {0};
    assert 0 in s2.snapshots;
    assert s4.chronicles[Key(Hour, 0) := {}] == s.chronicles;
  }

  ghost function DayState(read: nat, pc: Pc, checked: set<int>): State {
    State({0}, map[Key(Hour, 0) := {}], 0, Free,
          Some(Attempt(DAY_ZERO, 0, pc, Below(read), if read > 0 then {0} else {}, checked)))
  }

  lemma ReadStep(i: nat)
    requires i < 24
    ensures Next(DayState(i, Reading, {}), Step(ReadChild(i)), DayState(i + 1, Reading, {}))
  {
    HoursOfDay(i);
    hide IsPart, Below;
    assert Below(i) + {i} == Below(i + 1);
    var available := DayState(i, Reading, {}).attempt.value.available;
    assert i == 0 ==> available + {i} == {0};
  }

  lemma CheckStep(i: nat)
    requires 1 <= i < 24
    ensures Next(DayState(24, Checking, Below(i) - {0}), Step(CheckChild(i)),
                 DayState(24, Checking, Below(i + 1) - {0}))
  {
    HoursOfDay(i);
    hide IsPart, HasSnapshotsOf, Below;
    assert Below(i) - {0} + {i} == Below(i + 1) - {0};
  }

  lemma AllHours()
    ensures AllRead(DayState(24, Reading, {}).attempt.value)
    ensures AllChecked(DayState(24, Checking, Below(24) - {0}).attempt.value)
  {
    hide IsPart, Below;
    forall n | IsPart(DAY_ZERO, n) ensures 0 <= n < 24 {
      HoursOfDay(n);
    }
  }

  // The attempt at the day, up to its text.
  lemma DayIsChecked() returns (states: seq<State>, schedule: seq<Action>)
    ensures Trace(states, schedule) && states[0] == INIT && LoseEpoch !in schedule
    ensures states[|schedule|] == DayState(24, Ready, Below(24) - {0})
  {
    hide Next, DayState, Below;
    var s;
    states, schedule, s := FirstHour();
    DayBegins(s);
    states, schedule := Then(states, schedule, Begin(DAY_ZERO), DayState(0, Started, {}));
    states, schedule := Then(states, schedule, Step(ListChildren), DayState(0, Reading, {}));
    for i := 0 to 24
      invariant Trace(states, schedule) && states[0] == INIT && LoseEpoch !in schedule
      invariant states[|schedule|] == DayState(i, Reading, {})
    {
      ReadStep(i);
      states, schedule := Then(states, schedule, Step(ReadChild(i)), DayState(i + 1, Reading, {}));
    }
    DayTurns();
    states, schedule := Then(states, schedule, Step(EndReading), DayState(24, Checking, Below(1) - {0}));
    for i := 1 to 24
      invariant Trace(states, schedule) && states[0] == INIT && LoseEpoch !in schedule
      invariant states[|schedule|] == DayState(24, Checking, Below(i) - {0})
    {
      CheckStep(i);
      states, schedule := Then(states, schedule, Step(CheckChild(i)), DayState(24, Checking, Below(i + 1) - {0}));
    }
    states, schedule := Then(states, schedule, Step(EndChecking), DayState(24, Ready, Below(24) - {0}));
  }

  lemma Then(states: seq<State>, schedule: seq<Action>, a: Action, t: State)
    returns (states': seq<State>, schedule': seq<Action>)
    requires Trace(states, schedule) && Next(states[|schedule|], a, t) && LoseEpoch !in schedule && a != LoseEpoch
    ensures Trace(states', schedule') && states'[0] == states[0] && states'[|schedule'|] == t && LoseEpoch !in schedule'
  {
    hide Next;
    Append(states, schedule, a, t);
    states', schedule' := states + [t], schedule + [a];
  }

  lemma DayBegins(s: State)
    requires s == State({0}, map[Key(Hour, 0) := {}], 0, Free, None)
    ensures Next(s, Begin(DAY_ZERO), DayState(0, Started, {}))
    ensures Next(DayState(0, Started, {}), Step(ListChildren), DayState(0, Reading, {}))
  {
  }

  lemma DayTurns()
    ensures Next(DayState(24, Reading, {}), Step(EndReading), DayState(24, Checking, Below(1) - {0}))
    ensures Next(DayState(24, Checking, Below(24) - {0}), Step(EndChecking), DayState(24, Ready, Below(24) - {0}))
  {
    AllHours();
    hide AllRead, AllChecked, Below;
    assert Below(1) - {0} == {};
  }

  // So a day can be stored without its last hour, from an empty store: its attempt
  // begins when only the first hour has a snapshot, and one of the last second of the
  // day is stored while the text is generated.
  lemma LastHourCanBeMissed() returns (states: seq<State>, schedule: seq<Action>)
    ensures Trace(states, schedule) && states[0] == INIT && LoseEpoch !in schedule
    ensures Partial(states[|schedule|], DAY_ZERO) && Index(Hour, 86399) !in states[|schedule|].chronicles[DAY_ZERO]
    ensures states[|schedule|].snapshots == {0, 86399}
  {
    states, schedule := DayIsChecked();
    var s := states[|schedule|];
    HoursOfDay(23);
    hide Next, Covers, PartOf, Partial, Below;
    var last, actions := LateSnapshotSeals(s, s.attempt.value, 86399);
    Join(states, schedule, last, actions);
    states, schedule := states + last[1..], schedule + actions;
  }

  lemma Join(states: seq<State>, schedule: seq<Action>, more: seq<State>, actions: seq<Action>)
    requires Trace(states, schedule) && Trace(more, actions) && more[0] == states[|schedule|]
    ensures Trace(states + more[1..], schedule + actions)
    ensures (states + more[1..])[|schedule + actions|] == more[|actions|]
  {
    hide Next;
    var all := states + more[1..];
    assert forall i | 0 <= i <= |actions| :: all[|schedule| + i] == more[i];
    assert forall i | 0 <= i <= |schedule| :: all[i] == states[i];
    forall i | 0 <= i < |schedule + actions| ensures Next(all[i], (schedule + actions)[i], all[i + 1]) {
      if i >= |schedule| {
        assert Next(more[i - |schedule|], actions[i - |schedule|], more[i - |schedule| + 1]);
      }
    }
  }
}
