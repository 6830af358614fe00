// The capture loop: attempts under the shared policy lease, and the rows they store.
module CaptureLoop {
  // The pipeline merges sightings of an unchanged foreground into one sequence, and one
  // row stores each sequence.
  //
  // The atomic steps of an attempt are methods of the loop, and what the rest of
  // the daemon may do between them are methods too. Ghost state records for every
  // stored row the sightings it was made of; `breaks` counts pauses, delete-alls,
  // skips, failed reads and failed writes, and stamps each sighting.

  import opened Wrappers

  const I64_MIN := -0x8000_0000_0000_0000
  const I64_MAX := 0x7FFF_FFFF_FFFF_FFFF

  type i64 = x: int | I64_MIN <= x <= I64_MAX

  function SaturatingSub(a: i64, b: i64): i64 {
    if a - b < I64_MIN then I64_MIN else if a - b > I64_MAX then I64_MAX else a - b
  }

  function Max(a: i64, b: i64): i64 { if a < b then b else a }

  // The time from one sighting to the next; a clock that went back gives zero.
  function Elapsed(previous: i64, next: i64): i64 { Max(SaturatingSub(next, previous), 0) }

  datatype Context = Context(pid: int, bundle: Option<string>, title: Option<string>, url: Option<string>)

  // A foreground read, with its bounded, redacted text reduced to a digest.
  datatype Raw = Raw(at: i64, context: Context, digest: int, blank: bool,
                     secureInput: bool, protectedContent: bool, blacklisted: bool)

  datatype Candidate = Candidate(startedAt: i64, lastSeenAt: i64, duration: i64, context: Context, digest: int)

  datatype SkipReason = Paused | SecureInput | ProtectedContent | Blacklisted | Empty

  datatype Outcome =
    | Stored(candidate: Candidate)
    | Deduplicated(candidate: Candidate)
    | Coalesced(candidate: Candidate)
    | Skipped(reason: SkipReason)

  function SkipFor(paused: bool, raw: Raw): Option<SkipReason> {
    if paused then Some(Paused)
    else if raw.secureInput then Some(SecureInput)
    else if raw.protectedContent then Some(ProtectedContent)
    else if raw.blacklisted then Some(Blacklisted)
    else if raw.blank then Some(Empty)
    else None
  }

  // What a sighting becomes, given the pending snapshot it may continue.
  function Judge(pending: Option<Candidate>, paused: bool, raw: Raw, window: i64): Outcome {
    var first := Candidate(raw.at, raw.at, 0, raw.context, raw.digest);
    if SkipFor(paused, raw).Some? then Skipped(SkipFor(paused, raw).value)
    else if pending.None? then Stored(first)
    else
      var previous := pending.value;
      if previous.context != raw.context || window < Elapsed(previous.lastSeenAt, raw.at) then Stored(first)
      else
        var merged := first.(startedAt := previous.startedAt,
                             duration := Max(SaturatingSub(raw.at, previous.startedAt), previous.duration));
        if previous.digest == raw.digest then Deduplicated(merged) else Coalesced(merged)
  }

  // In plain terms: the first obstacle skips a sighting; otherwise it goes on from the
  // kept snapshot exactly if nothing of the context changed and the window has not
  // passed.
  predicate Judged(kept: Option<Candidate>, paused: bool, raw: Raw, window: i64, outcome: Outcome) {
    var goesOn := kept.Some?
                  && kept.value.context.pid == raw.context.pid && kept.value.context.bundle == raw.context.bundle
                  && kept.value.context.title == raw.context.title && kept.value.context.url == raw.context.url
                  && 0 <= window && (raw.at - kept.value.lastSeenAt <= window || window == I64_MAX);
    && (outcome.Skipped? <==> paused || raw.secureInput || raw.protectedContent || raw.blacklisted || raw.blank)
    && (outcome == Skipped(Paused) <==> paused)
    && (outcome == Skipped(SecureInput) <==> !paused && raw.secureInput)
    && (outcome == Skipped(ProtectedContent) <==> !paused && !raw.secureInput && raw.protectedContent)
    && (outcome == Skipped(Blacklisted) <==>
          !paused && !raw.secureInput && !raw.protectedContent && raw.blacklisted)
    && (!outcome.Skipped? ==>
          && (outcome.Stored? <==> !goesOn)
          && (outcome.Deduplicated? <==> goesOn && kept.value.digest == raw.digest)
          && (outcome.Coalesced? <==> goesOn && kept.value.digest != raw.digest)
          && var c := outcome.candidate;
          && c.lastSeenAt == raw.at && c.context == raw.context && c.digest == raw.digest
          && c.startedAt == (if goesOn then kept.value.startedAt else raw.at)
          && (!goesOn ==> c.duration == 0)
          && (goesOn ==> Longest(c.duration, kept.value.duration, raw.at - kept.value.startedAt)))
  }

  // The larger of two lengths, where a length beyond the range counts as its bound.
  predicate Longest(duration: i64, before: i64, now: int) {
    before <= duration && (now <= duration || duration == I64_MAX)
    && (duration == before || duration == now || (duration == I64_MAX && I64_MAX < now)
        || (duration == I64_MIN && now < I64_MIN))
  }

  lemma JudgeIsJudged(kept: Option<Candidate>, paused: bool, raw: Raw, window: i64)
    ensures Judged(kept, paused, raw, window, Judge(kept, paused, raw, window))
  {
  }

  class CaptureController {
    var paused: bool
    var continuityEpoch: nat

    constructor ()
      ensures !paused && continuityEpoch == 0
    {
      paused, continuityEpoch := false, 0;
    }

    method Pause()
      modifies this
      ensures paused
      ensures continuityEpoch == old(continuityEpoch) + if old(paused) then 0 else 1
    {
      if !paused {
        continuityEpoch := continuityEpoch + 1;
      }
      paused := true;
    }

    method Resume()
      modifies this
      ensures !paused && continuityEpoch == old(continuityEpoch)
    {
      paused := false;
    }
  }

  class CapturePipeline {
    const window: i64
    const controller: CaptureController
    var observedEpoch: nat
    var pending: Option<Candidate>

    constructor (window: i64, controller: CaptureController)
      ensures this.window == window && this.controller == controller
      ensures observedEpoch == controller.continuityEpoch && pending == None
    {
      this.window, this.controller := window, controller;
      observedEpoch := controller.continuityEpoch;
      pending := None;
    }

    method ClearPending()
      modifies this`pending
      ensures pending == None
    {
      pending := None;
    }

    method Process(raw: Raw) returns (outcome: Outcome)
      modifies this
      ensures observedEpoch == controller.continuityEpoch
      ensures var kept := if old(observedEpoch) == controller.continuityEpoch then old(pending) else None;
              outcome == Judge(kept, controller.paused, raw, window)
              && Judged(kept, controller.paused, raw, window, outcome)
      ensures pending == if outcome.Skipped? then None else Some(outcome.candidate)
    {
      if controller.continuityEpoch != observedEpoch {
        pending := None;
        observedEpoch := controller.continuityEpoch;
      }
      JudgeIsJudged(pending, controller.paused, raw, window);
      var skip := SkipFor(controller.paused, raw);
      if skip.Some? {
        pending := None;
        return Skipped(skip.value);
      }
      var next := Candidate(raw.at, raw.at, 0, raw.context, raw.digest);
      if pending.None? {
        pending := Some(next);
        return Stored(next);
      }
      var previous := pending.value;
      var elapsed := Elapsed(previous.lastSeenAt, next.lastSeenAt);
      if previous.context == next.context && elapsed <= window {
        next := next.(startedAt := previous.startedAt,
                      duration := Max(SaturatingSub(next.lastSeenAt, previous.startedAt), previous.duration));
        pending := Some(next);
        return if previous.digest == next.digest then Deduplicated(next) else Coalesced(next);
      }
      pending := Some(next);
      return Stored(next);
    }
  }

  // ---------------------------------------------------------------- rows

  type Id = nat

  // A read, whether capture was paused then, and the breaks before it.
  datatype Sighting = Sighting(raw: Raw, paused: bool, breaks: nat)

  // The sightings of a row follow each other without a break, in one context,
  // never further apart than the coalesce window.
  ghost predicate Unbroken(row: seq<Sighting>, window: i64) {
    && row != []
    && forall i | 0 <= i < |row| - 1 ::
         && row[i + 1].breaks == row[i].breaks
         && row[i + 1].raw.context == row[i].raw.context
         && Elapsed(row[i].raw.at, row[i + 1].raw.at) <= window
  }

  // The longest time from the first sighting to a later one.
  ghost function Span(row: seq<Sighting>): i64
    requires row != []
  {
    if |row| == 1 then 0
    else Max(SaturatingSub(row[|row| - 1].raw.at, row[0].raw.at), Span(row[..|row| - 1]))
  }

  // Nothing that capture must not see.
  ghost predicate Allowed(row: seq<Sighting>) {
    forall i | 0 <= i < |row| ::
      && !row[i].paused && !row[i].raw.secureInput && !row[i].raw.protectedContent
      && !row[i].raw.blacklisted && !row[i].raw.blank
  }

  // Within the range it is the longest time since the first sighting.
  lemma {:induction false} SpanIsLongest(row: seq<Sighting>) returns (k: nat)
    requires row != [] && forall i | 0 <= i < |row| :: 0 <= row[i].raw.at
    ensures k < |row| && Span(row) == row[k].raw.at - row[0].raw.at
    ensures forall i | 0 <= i < |row| :: row[i].raw.at - row[0].raw.at <= Span(row)
    decreases |row|
  {
    k := |row| - 1;
    if |row| > 1 {
      var front := row[..|row| - 1];
      var before := SpanIsLongest(front);
      assert forall i | 0 <= i < |front| :: front[i] == row[i];
      if row[k].raw.at - row[0].raw.at < Span(front) {
        k := before;
      }
    }
  }

  // The candidate tells the story of the row: its start, its end, its duration.
  ghost predicate Tells(candidate: Candidate, row: seq<Sighting>) {
    && row != []
    && candidate.startedAt == row[0].raw.at
    && candidate.lastSeenAt == row[|row| - 1].raw.at
    && candidate.context == row[|row| - 1].raw.context
    && candidate.duration == Span(row)
  }

  lemma JudgeContinuesRow(previous: Candidate, row: seq<Sighting>, raw: Raw, window: i64, breaks: nat)
    requires Tells(previous, row) && Unbroken(row, window) && Allowed(row) && row[|row| - 1].breaks == breaks
    ensures var outcome := Judge(Some(previous), false, raw, window);
            && (outcome.Deduplicated? || outcome.Coalesced? ==>
                  var longer := row + [Sighting(raw, false, breaks)];
                  Tells(outcome.candidate, longer) && Unbroken(longer, window) && Allowed(longer))
            && (outcome.Stored? ==>
                  var single := [Sighting(raw, false, breaks)];
                  Tells(outcome.candidate, single) && Allowed(single))
  {
    var longer := row + [Sighting(raw, false, breaks)];
    assert longer[..|longer| - 1] == row;
  }

  lemma SingleRow(candidate: Candidate, raw: Raw, breaks: nat, window: i64)
    requires candidate == Candidate(raw.at, raw.at, 0, raw.context, raw.digest) && SkipFor(false, raw).None?
    ensures var row := [Sighting(raw, false, breaks)];
            Tells(candidate, row) && Unbroken(row, window) && Allowed(row)
  {
  }

  // Every moment of a row's duration lies between two consecutive sightings of
  // the row that are at most one window apart, with no break between them.
  lemma {:induction false} DurationIsCovered(row: seq<Sighting>, window: i64, t: int) returns (i: nat)
    requires Unbroken(row, window) && forall k | 0 <= k < |row| :: 0 <= row[k].raw.at
    requires row[0].raw.at < t <= row[0].raw.at + Span(row)
    ensures i + 1 < |row| && row[i].raw.at < t <= row[i + 1].raw.at <= row[i].raw.at + window
    ensures forall k | 0 <= k < |row| :: row[k].breaks == row[i].breaks && row[k].raw.context == row[i].raw.context
    decreases |row|
  {
    var last := |row| - 1;
    RowIsUniform(row, window);
    if t <= row[0].raw.at + Span(row[..last]) {
      i := DurationIsCovered(row[..last], window, t);
    } else {
      i := FirstReaching(row, t);
    }
  }

  lemma {:induction false} RowIsUniform(row: seq<Sighting>, window: i64)
    requires Unbroken(row, window)
    ensures forall k | 0 <= k < |row| :: row[k].breaks == row[0].breaks && row[k].raw.context == row[0].raw.context
    decreases |row|
  {
    if |row| > 1 {
      RowIsUniform(row[..|row| - 1], window);
      assert row[|row| - 2] == row[..|row| - 1][|row| - 2];
    }
  }

  // The step of a row from before a moment to that moment or later.
  lemma {:induction false} FirstReaching(row: seq<Sighting>, t: int) returns (i: nat)
    requires row != [] && row[0].raw.at < t <= row[|row| - 1].raw.at
    ensures i + 1 < |row| && row[i].raw.at < t <= row[i + 1].raw.at
    decreases |row|
  {
    if t <= row[|row| - 2].raw.at {
      i := FirstReaching(row[..|row| - 1], t);
    } else {
      i := |row| - 2;
    }
  }

  // The stored rows: each is unbroken, and storage was told exactly its story.
  ghost predicate RowsValid(rows: map<Id, seq<Sighting>>, told: map<Id, Candidate>, nextId: Id, window: i64) {
    && told.Keys == rows.Keys
    && forall id | id in rows ::
         id < nextId && Unbroken(rows[id], window) && Allowed(rows[id]) && Tells(told[id], rows[id])
  }

  // Later rows: none is lost, and each is continued at its end.
  ghost predicate Continues(rows: map<Id, seq<Sighting>>, later: map<Id, seq<Sighting>>) {
    forall id | id in rows :: id in later && rows[id] <= later[id]
  }

  lemma RowsContinue(a: map<Id, seq<Sighting>>, b: map<Id, seq<Sighting>>, c: map<Id, seq<Sighting>>)
    ensures Continues(a, a)
    ensures Continues(a, b) && Continues(b, c) ==> Continues(a, c)
  {
  }

  lemma RowContinues(rows: map<Id, seq<Sighting>>, told: map<Id, Candidate>, nextId: Id, window: i64,
                     given: Option<Id>, row: seq<Sighting>)
    requires RowsValid(rows, told, nextId, window)
    requires given.Some? ==> given.value in rows && rows[given.value] <= row
    ensures Continues(rows, rows[if given.Some? then given.value else nextId := row])
  {
    hide Unbroken, Tells;
  }

  // ------------------------------------------------------------- the loop

  datatype Answer = Captured(raw: Raw) | Refused | Unreadable

  // Where an attempt is: before it, waiting for the shared lease, holding the
  // lease, and holding it with the provider's answer.
  datatype Phase = Resting | WantsLease | Leased | Answered(answer: Answer)

  datatype Step =
    | BeginAttempt
    | TakeLease
    | Answer(answer: Answer)
    | Handle(stored: bool)
    | Pause
    | Resume
    | DeleteAll(wiped: bool)
    | Prune

  class CaptureLoop {
    const window: i64
    const controller: CaptureController
    var pipeline: CapturePipeline
    var activeId: Option<Id>
    var observedContinuity: nat
    var observedData: nat
    var dataEpoch: nat
    var phase: Phase
    var nextId: Id
    ghost var breaks: nat
    ghost var seenAt: nat
    ghost var rows: map<Id, seq<Sighting>>
    ghost var told: map<Id, Candidate>

    predicate HoldsLease()
      reads this
    {
      phase.Leased? || phase.Answered?
    }

    // A break since the row's last sighting has been noticed or will be, before
    // the next sighting is judged.
    ghost predicate SequenceValid()
      reads this, pipeline, controller
    {
      && (pipeline.pending.Some? <==> activeId.Some?)
      && (activeId.Some? ==>
            && activeId.value in rows
            && Tells(pipeline.pending.value, rows[activeId.value])
            && pipeline.observedEpoch == observedContinuity
            && (LastBreaks() == breaks || observedContinuity < controller.continuityEpoch
                || (!HoldsLease() && observedData < dataEpoch)))
    }

    ghost function LastBreaks(): nat
      requires activeId.Some? && activeId.value in rows && rows[activeId.value] != []
      reads this
    {
      rows[activeId.value][|rows[activeId.value]| - 1].breaks
    }

    ghost predicate Valid()
      reads this, pipeline, controller
    {
      && pipeline.window == window && pipeline.controller == controller
      && observedContinuity <= controller.continuityEpoch
      && observedData <= dataEpoch
      && RowsValid(rows, told, nextId, window)
      && SequenceValid()
      && (HoldsLease() ==> !controller.paused)
      && (phase.Answered? ==> seenAt == breaks)
    }

    constructor (window: i64, controller: CaptureController)
      ensures Valid() && rows == map[] && phase == Resting
      ensures this.controller == controller && fresh(pipeline)
    {
      this.window, this.controller := window, controller;
      pipeline := new CapturePipeline(window, controller);
      activeId, phase := None, Resting;
      observedContinuity, observedData, dataEpoch := controller.continuityEpoch, 0, 0;
      nextId, breaks, seenAt, rows, told := 0, 0, 0, map[], map[];
    }

    method ClearForControllerDiscontinuity()
      requires Valid()
      modifies this`observedContinuity, this`activeId, pipeline`pending
      ensures Valid()
      ensures observedContinuity == controller.continuityEpoch
      ensures activeId == if old(observedContinuity) == controller.continuityEpoch then old(activeId) else None
      ensures activeId.Some? ==> pipeline.pending == old(pipeline.pending)
    {
      if controller.continuityEpoch != observedContinuity {
        pipeline.ClearPending();
        activeId := None;
        observedContinuity := controller.continuityEpoch;
      }
    }

    method ClearCaptureContinuity()
      requires Valid()
      modifies this`activeId, pipeline`pending
      ensures Valid() && activeId == None
    {
      pipeline.ClearPending();
      activeId := None;
    }

    method DoBeginAttempt()
      requires Valid() && phase.Resting?
      modifies this`observedContinuity, this`activeId, this`phase, pipeline`pending
      ensures Valid() && observedContinuity == controller.continuityEpoch
      ensures phase == if controller.paused then Resting else WantsLease
      ensures activeId == if controller.paused || old(observedContinuity) != controller.continuityEpoch then None
                          else old(activeId)
      ensures activeId.Some? ==> pipeline.pending == old(pipeline.pending)
    {
      hide RowsValid, Tells, Unbroken;
      ClearForControllerDiscontinuity();
      if controller.paused {
        ClearCaptureContinuity();
      } else {
        phase := WantsLease;
      }
    }

    method DoTakeLease()
      requires Valid() && phase.WantsLease?
      modifies this`activeId, this`observedData, this`pipeline, this`phase, pipeline`pending
      ensures Valid() && (pipeline == old(pipeline) || fresh(pipeline))
      ensures phase == if controller.paused then Resting else Leased
      ensures observedData == if controller.paused then old(observedData) else dataEpoch
      ensures activeId == if controller.paused || old(observedData) != dataEpoch then None else old(activeId)
      ensures activeId.Some? ==> pipeline == old(pipeline) && pipeline.pending == old(pipeline.pending)
    {
      if controller.paused {
        ClearCaptureContinuity();
        phase := Resting;
        return;
      }
      if dataEpoch != observedData {
        pipeline := new CapturePipeline(window, controller);
        activeId := None;
        observedData := dataEpoch;
      }
      phase := Leased;
    }

    method DoAnswer(answer: Answer)
      requires Valid() && phase.Leased?
      modifies this`phase, this`seenAt
      ensures Valid() && phase == Answered(answer)
    {
      phase := Answered(answer);
      seenAt := breaks;
    }

    // The outcome for a sighting now: the pipeline forgets its pending snapshot
    // when capture was paused since it last looked.
    function JudgeNow(raw: Raw): Outcome
      reads this, pipeline, controller
    {
      Judge(if observedContinuity == controller.continuityEpoch then pipeline.pending else None,
            controller.paused, raw, window)
    }

    // The provider has answered: judge the sighting, store it, release the
    // lease. An existing row id is given to storage exactly for deduplicated
    // and coalesced sightings, and it is the row of the same sequence.
    method DoHandle(stored: bool) returns (outcome: Option<Outcome>, given: Option<Id>)
      requires Valid() && phase.Answered?
      modifies this, pipeline
      ensures Valid() && phase == Resting && pipeline == old(pipeline)
      ensures outcome == if old(phase).answer.Captured? then Some(old(JudgeNow(phase.answer.raw))) else None
      ensures given.Some? <==> outcome.Some? && (outcome.value.Deduplicated? || outcome.value.Coalesced?)
      ensures given.Some? ==>
        && given == old(activeId) && given.value in old(rows)
        && rows == if stored then old(rows)[given.value := old(NextRow(activeId, phase.answer.raw))] else old(rows)
      ensures outcome.Some? && outcome.value.Stored? ==>
        rows == if stored then old(rows)[old(nextId) := old(NextRow(None, phase.answer.raw))] else old(rows)
      ensures var written := outcome.Some? && !outcome.value.Skipped? && stored;
              var id := if given.Some? then given.value else old(nextId);
              && activeId == (if written then Some(id) else None)
              && told == (if written then old(told)[id := outcome.value.candidate] else old(told))
              && breaks == old(breaks) + (if written then 0 else 1)
      ensures outcome.None? || outcome.value.Skipped? ==> rows == old(rows)
      ensures Continues(old(rows), rows)
    {
      hide Judge, Unbroken, Tells, RowsValid, Continues;
      RowsContinue(rows, rows, rows);
      outcome, given := None, None;
      ClearForControllerDiscontinuity();
      var answer := phase.answer;
      phase := Resting;
      if answer.Captured? {
        var judged;
        judged, given := HandleCaptured(answer.raw, stored);
        outcome := Some(judged);
      } else {
        ClearCaptureContinuity();
        breaks := breaks + 1;
      }
    }

    // The three storing outcomes differ in the row they name.
    method HandleCaptured(raw: Raw, stored: bool) returns (outcome: Outcome, given: Option<Id>)
      requires Valid() && phase == Resting && !controller.paused
      requires observedContinuity == controller.continuityEpoch
      requires activeId.Some? ==> LastBreaks() == breaks
      modifies this`activeId, this`nextId, this`rows, this`told, this`breaks, pipeline
      ensures Valid() && outcome == old(JudgeNow(raw)) && Continues(old(rows), rows)
      ensures given == if outcome.Deduplicated? || outcome.Coalesced? then old(activeId) else None
      ensures outcome.Deduplicated? || outcome.Coalesced? ==> given.Some?
      ensures given.Some? ==> given.value in old(rows)
      ensures rows == if outcome.Skipped? || !stored then old(rows)
                      else old(rows)[if given.Some? then given.value
                                     else old(nextId) := old(NextRow(if outcome.Stored? then None else activeId, raw))]
      ensures var written := !outcome.Skipped? && stored;
              var id := if given.Some? then given.value else old(nextId);
              && activeId == (if written then Some(id) else None)
              && told == (if written then old(told)[id := outcome.candidate] else old(told))
              && breaks == old(breaks) + (if written then 0 else 1)
    {
      hide Continues;
      RowsContinue(rows, rows, rows);
      ghost var pending := pipeline.pending;
      outcome := pipeline.Process(raw);
      if outcome.Skipped? {
        activeId, given := None, None;
        breaks := breaks + 1;
        return;
      }
      given := if outcome.Stored? then None else activeId;
      if pending.Some? {
        JudgeContinuesRow(pending.value, rows[activeId.value], raw, window, breaks);
      } else {
        SingleRow(outcome.candidate, raw, breaks, window);
      }
      activeId := None;
      RowContinues(rows, told, nextId, window, given, NextRow(given, raw));
      Persist(outcome.candidate, given, stored, NextRow(given, raw));
    }

    // The row after the sighting: a longer one, or a new one.
    ghost function NextRow(given: Option<Id>, raw: Raw): seq<Sighting>
      requires given.Some? ==> given.value in rows
      reads this, controller
    {
      var seen := Sighting(raw, controller.paused, breaks);
      if given.Some? then rows[given.value] + [seen] else [seen]
    }

    // persist_candidate and update_capture_continuity_after_persist: storage
    // returns the given id, or a new one; a failed write ends the sequence.
    method Persist(candidate: Candidate, given: Option<Id>, stored: bool, ghost row: seq<Sighting>)
      requires RowsValid(rows, told, nextId, window)
      requires pipeline.pending == Some(candidate) && pipeline.window == window && pipeline.controller == controller
      requires pipeline.observedEpoch == observedContinuity == controller.continuityEpoch && observedData <= dataEpoch
      requires phase.Resting? && (given.Some? ==> given.value in rows)
      requires Tells(candidate, row) && Unbroken(row, window) && Allowed(row) && row[|row| - 1].breaks == breaks
      modifies this`activeId, this`nextId, this`rows, this`told, this`breaks, pipeline`pending
      ensures Valid()
      ensures var id := if given.Some? then given.value else old(nextId);
              && activeId == (if stored then Some(id) else None)
              && rows == (if stored then old(rows)[id := row] else old(rows))
              && told == (if stored then old(told)[id := candidate] else old(told))
              && breaks == old(breaks) + (if stored then 0 else 1)
    {
      hide Span, Unbroken;
      if stored {
        Store(candidate, given, row);
      } else {
        pipeline.ClearPending();
        activeId := None;
        breaks := breaks + 1;
      }
    }

    // Storage writes the candidate under the given id, or under a new one.
    method Store(candidate: Candidate, given: Option<Id>, ghost row: seq<Sighting>)
      requires RowsValid(rows, told, nextId, window) && (given.Some? ==> given.value in rows)
      requires Tells(candidate, row) && Unbroken(row, window) && Allowed(row)
      modifies this`activeId, this`nextId, this`rows, this`told
      ensures RowsValid(rows, told, nextId, window)
              && activeId == Some(if given.Some? then given.value else old(nextId))
      ensures rows == old(rows)[activeId.value := row] && told == old(told)[activeId.value := candidate]
    {
      hide Tells, Unbroken;
      var id := if given.Some? then given.value else nextId;
      rows := rows[id := row];
      told := told[id := candidate];
      nextId := if given.Some? then nextId else nextId + 1;
      activeId := Some(id);
    }

    // ------------------------------------------- what others do meanwhile

    // capture_pause, under the exclusive lease.
    method DoPause()
      requires Valid() && !HoldsLease()
      modifies this`breaks, controller
      ensures Valid() && controller.paused
      ensures var stops := if old(controller.paused) then 0 else 1;
              breaks == old(breaks) + stops && controller.continuityEpoch == old(controller.continuityEpoch) + stops
    {
      breaks := breaks + if controller.paused then 0 else 1;
      controller.Pause();
    }

    // capture_resume takes no lease.
    method DoResume()
      requires Valid()
      modifies controller
      ensures Valid() && !controller.paused && controller.continuityEpoch == old(controller.continuityEpoch)
    {
      controller.Resume();
    }

    // delete_all_data, under the exclusive lease, with CaptureResumeOnDrop. The
    // epoch moves only when the stored rows are gone.
    method DoDeleteAll(wiped: bool)
      requires Valid() && !HoldsLease()
      modifies this`breaks, this`dataEpoch, controller
      ensures Valid() && controller.paused == old(controller.paused)
      ensures dataEpoch == old(dataEpoch) + if wiped then 1 else 0
      ensures controller.continuityEpoch == old(controller.continuityEpoch) + if old(controller.paused) then 0 else 1
      ensures breaks == old(breaks) + if wiped || !old(controller.paused) then 1 else 0
    {
      var wasPaused := controller.paused;
      controller.Pause();
      if wiped {
        dataEpoch := dataEpoch + 1;
      }
      breaks := breaks + if wiped || !wasPaused then 1 else 0;
      if !wasPaused {
        controller.Resume();
      }
    }

    // A retention prune moves the epoch under no lease.
    method DoPrune()
      requires Valid()
      modifies this`dataEpoch
      ensures Valid() && dataEpoch == old(dataEpoch) + 1
    {
      dataEpoch := dataEpoch + 1;
    }

    // An answer is taken in when it is a sighting that may be stored and the write succeeds.
    predicate TakesIn(answer: Answer, stored: bool) {
      stored && answer.Captured? && !answer.raw.secureInput && !answer.raw.protectedContent
      && !answer.raw.blacklisted && !answer.raw.blank
    }

    // The active row ends with the sighting.
    ghost predicate EndsWith(raw: Raw)
      reads this
    {
      activeId.Some? && activeId.value in rows
      && var row := rows[activeId.value]; row != [] && row[|row| - 1].raw == raw
    }

    method HandleAnswer(stored: bool)
      requires Valid() && phase.Answered?
      modifies this, pipeline
      ensures Valid() && phase == Resting && pipeline == old(pipeline) && Continues(old(rows), rows)
      ensures var answer := old(phase).answer;
              if TakesIn(answer, stored) then EndsWith(answer.raw) else rows == old(rows) && told == old(told)
    {
      hide Tells, Unbroken, RowsValid, Continues, Judge;
      if phase.answer.Captured? {
        JudgeIsJudged(if observedContinuity == controller.continuityEpoch then pipeline.pending else None,
                      controller.paused, phase.answer.raw, window);
      }
      var outcome, given := DoHandle(stored);
    }

    // One step, if it is possible now.
    method Perform(step: Step)
      requires Valid()
      modifies this, pipeline, controller
      ensures Valid() && (pipeline == old(pipeline) || fresh(pipeline)) && Continues(old(rows), rows)
      ensures !step.Handle? ==> rows == old(rows) && told == old(told)
      ensures match step
              case BeginAttempt => old(phase).Resting? ==> phase == if controller.paused then Resting else WantsLease
              case TakeLease => old(phase).WantsLease? ==> phase == if controller.paused then Resting else Leased
              case Answer(answer) => old(phase).Leased? ==> phase == Answered(answer)
              case Handle(stored) =>
                old(phase).Answered? ==>
                  phase == Resting
                  && if TakesIn(old(phase).answer, stored) then EndsWith(old(phase).answer.raw) else rows == old(rows)
              case Pause => old(HoldsLease()) || controller.paused
              case Resume => !controller.paused
              case DeleteAll(wiped) => old(HoldsLease()) || dataEpoch == old(dataEpoch) + if wiped then 1 else 0
              case Prune => dataEpoch == old(dataEpoch) + 1
    {
      RowsContinue(rows, rows, rows);
      hide *;
      match step {
        case BeginAttempt => if phase.Resting? { DoBeginAttempt(); }
        case TakeLease => if phase.WantsLease? { DoTakeLease(); }
        case Answer(answer) => if phase.Leased? { DoAnswer(answer); }
        case Handle(stored) => if phase.Answered? { HandleAnswer(stored); }
        case Pause => if !HoldsLease() { DoPause(); }
        case Resume => DoResume();
        case DeleteAll(wiped) => if !HoldsLease() { DoDeleteAll(wiped); }
        case Prune => DoPrune();
      }
    }

    // Any schedule of these steps, impossible ones being skipped. Rows are only
    // added and continued.
    method Run(schedule: seq<Step>)
      requires Valid()
      modifies this, pipeline, controller
      ensures Valid() && Continues(old(rows), rows)
    {
      hide *;
      RowsContinue(rows, rows, rows);
      for i := 0 to |schedule|
        invariant Valid() && (pipeline == old(pipeline) || fresh(pipeline)) && Continues(old(rows), rows)
      {
        ghost var before := rows;
        Perform(schedule[i]);
        RowsContinue(old(rows), before, rows);
      }
    }

    // What storage was told about a row never covers a break or a gap longer
    // than the window: every moment of the stored duration lies between two
    // sightings of one unbroken stretch, at most a window apart.
    lemma StoredDurationIsCovered(id: Id, t: int) returns (i: nat)
      requires Valid() && id in rows
      requires forall k | 0 <= k < |rows[id]| :: 0 <= rows[id][k].raw.at
      requires told[id].startedAt < t <= told[id].startedAt + told[id].duration
      ensures i + 1 < |rows[id]|
      ensures rows[id][i].raw.at < t <= rows[id][i + 1].raw.at <= rows[id][i].raw.at + window
      ensures forall k | 0 <= k < |rows[id]| :: rows[id][k].breaks == rows[id][i].breaks
    {
      i := DurationIsCovered(rows[id], window, t);
    }

    // And no row, in any run, has a sighting of a secure field, of protected or
    // blacklisted content, without text, or from a pause.
    lemma StoredSightingsAreAllowed(id: Id, k: nat)
      requires Valid() && id in rows && k < |rows[id]|
      ensures var seen := rows[id][k];
              !seen.paused && !seen.raw.secureInput && !seen.raw.protectedContent && !seen.raw.blacklisted
              && !seen.raw.blank
    {
      assert Allowed(rows[id]);
    }
  }
}
