// What a session publishes from the event queue, over every order in which the
// backend sends and the session receives.
module Transcription {
  import opened Wrappers
  import opened EventQueue

  datatype Callback = Delta(item: string, text: string) | Final(item: string, text: string)

  class EventTranscriptState {
    var partials: map<string, string>
    var finals: set<string>

    constructor ()
      ensures partials == map[] && finals == {}
    {
      partials, finals := map[], {};
    }

    method ReplacePartial(item: string, text: string) returns (r: Option<string>)
      modifies this`partials
      ensures r == if item in finals then None else Some(text)
      ensures partials == if item in finals then old(partials) else old(partials)[item := text]
    {
      if item in finals {
        return None;
      }
      partials := partials[item := text];
      r := Some(text);
    }

    method Complete(item: string, text: string) returns (r: string)
      modifies this
      ensures r == text && partials == old(partials) - {item} && finals == old(finals) + {item}
    {
      partials := partials - {item};
      finals := finals + {item};
      r := text;
    }

    method PublishBackendEvent(e: Event) returns (said: seq<Callback>)
      modifies this
      ensures said == Published(old(finals), e)
      ensures said == if Content(e) && !(e.Partial? && e.item in old(finals)) then [Shown(e)] else []
      ensures finals == old(finals) + if e.Done? then {e.item} else {}
      ensures partials == match e
                          case Partial(item, text) =>
                            if item in finals then old(partials) else old(partials)[item := text]
                          case Done(item, _) => old(partials) - {item}
                          case _ => old(partials)
    {
      said := [];
      match e {
        case Partial(item, text) =>
          var shown := ReplacePartial(item, text);
          if shown.Some? {
            said := [Delta(item, shown.value)];
          }
        case Done(item, text) =>
          var shown := Complete(item, text);
          said := [Final(item, shown)];
        case _ =>
      }
    }
  }

  function Published(finals: set<string>, e: Event): seq<Callback> {
    match e
    case Partial(item, text) => if item in finals then [] else [Delta(item, text)]
    case Done(item, text) => [Final(item, text)]
    case _ => []
  }

  // ---- Runs -----------------------------------------------------------------------

  // `sent` and `said` are the whole history.
  datatype Run = Run(queue: Queue, finals: set<string>, sent: seq<Event>, said: seq<Callback>)
  datatype Action = Send(event: Event) | Receive

  function Begin(capacity: nat): Run { Run(Queue([], capacity, false), {}, [], []) }

  function Step(r: Run, a: Action): Run {
    match a
    case Send(e) => r.(queue := Pushed(r.queue, e).0, sent := r.sent + [e])
    case Receive =>
      if r.queue.overflowed || r.queue.events == [] then r
      else
        var e := r.queue.events[0];
        Run(r.queue.(events := r.queue.events[1..]),
            r.finals + (if e.Done? then {e.item} else {}),
            r.sent,
            r.said + Published(r.finals, e))
  }

  function Perform(r: Run, schedule: seq<Action>): Run
    decreases |schedule|
  {
    if schedule == [] then r else Perform(Step(r, schedule[0]), schedule[1..])
  }

  // ---- Histories --------------------------------------------------------------------

  // The last final sent for an item, else the last partial.
  function Latest(sent: seq<Event>, item: string): Option<Event> {
    if sent == [] then None
    else
      var last, before := sent[|sent| - 1], Latest(sent[..|sent| - 1], item);
      if !About(last, item) || (last.Partial? && before.Some? && before.value.Done?) then before else Some(last)
  }

  function LastSaid(said: seq<Callback>, item: string): Option<Callback> {
    if said == [] then None
    else
      var last := said[|said| - 1];
      if last.item == item then Some(last) else LastSaid(said[..|said| - 1], item)
  }

  predicate SaidFinal(said: seq<Callback>, item: string) {
    exists i :: 0 <= i < |said| && said[i] == Final(item, said[i].text)
  }

  predicate NoDeltaAfterFinal(said: seq<Callback>) {
    forall i, j :: 0 <= i < j < |said| && said[i].Final? && said[i].item == said[j].item ==> said[j].Final?
  }

  lemma LatestStep(sent: seq<Event>, e: Event, item: string)
    ensures Latest(sent + [e], item) ==
            var before := Latest(sent, item);
            if !About(e, item) || (e.Partial? && before.Some? && before.value.Done?) then before else Some(e)
  {
    assert (sent + [e])[..|sent|] == sent;
  }

  lemma LastSaidStep(said: seq<Callback>, c: Callback, item: string)
    ensures LastSaid(said + [c], item) == if c.item == item then Some(c) else LastSaid(said, item)
    ensures SaidFinal(said + [c], item) <==> SaidFinal(said, item) || (c.Final? && c.item == item)
  {
    var t := said + [c];
    assert t[..|said|] == said && t[|said|] == c;
    assert SaidFinal(said, item) ==> SaidFinal(t, item) by {
      if SaidFinal(said, item) {
        var i :| 0 <= i < |said| && said[i] == Final(item, said[i].text);
        assert t[i] == Final(item, t[i].text);
      }
    }
    if c.Final? && c.item == item {
      assert t[|said|] == Final(item, t[|said|].text);
    }
  }

  lemma {:induction false} LastSaidFinal(said: seq<Callback>, item: string)
    requires LastSaid(said, item).Some? && LastSaid(said, item).value.Final?
    ensures SaidFinal(said, item)
  {
    var last := |said| - 1;
    if said[last].item == item {
      assert said[last] == Final(item, said[last].text);
    } else {
      LastSaidFinal(said[..last], item);
      LastSaidStep(said[..last], said[last], item);
      assert said[..last] + [said[last]] == said;
    }
  }

  // ---- The invariant ------------------------------------------------------------------

  // The session has been told of a final exactly when it has one, and a pending
  // final is the last one sent.
  ghost predicate Honest(r: Run, item: string) {
    (item in r.finals <==> SaidFinal(r.said, item))
    && (item in r.finals ==> Latest(r.sent, item).Some? && Latest(r.sent, item).value.Done?)
    && (var p := Pending(r.queue.events, item);
        p.Some? && p.value.Done? ==> Latest(r.sent, item) == p)
  }

  // Without an overflow the last final sent is pending or is the last thing said.
  ghost predicate FinalKept(r: Run, item: string) {
    var f, p := Latest(r.sent, item), Pending(r.queue.events, item);
    f.Some? && f.value.Done? ==>
      p == f || ((p.None? || p.value.Partial?) && LastSaid(r.said, item) == Some(Final(item, f.value.text)))
  }

  ghost predicate Inv(r: Run) {
    OnePerItem(r.queue.events)
    && |r.queue.events| <= r.queue.capacity
    && NoDeltaAfterFinal(r.said)
    && (forall item :: Honest(r, item))
    && (!r.queue.overflowed ==> forall item :: FinalKept(r, item))
  }

  lemma SendKeepsItem(r: Run, e: Event, item: string)
    requires OnePerItem(r.queue.events) && |r.queue.events| <= r.queue.capacity
    requires Honest(r, item)
    ensures Honest(Step(r, Send(e)), item)
    ensures !Step(r, Send(e)).queue.overflowed && FinalKept(r, item) ==> FinalKept(Step(r, Send(e)), item)
  {
    PushPending(r.queue, e, item);
    LatestStep(r.sent, e, item);
    PendingSome(r.queue.events, item);
    OverflowIsMarked(r.queue, e);
    hide Pushed, OnePerItem, Pending, Latest, LastSaid, SaidFinal;
  }

  lemma OverflowIsMarked(q: Queue, e: Event)
    ensures Pushed(q, e).0.overflowed <==> q.overflowed || Pushed(q, e).1 == Overflow
    ensures Pushed(q, e).0.capacity == q.capacity
  {
  }

  lemma ReceiveKeepsItem(r: Run, item: string)
    requires OnePerItem(r.queue.events) && !r.queue.overflowed && r.queue.events != []
    requires Honest(r, item) && Honest(r, r.queue.events[0].item)
    ensures Honest(Step(r, Receive), item)
    ensures FinalKept(r, item) && FinalKept(r, r.queue.events[0].item) ==> FinalKept(Step(r, Receive), item)
  {
    hide Pending, Latest, LastSaid, SaidFinal, OnePerItem;
    var e := r.queue.events[0];
    PendingAt(r.queue.events, 0);
    PendingSome(r.queue.events, item);
    PendingRest(r.queue.events, item);
    if LastSaid(r.said, item).Some? && LastSaid(r.said, item).value.Final? {
      LastSaidFinal(r.said, item);
    }
    assert r.said + [] == r.said;
    if Published(r.finals, e) != [] {
      LastSaidStep(r.said, Published(r.finals, e)[0], item);
    }
  }

  lemma PendingRest(events: seq<Event>, item: string)
    requires OnePerItem(events) && events != []
    ensures Content(events[0])
    ensures Pending(events[1..], item) == if item == events[0].item then None else Pending(events, item)
  {
  }

  lemma SaidFinalAt(said: seq<Callback>, i: nat)
    requires i < |said| && said[i].Final?
    ensures SaidFinal(said, said[i].item)
  {
    assert said[i] == Final(said[i].item, said[i].text);
  }

  lemma NoDeltaStep(said: seq<Callback>, c: Callback)
    requires NoDeltaAfterFinal(said) && (c.Delta? ==> !SaidFinal(said, c.item))
    ensures NoDeltaAfterFinal(said + [c])
  {
    var t := said + [c];
    forall i, j | 0 <= i < j < |t| && t[i].Final? && t[i].item == t[j].item
      ensures t[j].Final?
    {
      SaidFinalAt(said, i);
    }
  }

  lemma HonestFinals(r: Run, item: string)
    requires Honest(r, item)
    ensures item in r.finals <==> SaidFinal(r.said, item)
  {
    hide SaidFinal, Pending, Latest;
  }

  lemma StepKeepsInv(r: Run, a: Action)
    requires Inv(r)
    ensures Inv(Step(r, a))
  {
    hide Pending, Latest, LastSaid, SaidFinal, NoDeltaAfterFinal, Honest, FinalKept;
    match a {
      case Send(e) =>
        PushPending(r.queue, e, "");
        OverflowIsMarked(r.queue, e);
        forall item: string
          ensures Honest(Step(r, a), item)
          ensures !Step(r, a).queue.overflowed ==> FinalKept(Step(r, a), item)
        {
          SendKeepsItem(r, e, item);
        }
      case Receive =>
        if !r.queue.overflowed && r.queue.events != [] {
          var e := r.queue.events[0];
          forall item: string
            ensures Honest(Step(r, a), item)
            ensures FinalKept(Step(r, a), item)
          {
            ReceiveKeepsItem(r, item);
          }
          assert r.said + [] == r.said;
          assert Honest(r, e.item);
          if Published(r.finals, e) != [] {
            HonestFinals(r, e.item);
            NoDeltaStep(r.said, Published(r.finals, e)[0]);
          }
        }
    }
  }

  // Over every order of sends and receives.
  lemma {:induction false} RunsKeepInv(r: Run, schedule: seq<Action>)
    requires Inv(r)
    ensures Inv(Perform(r, schedule))
    decreases |schedule|
  {
    hide Inv, Step;
    if schedule != [] {
      StepKeepsInv(r, schedule[0]);
      RunsKeepInv(Step(r, schedule[0]), schedule[1..]);
    }
  }

  lemma BeginKeepsInv(capacity: nat)
    ensures Inv(Begin(capacity))
  {
  }

  // ---- Draining -------------------------------------------------------------------------

  function Receives(n: nat): seq<Action> { seq(n, _ => Receive) }

  // As many receives as there are pending events empty a queue without overflow.
  lemma {:induction false} DrainEmpties(r: Run)
    requires !r.queue.overflowed
    ensures var t := Perform(r, Receives(|r.queue.events|));
            t.queue.events == [] && !t.queue.overflowed && t.sent == r.sent && t.queue.capacity == r.queue.capacity
    decreases |r.queue.events|
  {
    var n := |r.queue.events|;
    if n > 0 {
      assert Receives(n)[1..] == Receives(n - 1);
      DrainEmpties(Step(r, Receive));
    }
  }

  // The text of the last final said for an item.
  function FinalText(said: seq<Callback>, item: string): Option<string> {
    match LastSaid(said, item)
    case Some(Final(_, text)) => Some(text)
    case _ => None
  }

  // A listener that is told of every event sent, in the order of sending.
  function PublishAll(sent: seq<Event>): (set<string>, seq<Callback>) {
    if sent == [] then ({}, [])
    else
      var (finals, said) := PublishAll(sent[..|sent| - 1]);
      var e := sent[|sent| - 1];
      (finals + (if e.Done? then {e.item} else {}), said + Published(finals, e))
  }

  function Shown(e: Event): Callback
    requires Content(e)
  {
    if e.Done? then Final(e.item, e.text) else Delta(e.item, e.text)
  }

  lemma {:induction false} LosslessFinals(sent: seq<Event>, item: string)
    ensures var (finals, said) := PublishAll(sent);
            var f := Latest(sent, item);
            (item in finals <==> f.Some? && f.value.Done?)
            && (f.None? ==> LastSaid(said, item).None?)
            && (f.Some? ==> About(f.value, item) && LastSaid(said, item) == Some(Shown(f.value)))
  {
    if sent != [] {
      var before, e := sent[..|sent| - 1], sent[|sent| - 1];
      LosslessFinals(before, item);
      assert before + [e] == sent;
      LatestStep(before, e, item);
      var (finals, said) := PublishAll(before);
      assert said + [] == said;
      if Published(finals, e) != [] {
        LastSaidStep(said, Published(finals, e)[0], item);
      }
      hide Latest, LastSaid, SaidFinal;
    }
  }

  // After any run that has not overflowed, draining the queue leaves every item with
  // the final text that a lossless queue would give it, and a delta never follows.
  lemma DrainedAgreesOnFinals(capacity: nat, schedule: seq<Action>, item: string)
    requires !Perform(Begin(capacity), schedule).queue.overflowed
    ensures var r := Perform(Begin(capacity), schedule);
            var t := Perform(r, Receives(|r.queue.events|));
            t.queue.events == [] && NoDeltaAfterFinal(t.said)
            && FinalText(t.said, item) == FinalText(PublishAll(r.sent).1, item)
  {
    hide *;
    var r := Perform(Begin(capacity), schedule);
    var t := Perform(r, Receives(|r.queue.events|));
    BeginKeepsInv(capacity);
    RunsKeepInv(Begin(capacity), schedule);
    RunsKeepInv(r, Receives(|r.queue.events|));
    DrainEmpties(r);
    FinalsAtRest(t, item);
    LosslessFinalText(r.sent, item);
  }

  lemma LosslessFinalText(sent: seq<Event>, item: string)
    ensures var f := Latest(sent, item);
            FinalText(PublishAll(sent).1, item) == if f.Some? && f.value.Done? then Some(f.value.text) else None
  {
    LosslessFinals(sent, item);
    hide Latest, LastSaid, PublishAll;
  }

  lemma FinalsAtRest(t: Run, item: string)
    requires Inv(t) && t.queue.events == [] && !t.queue.overflowed
    ensures NoDeltaAfterFinal(t.said)
    ensures var f := Latest(t.sent, item);
            FinalText(t.said, item) == if f.Some? && f.value.Done? then Some(f.value.text) else None
  {
    hide OnePerItem, NoDeltaAfterFinal, Latest, LastSaid, SaidFinal;
    assert Pending([], item) == None;
    assert Honest(t, item) && FinalKept(t, item);
    if LastSaid(t.said, item).Some? && LastSaid(t.said, item).value.Final? {
      LastSaidFinal(t.said, item);
    }
  }

  // ---- A queue with room for every item ---------------------------------------------------

  ghost predicate Covered(events: seq<Event>, items: set<string>) {
    forall i :: 0 <= i < |events| && Content(events[i]) ==> events[i].item in items
  }

  lemma {:induction false} NoMoreThanItems(events: seq<Event>, items: set<string>)
    requires OnePerItem(events) && Covered(events, items)
    ensures |events| <= |items|
  {
    if events != [] {
      var item := events[0].item;
      PendingSome(events[1..], item);
      assert Covered(events[1..], items - {item});
      NoMoreThanItems(events[1..], items - {item});
    }
  }

  // With room for every item a push never evicts and never overflows.
  lemma RoomyPush(q: Queue, e: Event, items: set<string>, item: string)
    requires OnePerItem(q.events) && Covered(q.events, items) && |items| <= q.capacity
    requires Content(e) ==> e.item in items
    ensures var (t, d) := Pushed(q, e);
            d != Overflow && t.overflowed == q.overflowed && t.capacity == q.capacity
            && OnePerItem(t.events) && Covered(t.events, items)
            && var was := Pending(q.events, item);
            Pending(t.events, item) ==
            if About(e, item) && !(e.Partial? && was.Some? && was.value.Done?) then Some(e) else was
  {
    hide OnePerItem, Pending;
    NoMoreThanItems(q.events, items);
    PushPending(q, e, item);
    if Content(e) {
      PendingSome(q.events, e.item);
      var done, partial := FindDone(q.events, e.item, 0), FindPartial(q.events, e.item, 0);
      if done.Some? {
        PendingAt(q.events, done.value);
      }
      if partial.Some? {
        PendingAt(q.events, partial.value);
        ReplacePending(q.events, partial.value, e, item);
      } else if done.Some? {
        ReplacePending(q.events, done.value, e, item);
      } else {
        assert Covered(q.events, items - {e.item});
        NoMoreThanItems(q.events, items - {e.item});
        AppendPending(q.events, e, item);
      }
    }
  }

  // What was last sent for an item is pending or is what was last said.
  ghost predicate Exact(r: Run, item: string) {
    var f, p := Latest(r.sent, item), Pending(r.queue.events, item);
    if f.None? then p.None? && LastSaid(r.said, item).None?
    else
      About(f.value, item)
      && (p == f
          || (LastSaid(r.said, item) == Some(Shown(f.value))
              && (p.None? || (f.value.Done? && p.value.Partial?))))
  }

  ghost predicate Roomy(r: Run, items: set<string>) {
    Inv(r) && !r.queue.overflowed && |items| <= r.queue.capacity && Covered(r.queue.events, items)
    && forall item :: Exact(r, item)
  }

  lemma ReceiveKeepsExact(r: Run, item: string)
    requires OnePerItem(r.queue.events) && !r.queue.overflowed && r.queue.events != []
    requires Honest(r, item) && Exact(r, item)
    ensures Exact(Step(r, Receive), item)
  {
    hide Pending, Latest, LastSaid, SaidFinal, OnePerItem;
    var e := r.queue.events[0];
    PendingAt(r.queue.events, 0);
    PendingSome(r.queue.events, item);
    PendingRest(r.queue.events, item);
    if LastSaid(r.said, item).Some? && LastSaid(r.said, item).value.Final? {
      LastSaidFinal(r.said, item);
    }
    assert r.said + [] == r.said;
    if Published(r.finals, e) != [] {
      LastSaidStep(r.said, Published(r.finals, e)[0], item);
    }
  }

  predicate Admits(a: Action, items: set<string>) {
    a.Send? && Content(a.event) ==> a.event.item in items
  }

  lemma StepKeepsRoomy(r: Run, a: Action, items: set<string>)
    requires Roomy(r, items) && Admits(a, items)
    ensures Roomy(Step(r, a), items)
  {
    hide Pending, Latest, LastSaid, SaidFinal, NoDeltaAfterFinal, OnePerItem, Honest, FinalKept;
    StepKeepsInv(r, a);
    match a {
      case Send(e) =>
        RoomyPush(r.queue, e, items, "");
        forall item: string
          ensures Exact(Step(r, a), item)
        {
          RoomyPush(r.queue, e, items, item);
          LatestStep(r.sent, e, item);
          assert Exact(r, item);
        }
      case Receive =>
        if r.queue.events != [] {
          forall item: string
            ensures Exact(Step(r, a), item)
          {
            assert Honest(r, item) && Exact(r, item);
            ReceiveKeepsExact(r, item);
          }
        }
    }
  }

  lemma {:induction false} RunsKeepRoomy(r: Run, schedule: seq<Action>, items: set<string>)
    requires Roomy(r, items) && forall i :: 0 <= i < |schedule| ==> Admits(schedule[i], items)
    ensures Roomy(Perform(r, schedule), items)
    decreases |schedule|
  {
    hide Roomy, Step;
    if schedule != [] {
      StepKeepsRoomy(r, schedule[0], items);
      RunsKeepRoomy(Step(r, schedule[0]), schedule[1..], items);
    }
  }

  // No run about at most `capacity` items overflows, and after draining the last
  // thing said for every item, delta or final, is what a lossless queue would say.
  lemma RoomyRunsAgree(capacity: nat, schedule: seq<Action>, items: set<string>, item: string)
    requires |items| <= capacity && forall i :: 0 <= i < |schedule| ==> Admits(schedule[i], items)
    ensures var r := Perform(Begin(capacity), schedule);
            var t := Perform(r, Receives(|r.queue.events|));
            !r.queue.overflowed && t.queue.events == []
            && LastSaid(t.said, item) == LastSaid(PublishAll(r.sent).1, item)
  {
    var r := Perform(Begin(capacity), schedule);
    var t := Perform(r, Receives(|r.queue.events|));
    assert Roomy(Begin(capacity), items) by {
      BeginKeepsInv(capacity);
    }
    assert forall i :: 0 <= i < |Receives(|r.queue.events|)| ==> Admits(Receives(|r.queue.events|)[i], items);
    hide *;
    RunsKeepRoomy(Begin(capacity), schedule, items);
    RunsKeepRoomy(r, Receives(|r.queue.events|), items);
    RoomyIsExact(r, items, item);
    RoomyIsExact(t, items, item);
    DrainEmpties(r);
    LosslessFinals(r.sent, item);
    ExactAtRest(t, item);
  }

  lemma RoomyIsExact(r: Run, items: set<string>, item: string)
    requires Roomy(r, items)
    ensures !r.queue.overflowed && Exact(r, item)
  {
    hide Inv, Exact, Covered;
  }

  lemma ExactAtRest(t: Run, item: string)
    requires Exact(t, item) && t.queue.events == []
    ensures var f := Latest(t.sent, item);
            if f.None? then LastSaid(t.said, item).None?
            else About(f.value, item) && LastSaid(t.said, item) == Some(Shown(f.value))
  {
    hide Latest, LastSaid;
  }
}
