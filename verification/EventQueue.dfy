// The bounded, coalescing queue between a transcription backend and the session,
// and the listener that publishes what it receives.
module EventQueue {
  // The queue may drop and replace revisions. The results compare what is published
  // with everything that was sent, over every order of sends and receives.

  import opened Wrappers

  datatype Event =
    | Started
    | Level
    | Processing
    | Partial(item: string, text: string)
    | Done(item: string, text: string)

  datatype Disposition = IgnoredStatus | Superseded | Coalesced | Queued | Overflow

  datatype Queue = Queue(events: seq<Event>, capacity: nat, overflowed: bool)

  predicate Content(e: Event) { e.Partial? || e.Done? }

  function FindPartial(events: seq<Event>, item: string, from: nat): (r: Option<nat>)
    requires from <= |events|
    ensures r.Some? ==> from <= r.value < |events| && events[r.value].Partial? && events[r.value].item == item
    ensures r.None? ==> forall i :: from <= i < |events| ==> !(events[i].Partial? && events[i].item == item)
    decreases |events| - from
  {
    if from == |events| then None
    else if events[from].Partial? && events[from].item == item then Some(from)
    else FindPartial(events, item, from + 1)
  }

  function FindDone(events: seq<Event>, item: string, from: nat): (r: Option<nat>)
    requires from <= |events|
    ensures r.Some? ==> from <= r.value < |events| && events[r.value].Done? && events[r.value].item == item
    ensures r.None? ==> forall i :: from <= i < |events| ==> !(events[i].Done? && events[i].item == item)
    decreases |events| - from
  {
    if from == |events| then None
    else if events[from].Done? && events[from].item == item then Some(from)
    else FindDone(events, item, from + 1)
  }

  function FirstPartial(events: seq<Event>, from: nat): (r: Option<nat>)
    requires from <= |events|
    ensures r.Some? ==> from <= r.value < |events| && events[r.value].Partial?
    ensures r.None? ==> forall i :: from <= i < |events| ==> !events[i].Partial?
    decreases |events| - from
  {
    if from == |events| then None
    else if events[from].Partial? then Some(from)
    else FirstPartial(events, from + 1)
  }

  function Remove(events: seq<Event>, i: nat): seq<Event>
    requires i < |events|
  {
    events[..i] + events[i + 1..]
  }

  // The queue and the answer after a new content event that no pending one absorbs.
  function Enqueued(q: Queue, e: Event, terminal: bool): (Queue, Disposition) {
    if |q.events| < q.capacity then (q.(events := q.events + [e]), Queued)
    else
      match FirstPartial(q.events, 0)
      case Some(i) => (q.(events := Remove(q.events, i) + [e]), Queued)
      case None => if terminal then (q.(overflowed := true), Overflow) else (q, Superseded)
  }

  function Pushed(q: Queue, e: Event): (Queue, Disposition) {
    match e
    case Partial(item, _) =>
      if FindDone(q.events, item, 0).Some? then (q, Superseded)
      else
        (match FindPartial(q.events, item, 0)
         case Some(i) => (q.(events := q.events[i := e]), Coalesced)
         case None => Enqueued(q, e, false))
    case Done(item, _) =>
      (match FindPartial(q.events, item, 0)
       case Some(i) => (q.(events := q.events[i := e]), Coalesced)
       case None =>
         match FindDone(q.events, item, 0)
         case Some(i) => (q.(events := q.events[i := e]), Coalesced)
         case None => Enqueued(q, e, true))
    case _ => (q, IgnoredStatus)
  }

  class BackendEventState {
    var events: seq<Event>
    const capacity: nat
    var overflowed: bool

    function Value(): Queue
      reads this
    {
      Queue(events, capacity, overflowed)
    }

    constructor (capacity: nat)
      ensures Value() == Queue([], capacity, false)
    {
      this.capacity := capacity;
      events, overflowed := [], false;
    }

    method Push(event: Event) returns (d: Disposition)
      modifies this
      ensures (Value(), d) == Pushed(old(Value()), event)
    {
      if event.Partial? {
        var done := FindDone(events, event.item, 0);
        if done.Some? {
          return Superseded;
        }
        var pending := FindPartial(events, event.item, 0);
        if pending.Some? {
          events := events[pending.value := event];
          return Coalesced;
        }
        d := PushContent(event, false);
      } else if event.Done? {
        var pending := FindPartial(events, event.item, 0);
        if pending.Some? {
          events := events[pending.value := event];
          return Coalesced;
        }
        var done := FindDone(events, event.item, 0);
        if done.Some? {
          events := events[done.value := event];
          return Coalesced;
        }
        d := PushContent(event, true);
      } else {
        d := IgnoredStatus;
      }
    }

    method PushContent(event: Event, terminal: bool) returns (d: Disposition)
      modifies this
      ensures (Value(), d) == Enqueued(old(Value()), event, terminal)
    {
      if |events| >= capacity {
        var first := FirstPartial(events, 0);
        if first.Some? {
          events := Remove(events, first.value);
        } else if !terminal {
          return Superseded;
        } else {
          overflowed := true;
          return Overflow;
        }
      }
      events := events + [event];
      d := Queued;
    }

    // An error once the queue has overflowed, otherwise the oldest event, if any.
    method TryReceive() returns (r: Result<Option<Event>, ()>)
      modifies this`events
      ensures overflowed ==> r.Err? && events == old(events)
      ensures !overflowed && old(events) == [] ==> r == Ok(None) && events == []
      ensures !overflowed && old(events) != [] ==> r == Ok(Some(old(events)[0])) && events == old(events)[1..]
    {
      if overflowed {
        return Err(());
      }
      if events == [] {
        return Ok(None);
      }
      r := Ok(Some(events[0]));
      events := events[1..];
    }
  }

  // ---- At most one event for each item ----------------------------------------------

  predicate About(e: Event, item: string) { Content(e) && e.item == item }

  // The first pending event of an item.
  function Pending(events: seq<Event>, item: string): Option<Event> {
    if events == [] then None
    else if About(events[0], item) then Some(events[0])
    else Pending(events[1..], item)
  }

  predicate OnePerItem(events: seq<Event>) {
    events == []
    || (Content(events[0]) && Pending(events[1..], events[0].item).None? && OnePerItem(events[1..]))
  }

  lemma {:induction false} PendingSome(events: seq<Event>, item: string)
    ensures Pending(events, item).None? <==> forall i :: 0 <= i < |events| ==> !About(events[i], item)
    ensures Pending(events, item).Some? ==>
              Pending(events, item).value in events && About(Pending(events, item).value, item)
  {
    if events != [] && !About(events[0], item) {
      PendingSome(events[1..], item);
    }
  }

  lemma {:induction false} PendingAt(events: seq<Event>, i: nat)
    requires OnePerItem(events) && i < |events|
    ensures Content(events[i]) && Pending(events, events[i].item) == Some(events[i])
  {
    if i > 0 {
      PendingAt(events[1..], i - 1);
      PendingSome(events[1..], events[0].item);
    }
  }

  lemma {:induction false} ReplacePending(events: seq<Event>, i: nat, e: Event, item: string)
    requires OnePerItem(events) && i < |events| && Content(e) && About(events[i], e.item)
    ensures OnePerItem(events[i := e])
    ensures Pending(events[i := e], item) == if item == e.item then Some(e) else Pending(events, item)
  {
    var t := events[i := e];
    if i == 0 {
      assert t[1..] == events[1..];
    } else {
      assert t[1..] == events[1..][i - 1 := e] && t[0] == events[0];
      ReplacePending(events[1..], i - 1, e, item);
      ReplacePending(events[1..], i - 1, e, events[0].item);
      PendingSome(events[1..], events[0].item);
    }
  }

  lemma {:induction false} AppendPending(events: seq<Event>, e: Event, item: string)
    requires OnePerItem(events) && Content(e) && Pending(events, e.item).None?
    ensures OnePerItem(events + [e])
    ensures Pending(events + [e], item) == if item == e.item then Some(e) else Pending(events, item)
  {
    var t := events + [e];
    if events == [] {
      assert t == [e];
    } else {
      assert t[1..] == events[1..] + [e] && t[0] == events[0];
      AppendPending(events[1..], e, item);
      AppendPending(events[1..], e, events[0].item);
    }
  }

  lemma {:induction false} RemovePending(events: seq<Event>, i: nat, item: string)
    requires OnePerItem(events) && i < |events|
    ensures OnePerItem(Remove(events, i))
    ensures Content(events[i])
    ensures Pending(Remove(events, i), item) == if item == events[i].item then None else Pending(events, item)
    ensures item == events[i].item ==> Pending(events, item) == Some(events[i])
  {
    var t := Remove(events, i);
    if i == 0 {
      assert t == events[1..];
    } else {
      assert t[1..] == Remove(events[1..], i - 1) && t[0] == events[0];
      RemovePending(events[1..], i - 1, item);
      RemovePending(events[1..], i - 1, events[0].item);
      PendingSome(events[1..], events[0].item);
    }
  }

  // What a push does to the pending event of every item.
  ghost predicate PushEffect(was: Option<Event>, now: Option<Event>, e: Event, item: string, d: Disposition) {
    if Content(e) && e.item == item then
      if e.Done? then d == Overflow || now == Some(e)
      else if was.Some? && was.value.Done? then now == was
      else now == Some(e) || now.None?
    else now == was || (was.Some? && was.value.Partial? && now.None?)
  }

  lemma EnqueuePending(q: Queue, e: Event, item: string)
    requires OnePerItem(q.events) && |q.events| <= q.capacity && Content(e) && Pending(q.events, e.item).None?
    ensures var (t, d) := Enqueued(q, e, e.Done?);
            OnePerItem(t.events) && |t.events| <= t.capacity
            && PushEffect(Pending(q.events, item), Pending(t.events, item), e, item, d)
  {
    hide OnePerItem, Pending;
    if |q.events| < q.capacity {
      AppendPending(q.events, e, item);
    } else if FirstPartial(q.events, 0).Some? {
      var i := FirstPartial(q.events, 0).value;
      RemovePending(q.events, i, item);
      RemovePending(q.events, i, e.item);
      AppendPending(Remove(q.events, i), e, item);
    }
  }

  lemma PushPending(q: Queue, e: Event, item: string)
    requires OnePerItem(q.events) && |q.events| <= q.capacity
    ensures var (t, d) := Pushed(q, e);
            OnePerItem(t.events) && |t.events| <= t.capacity
            && PushEffect(Pending(q.events, item), Pending(t.events, item), e, item, d)
  {
    hide OnePerItem, Pending, Enqueued;
    if Content(e) {
      var done, partial := FindDone(q.events, e.item, 0), FindPartial(q.events, e.item, 0);
      if done.Some? {
        PendingAt(q.events, done.value);
      }
      if partial.Some? {
        PendingAt(q.events, partial.value);
        ReplacePending(q.events, partial.value, e, item);
      } else if done.Some? {
        ReplacePending(q.events, done.value, e, item);
      } else {
        PendingSome(q.events, e.item);
        EnqueuePending(q, e, item);
      }
    }
  }

  // ---- What a push answers and where the event goes -----------------------------------

  lemma {:induction false} FoundIsPending(events: seq<Event>, item: string)
    requires OnePerItem(events)
    ensures var p := Pending(events, item);
            (FindPartial(events, item, 0).Some? <==> p.Some? && p.value.Partial?)
            && (FindDone(events, item, 0).Some? <==> p.Some? && p.value.Done?)
  {
    PendingSome(events, item);
    var partial, done := FindPartial(events, item, 0), FindDone(events, item, 0);
    if partial.Some? {
      PendingAt(events, partial.value);
    }
    if done.Some? {
      PendingAt(events, done.value);
    }
    hide Pending, OnePerItem;
    if Pending(events, item).Some? {
      var i :| 0 <= i < |events| && events[i] == Pending(events, item).value;
    }
  }

  predicate HasPartial(events: seq<Event>) { exists i :: 0 <= i < |events| && events[i].Partial? }

  // A push merges with what is pending for its item, except that a partial gives way to a
  // pending final; a new event needs room, or a partial to evict.
  lemma PushAnswers(q: Queue, e: Event)
    requires OnePerItem(q.events)
    ensures var (t, d) := Pushed(q, e);
            var pending := if Content(e) then Pending(q.events, e.item) else None;
            var room := |q.events| < q.capacity || HasPartial(q.events);
            && (d == IgnoredStatus <==> !Content(e))
            && (d == Coalesced <==> pending.Some? && (e.Done? || pending.value.Partial?))
            && (d == Queued <==> Content(e) && pending.None? && room)
            && (d == Overflow <==> e.Done? && pending.None? && !room)
            && (d == Superseded <==> e.Partial? && if pending.Some? then pending.value.Done? else !room)
            && t.capacity == q.capacity && t.overflowed == (q.overflowed || d == Overflow)
  {
    if Content(e) {
      FoundIsPending(q.events, e.item);
      PendingSome(q.events, e.item);
    }
    hide Pending, OnePerItem;
  }

  // A merged event keeps its place; a new one goes last, after the oldest partial has gone
  // if the queue was full; otherwise nothing moves. `i` is the place of what is replaced
  // or evicted.
  lemma PushPlaces(q: Queue, e: Event) returns (i: nat)
    ensures var (t, d) := Pushed(q, e);
            && (d == Coalesced ==> i < |q.events| && About(q.events[i], e.item) && t.events == q.events[i := e])
            && (d == Queued && |q.events| < q.capacity ==> t.events == q.events + [e])
            && (d == Queued && |q.events| >= q.capacity ==>
                  i < |q.events| && q.events[i].Partial? && (forall j :: 0 <= j < i ==> !q.events[j].Partial?)
                  && t.events == q.events[..i] + q.events[i + 1..] + [e])
            && (d == IgnoredStatus || d == Superseded || d == Overflow ==> t.events == q.events)
  {
    i := 0;
    if Content(e) {
      var done, partial := FindDone(q.events, e.item, 0), FindPartial(q.events, e.item, 0);
      var first := FirstPartial(q.events, 0);
      if first.Some? {
        FirstIsFirst(q.events, 0);
      }
      i := if partial.Some? then partial.value else if done.Some? then done.value
           else if first.Some? then first.value else 0;
    }
  }

  lemma {:induction false} FirstIsFirst(events: seq<Event>, from: nat)
    requires from <= |events| && FirstPartial(events, from).Some?
    ensures forall i :: from <= i < FirstPartial(events, from).value ==> !events[i].Partial?
    decreases |events| - from
  {
    if !events[from].Partial? {
      FirstIsFirst(events, from + 1);
    }
  }
}
