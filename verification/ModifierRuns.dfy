// Two results about whole runs of the modifier machine: polling changes nothing but
// when a hold is announced, and no tap counts twice.
module ModifierRuns {
  import opened Wrappers
  import opened Modifier

  // ---- Polling ----------------------------------------------------------------------------

  function WithoutPolls(actions: seq<Action>): seq<Action> {
    if actions == [] then []
    else
      var front, last := WithoutPolls(actions[..|actions| - 1]), actions[|actions| - 1];
      if last.PollNow? then front else front + [last]
  }

  function TimeOf(a: Action): Option<nat> {
    match a
    case Key(input) => Some(input.at)
    case PollNow(now) => Some(now)
    case Stop => None
  }

  ghost predicate Monotone(actions: seq<Action>) {
    forall i, j :: 0 <= i < j < |actions| && TimeOf(actions[i]).Some? && TimeOf(actions[j]).Some? ==>
      TimeOf(actions[i]).value <= TimeOf(actions[j]).value
  }

  // The events without holds that were cancelled: a start and its cancel take each
  // other out.
  function Settled(events: seq<Event>): seq<Event> {
    if events == [] then []
    else
      var front, last := Settled(events[..|events| - 1]), events[|events| - 1];
      if last == Cancelled && front != [] && front[|front| - 1] == HoldStarted then front[..|front| - 1]
      else front + [last]
  }

  lemma SettledStep(events: seq<Event>, e: Event)
    ensures Settled(events + [e]) ==
            var front := Settled(events);
            if e == Cancelled && front != [] && front[|front| - 1] == HoldStarted then front[..|front| - 1]
            else front + [e]
  {
    assert (events + [e])[..|events|] == events;
  }

  lemma SettledPair(events: seq<Event>)
    ensures Settled(events + [HoldStarted, HoldReleased]) == Settled(events) + [HoldStarted, HoldReleased]
  {
    SettledStep(events, HoldStarted);
    SettledStep(events + [HoldStarted], HoldReleased);
    assert events + [HoldStarted, HoldReleased] == (events + [HoldStarted]) + [HoldReleased];
    assert Settled(events) + [HoldStarted, HoldReleased] == (Settled(events) + [HoldStarted]) + [HoldReleased];
  }

  // A poll among the actions has seen the press for as long as a hold takes.
  ghost predicate Polled(actions: seq<Action>, startedAt: nat, c: Config) {
    exists i :: 0 <= i < |actions| && actions[i].PollNow? && Since(actions[i].now, startedAt) >= c.holdDelay
  }

  // With polls `m`, without them `n`: the same, or a hold is announced early.
  ghost predicate Ahead(m: Machine, n: Machine, actions: seq<Action>, c: Config) {
    if HoldOpen(m) then
      n.press == Some(m.press.value.(holdStarted := false)) && m.lastTap.None?
      && m.press.value.eligible && c.holdKey == Some(m.press.value.key)
      && Polled(actions, m.press.value.startedAt, c)
    else m == n
  }

  predicate SettlesTo(m: Machine, events: seq<Event>, unpolled: seq<Event>) {
    Settled(events) == unpolled + if HoldOpen(m) then [HoldStarted] else []
  }

  lemma LaterIsHeld(actions: seq<Action>, a: Action, startedAt: nat, c: Config)
    requires Monotone(actions + [a]) && Polled(actions, startedAt, c) && TimeOf(a).Some?
    ensures Since(TimeOf(a).value, startedAt) >= c.holdDelay
  {
    var i :| 0 <= i < |actions| && actions[i].PollNow? && Since(actions[i].now, startedAt) >= c.holdDelay;
    var all := actions + [a];
    assert all[i] == actions[i] && all[|actions|] == a;
    assert TimeOf(all[i]).value <= TimeOf(all[|actions|]).value;
  }

  lemma StaysPolled(actions: seq<Action>, a: Action, startedAt: nat, c: Config)
    requires Polled(actions, startedAt, c)
    ensures Polled(actions + [a], startedAt, c)
  {
    var i :| 0 <= i < |actions| && actions[i].PollNow? && Since(actions[i].now, startedAt) >= c.holdDelay;
    assert (actions + [a])[i] == actions[i];
  }

  // One action of the polled run, and the same of the other unless it is a poll.
  lemma StepAhead(m: Machine, n: Machine, actions: seq<Action>, a: Action, c: Config)
    requires Ahead(m, n, actions, c) && Monotone(actions + [a])
    ensures Ahead(Act(m, a, c).0, if a.PollNow? then n else Act(n, a, c).0, actions + [a], c)
  {
    hide Since, ShortTap, CompletesDouble, Monotone, Polled;
    if HoldOpen(m) {
      StaysPolled(actions, a, m.press.value.startedAt, c);
      if TimeOf(a).Some? {
        LaterIsHeld(actions, a, m.press.value.startedAt, c);
      }
    } else if a.PollNow? && m.press.Some? && MayHold(m.press.value, a.now, c) {
      PollIsSeen(actions, a.now, m.press.value.startedAt, c);
    }
  }

  lemma PollIsSeen(actions: seq<Action>, now: nat, startedAt: nat, c: Config)
    requires Since(now, startedAt) >= c.holdDelay
    ensures Polled(actions + [PollNow(now)], startedAt, c)
  {
    assert (actions + [PollNow(now)])[|actions|] == PollNow(now);
  }

  // How the events of one action differ between the two runs.
  ghost predicate Differ(open: bool, open': bool, more: seq<Event>, other: seq<Event>) {
    if open then
      (more == [] && other == [] && open')
      || (more == [Cancelled] && other == [] && !open')
      || (more == [HoldReleased] && other == [HoldStarted, HoldReleased] && !open')
    else
      (more == [HoldStarted] && other == [] && open')
      || (more == other && !open' && (more == [] || more == [InlineInvoked] || more == [HoldStarted, HoldReleased]))
  }

  lemma StepDiffers(m: Machine, n: Machine, actions: seq<Action>, a: Action, c: Config)
    requires Ahead(m, n, actions, c) && Monotone(actions + [a])
    ensures var (m', more) := Act(m, a, c);
            Differ(HoldOpen(m), HoldOpen(m'), more, if a.PollNow? then [] else Act(n, a, c).1)
  {
    hide Since, ShortTap, CompletesDouble, Monotone, Polled;
    if HoldOpen(m) && TimeOf(a).Some? {
      LaterIsHeld(actions, a, m.press.value.startedAt, c);
    }
  }

  lemma DifferenceSettles(open: bool, open': bool, more: seq<Event>, other: seq<Event>,
                          events: seq<Event>, unpolled: seq<Event>)
    requires Differ(open, open', more, other)
    requires Settled(events) == unpolled + if open then [HoldStarted] else []
    ensures Settled(events + more) == (unpolled + other) + if open' then [HoldStarted] else []
  {
    hide Settled;
    assert events + [] == events && unpolled + [] == unpolled;
    assert (unpolled + other) + [] == unpolled + other;
    if |more| == 1 {
      SettledStep(events, more[0]);
      assert more == [more[0]];
    } else if |more| == 2 {
      SettledPair(events);
    }
    var started := unpolled + [HoldStarted];
    assert started[..|started| - 1] == unpolled;
    assert started + [HoldReleased] == unpolled + [HoldStarted, HoldReleased];
  }

  lemma StepSettles(m: Machine, n: Machine, actions: seq<Action>, a: Action, c: Config,
                    events: seq<Event>, unpolled: seq<Event>)
    requires Ahead(m, n, actions, c) && Monotone(actions + [a]) && SettlesTo(m, events, unpolled)
    ensures var (m', more) := Act(m, a, c);
            SettlesTo(m', events + more, unpolled + if a.PollNow? then [] else Act(n, a, c).1)
  {
    hide Act, Ahead, Monotone, Settled, Differ;
    StepDiffers(m, n, actions, a, c);
    var (m', more) := Act(m, a, c);
    DifferenceSettles(HoldOpen(m), HoldOpen(m'), more, if a.PollNow? then [] else Act(n, a, c).1, events, unpolled);
  }

  // With monotone time, polls do not change the events of a run but for holds that
  // are cancelled, and a hold that is still open has been announced. Otherwise the
  // machine is where it would be without them.
  lemma {:induction false} PollsDoNotMatter(actions: seq<Action>, c: Config)
    requires Monotone(actions)
    ensures var (m, events) := Run(IDLE, actions, c);
            var (n, unpolled) := Run(IDLE, WithoutPolls(actions), c);
            SettlesTo(m, events, unpolled) && Ahead(m, n, actions, c)
  {
    hide Act, Ahead, SettlesTo;
    if actions == [] {
      NothingHappened(c);
    } else {
      var front, a := actions[..|actions| - 1], actions[|actions| - 1];
      assert actions == front + [a];
      EarlierIsMonotone(front, a);
      PollsDoNotMatter(front, c);
      var (m, events) := Run(IDLE, front, c);
      var (n, unpolled) := Run(IDLE, WithoutPolls(front), c);
      StepAhead(m, n, front, a, c);
      StepSettles(m, n, front, a, c, events, unpolled);
      RunStep(WithoutPolls(front), a, c);
      assert unpolled + [] == unpolled;
    }
  }

  lemma RunStep(front: seq<Action>, a: Action, c: Config)
    ensures var (n, events) := Run(IDLE, front, c);
            var (last, more) := Act(n, a, c);
            Run(IDLE, front + [a], c) == (last, events + more)
  {
    assert (front + [a])[..|front|] == front;
  }

  lemma EarlierIsMonotone(front: seq<Action>, a: Action)
    requires Monotone(front + [a])
    ensures Monotone(front)
  {
    assert forall i :: 0 <= i < |front| ==> (front + [a])[i] == front[i];
  }

  lemma NothingHappened(c: Config)
    ensures Ahead(IDLE, IDLE, [], c) && SettlesTo(IDLE, [], [])
  {
  }

  lemma {:induction false} SettledWithoutCancels(events: seq<Event>)
    requires Cancelled !in events
    ensures Settled(events) == events
  {
    if events != [] {
      var front := events[..|events| - 1];
      SettledWithoutCancels(front);
      assert front + [events[|events| - 1]] == events;
    }
  }

  // Where nothing is cancelled and no hold is open, the events are the same.
  lemma PollingChangesNothing(actions: seq<Action>, c: Config)
    requires Monotone(actions)
    requires Cancelled !in Run(IDLE, actions, c).1 && !HoldOpen(Run(IDLE, actions, c).0)
    ensures Run(IDLE, actions, c) == Run(IDLE, WithoutPolls(actions), c)
  {
    PollsDoNotMatter(actions, c);
    SettledWithoutCancels(Run(IDLE, actions, c).1);
    hide Run, Settled;
    var unpolled := Run(IDLE, WithoutPolls(actions), c).1;
    assert unpolled + [] == unpolled;
  }

  // ---- Double taps --------------------------------------------------------------------------

  // The actions that pressed and released a key.
  datatype Stroke = Stroke(pressedBy: nat, releasedBy: nat)
  datatype Double = Double(first: Stroke, second: Stroke)

  // A run with its history: the action that pressed the stored key, the stroke of the
  // stored tap, and the strokes of every double tap.
  datatype History = History(machine: Machine, pressedBy: nat, tap: Stroke, doubles: seq<Double>, events: seq<Event>)

  function Step(h: History, a: Action, n: nat, c: Config): History {
    var (m, more) := Act(h.machine, a, c);
    var here := Stroke(h.pressedBy, n);
    History(m,
            if a.Key? && a.input.pressed && m.press != h.machine.press then n else h.pressedBy,
            if a.Key? && !a.input.pressed && m.lastTap.Some? && h.machine.press.Some? && m.press.None? then here
            else h.tap,
            h.doubles + if InlineInvoked in more then [Double(h.tap, here)] else [],
            h.events + more)
  }

  function Trace(actions: seq<Action>, c: Config): History {
    if actions == [] then History(IDLE, 0, Stroke(0, 0), [], [])
    else Step(Trace(actions[..|actions| - 1], c), actions[|actions| - 1], |actions| - 1, c)
  }

  // A press and a release of the inline key, alone and short.
  ghost predicate IsShortTap(actions: seq<Action>, s: Stroke, c: Config) {
    s.pressedBy < s.releasedBy < |actions|
    && actions[s.pressedBy].Key? && actions[s.releasedBy].Key?
    && var down, up := actions[s.pressedBy].input, actions[s.releasedBy].input;
    down.pressed && !up.pressed && !down.otherModifiers && !up.otherModifiers
    && c.inlineKey == Some(down.key) && c.inlineKey == Some(up.key)
    && Since(up.at, down.at) <= c.maximumTap
  }

  ghost predicate IsDouble(actions: seq<Action>, d: Double, c: Config) {
    IsShortTap(actions, d.first, c) && IsShortTap(actions, d.second, c)
    && d.first.releasedBy < d.second.pressedBy
    && Since(actions[d.second.releasedBy].input.at, actions[d.first.releasedBy].input.at) <= c.doubleTapInterval
  }

  ghost predicate PressIsRecorded(h: History, actions: seq<Action>) {
    h.machine.press.Some? ==>
      h.pressedBy < |actions| && actions[h.pressedBy].Key?
      && var down := actions[h.pressedBy].input;
      down.pressed && down.key == h.machine.press.value.key && down.at == h.machine.press.value.startedAt
      && h.machine.press.value.eligible == !down.otherModifiers
  }

  ghost predicate TapIsRecorded(h: History, actions: seq<Action>, c: Config) {
    h.machine.lastTap.Some? ==>
      IsShortTap(actions, h.tap, c)
      && actions[h.tap.releasedBy].input.at == h.machine.lastTap.value.releasedAt
      && (h.machine.press.Some? ==> h.tap.releasedBy < h.pressedBy)
  }

  // Everything recorded of strokes comes after the double taps so far.
  ghost predicate After(h: History, limit: int) {
    (h.machine.press.Some? ==> limit < h.pressedBy) && (h.machine.lastTap.Some? ==> limit < h.tap.pressedBy)
  }

  ghost predicate Apart(h: History, actions: seq<Action>, c: Config) {
    (forall i :: 0 <= i < |h.doubles| ==>
       IsDouble(actions, h.doubles[i], c) && After(h, h.doubles[i].second.releasedBy))
    && forall i, j :: 0 <= i < j < |h.doubles| ==>
         h.doubles[i].second.releasedBy < h.doubles[j].first.pressedBy
  }

  lemma StaysShortTap(actions: seq<Action>, a: Action, s: Stroke, c: Config)
    requires IsShortTap(actions, s, c)
    ensures IsShortTap(actions + [a], s, c)
    ensures (actions + [a])[s.releasedBy] == actions[s.releasedBy]
  {
  }

  lemma StepRecords(h: History, actions: seq<Action>, a: Action, c: Config)
    requires c.inlineKey != c.holdKey
    requires PressIsRecorded(h, actions) && TapIsRecorded(h, actions, c)
    ensures var g := Step(h, a, |actions|, c);
            PressIsRecorded(g, actions + [a]) && TapIsRecorded(g, actions + [a], c)
  {
    hide Since;
    var all := actions + [a];
    assert all[|actions|] == a;
    assert h.machine.press.Some? ==> all[h.pressedBy] == actions[h.pressedBy];
    if h.machine.lastTap.Some? {
      StaysShortTap(actions, a, h.tap, c);
    }
  }

  // An invocation uses the stored tap and the stroke that ends now.
  lemma InvocationIsDouble(h: History, actions: seq<Action>, a: Action, c: Config)
    requires c.inlineKey != c.holdKey && InlineInvoked in Act(h.machine, a, c).1
    requires PressIsRecorded(h, actions) && TapIsRecorded(h, actions, c)
    ensures IsDouble(actions + [a], Double(h.tap, Stroke(h.pressedBy, |actions|)), c)
    ensures h.machine.press.Some? && h.machine.lastTap.Some?
    ensures Act(h.machine, a, c).0 == IDLE
  {
    hide Since;
    var all := actions + [a];
    assert all[|actions|] == a;
    assert all[h.pressedBy] == actions[h.pressedBy];
    StaysShortTap(actions, a, h.tap, c);
  }

  lemma StaysDouble(actions: seq<Action>, a: Action, d: Double, c: Config)
    requires IsDouble(actions, d, c)
    ensures IsDouble(actions + [a], d, c)
  {
    hide Since;
    StaysShortTap(actions, a, d.first, c);
    StaysShortTap(actions, a, d.second, c);
  }

  lemma StepAfter(h: History, a: Action, n: nat, c: Config, limit: int)
    requires After(h, limit) && limit < n
    ensures After(Step(h, a, n, c), limit)
  {
    hide Since, MayHold, ShortTap, CompletesDouble;
  }

  lemma StepKeepsApart(h: History, actions: seq<Action>, a: Action, c: Config)
    requires c.inlineKey != c.holdKey
    requires PressIsRecorded(h, actions) && TapIsRecorded(h, actions, c) && Apart(h, actions, c)
    ensures Apart(Step(h, a, |actions|, c), actions + [a], c)
  {
    var g, known := Step(h, a, |actions|, c), |h.doubles|;
    if InlineInvoked in Act(h.machine, a, c).1 {
      InvocationIsDouble(h, actions, a, c);
    }
    hide Act, IsDouble, IsShortTap, PressIsRecorded, TapIsRecorded;
    forall i | 0 <= i < |g.doubles|
      ensures IsDouble(actions + [a], g.doubles[i], c) && After(g, g.doubles[i].second.releasedBy)
    {
      if i < known {
        assert g.doubles[i] == h.doubles[i];
        DoubleIsPast(actions, h.doubles[i], c);
        StaysDouble(actions, a, h.doubles[i], c);
        StepAfter(h, a, |actions|, c, h.doubles[i].second.releasedBy);
      }
    }
  }

  lemma DoubleIsPast(actions: seq<Action>, d: Double, c: Config)
    requires IsDouble(actions, d, c)
    ensures d.second.releasedBy < |actions|
  {
  }

  function Invocations(events: seq<Event>): nat { multiset(events)[InlineInvoked] }

  lemma StepCounts(h: History, a: Action, n: nat, c: Config)
    requires |h.doubles| == Invocations(h.events)
    ensures var g := Step(h, a, n, c); |g.doubles| == Invocations(g.events)
  {
    var more := Act(h.machine, a, c).1;
    assert more in [[], [InlineInvoked], [HoldStarted], [HoldReleased], [Cancelled], [HoldStarted, HoldReleased]];
    assert multiset(h.events + more) == multiset(h.events) + multiset(more);
    hide Act;
  }

  // With distinct keys every invocation is a double tap of its own: two short taps of
  // the inline key within the interval, and no tap belongs to two invocations.
  lemma {:induction false} DoubleTapsAreApart(actions: seq<Action>, c: Config)
    requires c.inlineKey != c.holdKey
    ensures var h := Trace(actions, c);
            (h.machine, h.events) == Run(IDLE, actions, c)
            && |h.doubles| == Invocations(h.events)
            && PressIsRecorded(h, actions) && TapIsRecorded(h, actions, c) && Apart(h, actions, c)
  {
    hide Step, Act, PressIsRecorded, TapIsRecorded, Apart;
    if actions == [] {
      NothingTapped(c);
    } else {
      var front, a := actions[..|actions| - 1], actions[|actions| - 1];
      assert actions == front + [a];
      DoubleTapsAreApart(front, c);
      var h := Trace(front, c);
      StepRecords(h, front, a, c);
      StepKeepsApart(h, front, a, c);
      StepCounts(h, a, |front|, c);
      StepRuns(h, a, |front|, c);
    }
  }

  lemma StepRuns(h: History, a: Action, n: nat, c: Config)
    ensures var (m, more) := Act(h.machine, a, c);
            Step(h, a, n, c).machine == m && Step(h, a, n, c).events == h.events + more
  {
    hide Act;
  }

  lemma NothingTapped(c: Config)
    ensures var h := Trace([], c);
            h.machine == IDLE && h.events == [] && Invocations([]) == |h.doubles|
            && PressIsRecorded(h, []) && TapIsRecorded(h, [], c) && Apart(h, [], c)
  {
  }

  // ---- What two strokes and a hold do ---------------------------------------------------------

  function DownInput(key: Modifier.Key, at: nat): Input { Input(key, true, false, at) }

  function UpInput(key: Modifier.Key, at: nat): Input { Input(key, false, false, at) }

  function Down(key: Modifier.Key, at: nat): Action { Key(DownInput(key, at)) }

  function Up(key: Modifier.Key, at: nat): Action { Key(UpInput(key, at)) }

  lemma RunOfStroke(before: seq<Action>, key: Modifier.Key, from: nat, to: nat, c: Config)
    ensures var (m, events) := Run(IDLE, before, c);
            var (n, more) := Act(m, Down(key, from), c);
            var (last, most) := Act(n, Up(key, to), c);
            Run(IDLE, before + [Down(key, from), Up(key, to)], c) == (last, events + more + most)
  {
    hide *;
    var down, up := Down(key, from), Up(key, to);
    RunStep(before, down, c);
    RunStep(before + [down], up, c);
    assert before + [down] + [up] == before + [down, up];
  }

  // Two strokes of an inline key that is not the hold key invoke exactly when both are
  // short and their releases are close; nothing else is said.
  lemma TwoStrokesInvokeIff(key: Modifier.Key, a: nat, b: nat, x: nat, y: nat, c: Config)
    requires a <= b <= x <= y && c.inlineKey == Some(key) && c.holdKey != Some(key)
    ensures Run(IDLE, [Down(key, a), Up(key, b), Down(key, x), Up(key, y)], c).1
         == if b - a <= c.maximumTap && y - x <= c.maximumTap && y - b <= c.doubleTapInterval
            then [InlineInvoked] else []
  {
    RunOfStroke([], key, a, b, c);
    assert [] + [Down(key, a), Up(key, b)] == [Down(key, a), Up(key, b)];
    RunOfStroke([Down(key, a), Up(key, b)], key, x, y, c);
    assert [Down(key, a), Up(key, b)] + [Down(key, x), Up(key, y)]
        == [Down(key, a), Up(key, b), Down(key, x), Up(key, y)];
  }

  // ---- Polls inside a stroke --------------------------------------------------------------------

  predicate OnlyPolls(polls: seq<Action>, until: nat) {
    forall i :: 0 <= i < |polls| ==> polls[i].PollNow? && polls[i].now <= until
  }

  // Polls say nothing and change nothing, or announce the hold that a release at
  // `until` or later would start.
  lemma {:induction false} PollsAnnounce(m: Machine, polls: seq<Action>, until: nat, c: Config)
    requires OnlyPolls(polls, until)
    ensures var (n, events) := Run(m, polls, c);
            (n == m && events == [])
            || (m.press.Some? && MayHold(m.press.value, until, c)
                && n == Machine(Some(m.press.value.(holdStarted := true)), None) && events == [HoldStarted])
    decreases |polls|
  {
    if polls != [] {
      PollsAnnounce(m, polls[..|polls| - 1], until, c);
    }
  }

  // From any state, polls between a press and its release change neither what is
  // said by then nor the state.
  lemma PollsInStrokeDoNotMatter(m: Machine, down: Input, polls: seq<Action>, up: Input, c: Config)
    requires down.pressed && !up.pressed && down.key == up.key && OnlyPolls(polls, up.at)
    ensures var (pressed, first) := Handle(m, down, c);
            var (polled, more) := Run(pressed, polls, c);
            var (released, last) := Handle(polled, up, c);
            var (n, others) := Handle(pressed, up, c);
            released == n && first + more + last == first + others
  {
    var pressed := Handle(m, down, c).0;
    PollsAnnounce(pressed, polls, up.at, c);
    hide Run, Since;
  }

  lemma {:induction false} RunConcat(m: Machine, x: seq<Action>, y: seq<Action>, c: Config)
    ensures var (n, events) := Run(m, x, c);
            var (last, more) := Run(n, y, c);
            Run(m, x + y, c) == (last, events + more)
    decreases |y|
  {
    hide Act;
    if y == [] {
      assert x + y == x;
      assert Run(m, x, c).1 + [] == Run(m, x, c).1;
    } else {
      var front := y[..|y| - 1];
      assert (x + y)[..|x + y| - 1] == x + front;
      RunConcat(m, x, front, c);
      var (n, events) := Run(m, x, c);
      var (middle, more) := Run(n, front, c);
      Regroup(events, more, Act(middle, y[|y| - 1], c).1);
    }
  }

  lemma RunOfOne(m: Machine, a: Action, c: Config)
    ensures Run(m, [a], c) == Act(m, a, c)
  {
    assert [a][..0] == [];
    assert Run(m, [a][..0], c) == (m, []);
    assert [] + Act(m, a, c).1 == Act(m, a, c).1;
    hide Act;
  }

  lemma RunOfPolledStroke(key: Modifier.Key, a: nat, polls: seq<Action>, b: nat, c: Config)
    ensures var (pressed, first) := Handle(IDLE, DownInput(key, a), c);
            var (polled, more) := Run(pressed, polls, c);
            var (released, last) := Handle(polled, UpInput(key, b), c);
            Run(IDLE, [Down(key, a)] + polls + [Up(key, b)], c) == (released, first + more + last)
  {
    hide Run, Handle;
    RunOfOne(IDLE, Down(key, a), c);
    RunConcat(IDLE, [Down(key, a)], polls, c);
    var (polled, said) := Run(IDLE, [Down(key, a)] + polls, c);
    RunConcat(IDLE, [Down(key, a)] + polls, [Up(key, b)], c);
    RunOfOne(polled, Up(key, b), c);
  }

  lemma PlainStroke(key: Modifier.Key, a: nat, b: nat, c: Config)
    requires a <= b && c.holdKey == Some(key) && c.inlineKey != Some(key)
    ensures var (pressed, first) := Handle(IDLE, DownInput(key, a), c);
            first == [] && Handle(pressed, UpInput(key, b), c)
                           == (IDLE, if b - a >= c.holdDelay then [HoldStarted, HoldReleased] else [])
  {
  }

  // A stroke of the hold key talks exactly when it lasts, however often it is polled.
  lemma StrokeHoldsIff(key: Modifier.Key, a: nat, polls: seq<Action>, b: nat, c: Config)
    requires c.holdKey == Some(key) && c.inlineKey != Some(key)
    requires Monotone([Down(key, a)] + polls + [Up(key, b)]) && forall i :: 0 <= i < |polls| ==> polls[i].PollNow?
    ensures Run(IDLE, [Down(key, a)] + polls + [Up(key, b)], c)
         == (IDLE, if b - a >= c.holdDelay then [HoldStarted, HoldReleased] else [])
  {
    hide Run, Monotone, Handle, Down, Up;
    PollsEndBefore(key, a, polls, b);
    PlainStroke(key, a, b, c);
    PollsInStrokeDoNotMatter(IDLE, DownInput(key, a), polls, UpInput(key, b), c);
    RunOfPolledStroke(key, a, polls, b, c);
    var said := Handle(Handle(IDLE, DownInput(key, a), c).0, UpInput(key, b), c).1;
    assert [] + said == said;
  }

  lemma PollsEndBefore(key: Modifier.Key, a: nat, polls: seq<Action>, b: nat)
    requires Monotone([Down(key, a)] + polls + [Up(key, b)]) && forall i :: 0 <= i < |polls| ==> polls[i].PollNow?
    ensures a <= b && OnlyPolls(polls, b)
  {
    var all := [Down(key, a)] + polls + [Up(key, b)];
    assert all[0] == Down(key, a) && all[|polls| + 1] == Up(key, b);
    assert TimeOf(all[0]) == Some(a) && TimeOf(all[|polls| + 1]) == Some(b);
    forall i | 0 <= i < |polls|
      ensures polls[i].now <= b
    {
      assert all[i + 1] == polls[i];
      assert TimeOf(all[i + 1]) == Some(polls[i].now);
    }
  }

  // ---- Single strokes, from any state ---------------------------------------------------------

  // A press and its release with no press before: how long it lasted, which keys are
  // configured and what other modifiers were down decide everything.
  lemma StrokeMeans(lastTap: Option<Tap>, down: Input, up: Input, c: Config)
    requires down.pressed && !up.pressed && down.key == up.key && down.at <= up.at
    ensures var (pressed, first) := Handle(Machine(None, lastTap), down, c);
            var (released, last) := Handle(pressed, up, c);
            var lasted := up.at - down.at;
            var talks := c.holdKey == Some(up.key) && !down.otherModifiers && lasted >= c.holdDelay;
            var taps := !talks && c.inlineKey == Some(up.key) && !down.otherModifiers && !up.otherModifiers
                        && lasted <= c.maximumTap;
            var second := taps && c.holdKey != Some(up.key) && lastTap.Some? && lastTap.value.key == up.key
                          && up.at <= lastTap.value.releasedAt + c.doubleTapInterval;
            && first == [] && released.press.None?
            && last == (if talks then [HoldStarted, HoldReleased]
                        else if taps && (c.holdKey == Some(up.key) || second) then [InlineInvoked]
                        else [])
            && released.lastTap
               == if taps && c.holdKey != Some(up.key) && !second then Some(Tap(up.key, up.at)) else None
  {
  }

  // Another key pressed meanwhile ends the press, and a hold that was announced with it;
  // the new key is pressed instead if it is configured. Repeats of the pressed key and
  // releases of other keys are ignored.
  lemma InterruptionMeans(p: Press, lastTap: Option<Tap>, input: Input, c: Config)
    ensures var (n, events) := Handle(Machine(Some(p), lastTap), input, c);
            if (input.pressed && input.key == p.key) || (!input.pressed && input.key != p.key) then
              n == Machine(Some(p), lastTap) && events == []
            else input.pressed ==>
              events == (if p.holdStarted then [Cancelled] else []) && n.lastTap == None
              && n.press == if Some(input.key) == c.inlineKey || Some(input.key) == c.holdKey
                            then Some(Press(input.key, input.at, !input.otherModifiers, false)) else None
  {
  }

  // A poll announces a hold exactly when an eligible press of the hold key has lasted,
  // once; then the release only ends it.
  lemma PollMeans(p: Press, lastTap: Option<Tap>, now: nat, c: Config)
    requires p.startedAt <= now
    ensures var (n, events) := Poll(Machine(Some(p), lastTap), now, c);
            if !p.holdStarted && p.eligible && c.holdKey == Some(p.key) && p.startedAt + c.holdDelay <= now then
              events == [HoldStarted] && n == Machine(Some(p.(holdStarted := true)), None)
            else events == [] && n == Machine(Some(p), lastTap)
  {
  }

  lemma AnnouncedHoldEnds(p: Press, lastTap: Option<Tap>, up: Input, c: Config)
    requires p.holdStarted && !up.pressed && up.key == p.key
    ensures Handle(Machine(Some(p), lastTap), up, c) == (IDLE, [HoldReleased])
    ensures Cancel(Machine(Some(p), lastTap)) == (IDLE, [Cancelled])
    ensures Cancel(Machine(Some(p.(holdStarted := false)), lastTap)) == (IDLE, [])
    ensures Cancel(Machine(None, lastTap)) == (IDLE, [])
  {
  }

  // A shared key is told apart by time alone: a stroke that lasts talks, a short one
  // invokes at once, and one between does nothing, however often it is polled.
  lemma SharedStrokeIff(key: Modifier.Key, a: nat, polls: seq<Action>, b: nat, c: Config)
    requires c.holdKey == Some(key) && c.inlineKey == Some(key)
    requires Monotone([Down(key, a)] + polls + [Up(key, b)]) && forall i :: 0 <= i < |polls| ==> polls[i].PollNow?
    ensures Run(IDLE, [Down(key, a)] + polls + [Up(key, b)], c)
         == (IDLE, if b - a >= c.holdDelay then [HoldStarted, HoldReleased]
                   else if b - a <= c.maximumTap then [InlineInvoked]
                   else [])
  {
    hide Run, Monotone, Handle, Down, Up;
    PollsEndBefore(key, a, polls, b);
    StrokeMeans(None, DownInput(key, a), UpInput(key, b), c);
    PollsInStrokeDoNotMatter(IDLE, DownInput(key, a), polls, UpInput(key, b), c);
    RunOfPolledStroke(key, a, polls, b, c);
    var said := Handle(Handle(IDLE, DownInput(key, a), c).0, UpInput(key, b), c).1;
    assert [] + said == said;
  }
}
