// The modifier-key machine: short taps of one key invoke the inline assistant,
// holding another one talks.
module Modifier {
  import opened Wrappers

  datatype Key =
    | Fn | LeftOption | RightOption | LeftCommand | RightCommand
    | LeftShift | RightShift | LeftControl | RightControl

  // Times and durations in milliseconds.
  datatype Config =
    Config(inlineKey: Option<Key>, holdKey: Option<Key>, doubleTapInterval: nat, maximumTap: nat, holdDelay: nat)

  datatype Input = Input(key: Key, pressed: bool, otherModifiers: bool, at: nat)

  datatype Event = InlineInvoked | HoldStarted | HoldReleased | Cancelled

  datatype Press = Press(key: Key, startedAt: nat, eligible: bool, holdStarted: bool)
  datatype Tap = Tap(key: Key, releasedAt: nat)
  datatype Machine = Machine(press: Option<Press>, lastTap: Option<Tap>)

  function Since(now: nat, earlier: nat): nat { if now < earlier then 0 else now - earlier }

  function Cancel(m: Machine): (Machine, seq<Event>) {
    (Machine(None, None), if m.press.Some? && m.press.value.holdStarted then [Cancelled] else [])
  }

  predicate MayHold(p: Press, now: nat, c: Config) {
    p.eligible && !p.holdStarted && c.holdKey == Some(p.key) && Since(now, p.startedAt) >= c.holdDelay
  }

  function Poll(m: Machine, now: nat, c: Config): (Machine, seq<Event>) {
    if m.press.Some? && MayHold(m.press.value, now, c) then
      (Machine(Some(m.press.value.(holdStarted := true)), None), [HoldStarted])
    else (m, [])
  }

  function PressKey(m: Machine, input: Input, c: Config): (Machine, seq<Event>) {
    if m.press.Some? && m.press.value.key == input.key then (m, [])
    else
      var (n, events) := if m.press.Some? then Cancel(m) else (m, []);
      var bound := c.inlineKey == Some(input.key) || c.holdKey == Some(input.key);
      (Machine(if bound then Some(Press(input.key, input.at, !input.otherModifiers, false)) else n.press,
               if input.otherModifiers || !bound then None else n.lastTap),
       events)
  }

  // A release that counts as a tap of the inline key.
  predicate ShortTap(p: Press, input: Input, c: Config) {
    p.eligible && !input.otherModifiers && Since(input.at, p.startedAt) <= c.maximumTap && c.inlineKey == Some(p.key)
  }

  predicate CompletesDouble(lastTap: Option<Tap>, p: Press, input: Input, c: Config) {
    lastTap.Some? && Since(input.at, lastTap.value.releasedAt) <= c.doubleTapInterval && lastTap.value.key == p.key
  }

  function ReleaseKey(m: Machine, input: Input, c: Config): (Machine, seq<Event>) {
    if m.press.None? || m.press.value.key != input.key then (m, [])
    else
      var p := m.press.value;
      if p.holdStarted then (Machine(None, None), [HoldReleased])
      else if MayHold(p, input.at, c) then (Machine(None, None), [HoldStarted, HoldReleased])
      else if !ShortTap(p, input, c) then (Machine(None, None), [])
      else if c.holdKey == Some(p.key) then (Machine(None, None), [InlineInvoked])
      else if CompletesDouble(m.lastTap, p, input, c) then (Machine(None, None), [InlineInvoked])
      else (Machine(None, Some(Tap(p.key, input.at))), [])
  }

  function Handle(m: Machine, input: Input, c: Config): (Machine, seq<Event>) {
    if input.pressed then PressKey(m, input, c) else ReleaseKey(m, input, c)
  }

  class ModifierStateMachine {
    const config: Config
    var press: Option<Press>
    var lastTap: Option<Tap>

    function Value(): Machine
      reads this
    {
      Machine(press, lastTap)
    }

    constructor (config: Config)
      ensures this.config == config && Value() == Machine(None, None)
    {
      this.config := config;
      press, lastTap := None, None;
    }

    method HandleInput(input: Input) returns (events: seq<Event>)
      modifies this
      ensures (Value(), events) == Handle(old(Value()), input, config)
    {
      if input.pressed {
        events := Down(input);
      } else {
        events := Up(input);
      }
    }

    method PollAt(now: nat) returns (events: seq<Event>)
      modifies this
      ensures (Value(), events) == Poll(old(Value()), now, config)
    {
      if press.Some? && press.value.eligible && !press.value.holdStarted && config.holdKey == Some(press.value.key)
         && Since(now, press.value.startedAt) >= config.holdDelay {
        press := Some(press.value.(holdStarted := true));
        lastTap := None;
        return [HoldStarted];
      }
      events := [];
    }

    method CancelPress() returns (events: seq<Event>)
      modifies this
      ensures (Value(), events) == Cancel(old(Value()))
    {
      var active := press.Some? && press.value.holdStarted;
      press, lastTap := None, None;
      events := if active then [Cancelled] else [];
    }

    method Down(input: Input) returns (events: seq<Event>)
      modifies this
      ensures (Value(), events) == PressKey(old(Value()), input, config)
    {
      if press.Some? && press.value.key == input.key {
        return [];
      }
      events := [];
      if press.Some? {
        events := CancelPress();
      }
      var bound := config.inlineKey == Some(input.key) || config.holdKey == Some(input.key);
      if input.otherModifiers || !bound {
        lastTap := None;
      }
      if bound {
        press := Some(Press(input.key, input.at, !input.otherModifiers, false));
      }
    }

    method Up(input: Input) returns (events: seq<Event>)
      modifies this
      ensures (Value(), events) == ReleaseKey(old(Value()), input, config)
    {
      if press.None? {
        return [];
      }
      var p := press.value;
      if p.key != input.key {
        return [];
      }
      press := None;
      var heldFor := Since(input.at, p.startedAt);
      var was := p.holdStarted;
      if p.eligible && !p.holdStarted && config.holdKey == Some(p.key) && heldFor >= config.holdDelay {
        p := p.(holdStarted := true);
      }
      if p.holdStarted {
        lastTap := None;
        return if was then [HoldReleased] else [HoldStarted, HoldReleased];
      }
      if !p.eligible || input.otherModifiers || heldFor > config.maximumTap || config.inlineKey != Some(p.key) {
        lastTap := None;
        return [];
      }
      if config.holdKey == Some(p.key) {
        lastTap := None;
        return [InlineInvoked];
      }
      if lastTap.Some? {
        var within := Since(input.at, lastTap.value.releasedAt) <= config.doubleTapInterval;
        if within && lastTap.value.key == p.key {
          lastTap := None;
          return [InlineInvoked];
        }
      }
      lastTap := Some(Tap(p.key, input.at));
      events := [];
    }
  }

  // ---- Runs ---------------------------------------------------------------------------------

  datatype Action = Key(input: Input) | PollNow(now: nat) | Stop

  function Act(m: Machine, a: Action, c: Config): (Machine, seq<Event>) {
    match a
    case Key(input) => Handle(m, input, c)
    case PollNow(now) => Poll(m, now, c)
    case Stop => Cancel(m)
  }

  function Run(m: Machine, actions: seq<Action>, c: Config): (Machine, seq<Event>) {
    if actions == [] then (m, [])
    else
      var (n, events) := Run(m, actions[..|actions| - 1], c);
      var (last, more) := Act(n, actions[|actions| - 1], c);
      (last, events + more)
  }

  const IDLE := Machine(None, None)

  predicate HoldOpen(m: Machine) { m.press.Some? && m.press.value.holdStarted }

  // Whether a hold is open after some events; None when they do not alternate.
  function Alternates(events: seq<Event>): Option<bool> {
    if events == [] then Some(false)
    else
      match (Alternates(events[..|events| - 1]), events[|events| - 1])
      case (None, _) => None
      case (Some(open), InlineInvoked) => Some(open)
      case (Some(open), HoldStarted) => if open then None else Some(true)
      case (Some(open), _) => if open then Some(false) else None
  }

  lemma AlternatesStep(events: seq<Event>, e: Event)
    ensures (events + [e])[..|events|] == events && (events + [e])[|events|] == e
  {
  }

  lemma AlternatesPair(events: seq<Event>)
    requires Alternates(events) == Some(false)
    ensures Alternates(events + [HoldStarted, HoldReleased]) == Some(false)
  {
    AlternatesStep(events, HoldStarted);
    AlternatesStep(events + [HoldStarted], HoldReleased);
    assert events + [HoldStarted, HoldReleased] == (events + [HoldStarted]) + [HoldReleased];
  }

  // What one action may say, by whether a hold was open and is open.
  predicate Says(open: bool, more: seq<Event>, open': bool) {
    (more == [] && open' == open)
    || (more == [InlineInvoked] && open' == open)
    || (more == [HoldStarted] && !open && open')
    || ((more == [HoldReleased] || more == [Cancelled]) && open && !open')
    || (more == [HoldStarted, HoldReleased] && !open && !open')
  }

  lemma ActSays(m: Machine, a: Action, c: Config)
    ensures var (n, more) := Act(m, a, c); Says(HoldOpen(m), more, HoldOpen(n))
  {
    hide Since;
  }

  lemma SaidAlternates(events: seq<Event>, open: bool, more: seq<Event>, open': bool)
    requires Alternates(events) == Some(open) && Says(open, more, open')
    ensures Alternates(events + more) == Some(open')
  {
    if more == [] {
      assert events + more == events;
    } else if |more| == 1 {
      AlternatesStep(events, more[0]);
      assert more == [more[0]];
    } else {
      AlternatesPair(events);
    }
  }

  lemma ActAlternates(m: Machine, a: Action, c: Config, events: seq<Event>)
    requires Alternates(events) == Some(HoldOpen(m))
    ensures var (n, more) := Act(m, a, c); Alternates(events + more) == Some(HoldOpen(n))
  {
    hide *;
    var (n, more) := Act(m, a, c);
    ActSays(m, a, c);
    SaidAlternates(events, HoldOpen(m), more, HoldOpen(n));
  }

  // In every run, starts of a hold strictly alternate with releases and cancels, and a
  // hold is open exactly when the stored press has started one.
  lemma {:induction false} HoldsAlternate(actions: seq<Action>, c: Config)
    ensures var (m, events) := Run(IDLE, actions, c); Alternates(events) == Some(HoldOpen(m))
  {
    hide Act, Alternates;
    if actions == [] {
      NoEventsAlternate();
    } else {
      var front := actions[..|actions| - 1];
      HoldsAlternate(front, c);
      ActAlternates(Run(IDLE, front, c).0, actions[|actions| - 1], c, Run(IDLE, front, c).1);
    }
  }

  lemma NoEventsAlternate()
    ensures Alternates([]) == Some(false)
  {
  }
}
