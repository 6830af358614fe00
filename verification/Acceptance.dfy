// When a call succeeds: which chunks are accepted, when the calls they spell are
// complete, and how an attempt ends.
module Acceptance {
  import opened Wrappers
  import opened ByteStrings
  import opened Sse
  import opened Completion
  import opened ChatStream

  // ---- The calls that parts spell -----------------------------------------------------

  function Built(before: Option<ToolCall>, parts: seq<WireToolCall>, index: nat): Option<ToolCall> {
    if parts == [] then before
    else
      var last, so := parts[|parts| - 1], Built(before, parts[..|parts| - 1], index);
      if last.index != index then so else Some(Extend(if so.Some? then so.value else ToolCall([], [], []), last))
  }

  predicate CallFits(call: Option<ToolCall>) {
    call.Some? ==>
      |call.value.id| <= 512 && |call.value.name| <= 256 && |call.value.arguments| <= 2 * 1024 * 1024
  }

  function IndicesOf(parts: seq<WireToolCall>): set<nat> { set p | p in parts :: p.index }

  function Named(entries: seq<Entry>): set<nat> { set e | e in entries :: e.index }

  // There are few calls, and the strings of each are short.
  ghost predicate CallsFit(a: Assembly, parts: seq<WireToolCall>) {
    |Named(a.toolCalls) + IndicesOf(parts)| <= 64
    && forall index: nat :: CallFits(Built(Get(a.toolCalls, index), parts, index))
  }

  // The calls of b are those of a with the parts put to them.
  ghost predicate Extended(a: Assembly, parts: seq<WireToolCall>, b: Assembly) {
    Named(b.toolCalls) == Named(a.toolCalls) + IndicesOf(parts)
    && forall index: nat :: Get(b.toolCalls, index) == Built(Get(a.toolCalls, index), parts, index)
  }

  predicate Sound(a: Assembly) { Bounded(a) && Ascending(a.toolCalls) }

  lemma {:induction false} BuiltConcat(before: Option<ToolCall>, x: seq<WireToolCall>, y: seq<WireToolCall>, index: nat)
    ensures Built(before, x + y, index) == Built(Built(before, x, index), y, index)
  {
    hide Extend;
    if y == [] {
      assert x + y == x;
    } else {
      assert (x + y)[..|x + y| - 1] == x + y[..|y| - 1];
      BuiltConcat(before, x, y[..|y| - 1], index);
    }
  }

  lemma {:induction false} BuiltGrows(before: Option<ToolCall>, parts: seq<WireToolCall>, index: nat)
    ensures CallFits(Built(before, parts, index)) ==> CallFits(before)
    ensures before.Some? ==>
              var b := Built(before, parts, index);
              b.Some? && |before.value.id| <= |b.value.id| && |before.value.name| <= |b.value.name|
              && |before.value.arguments| <= |b.value.arguments|
  {
    if parts != [] {
      BuiltGrows(before, parts[..|parts| - 1], index);
    }
  }

  lemma IndicesConcat(x: seq<WireToolCall>, y: seq<WireToolCall>)
    ensures IndicesOf(x + y) == IndicesOf(x) + IndicesOf(y)
  {
    forall i: nat ensures i in IndicesOf(x + y) <==> i in IndicesOf(x) + IndicesOf(y) {
      if i in IndicesOf(x) {
        var p :| p in x && p.index == i;
        assert p in x + y;
      }
      if i in IndicesOf(y) {
        var p :| p in y && p.index == i;
        assert p in x + y;
      }
    }
  }

  lemma {:induction false} SmallerSet(a: set<nat>, b: set<nat>)
    requires a <= b
    ensures |a| <= |b|
    decreases b
  {
    if a != {} {
      var x :| x in a;
      SmallerSet(a - {x}, b - {x});
    }
  }

  // Fewer parts fit if more do.
  lemma FewerFit(a: Assembly, x: seq<WireToolCall>, y: seq<WireToolCall>)
    requires CallsFit(a, x + y)
    ensures CallsFit(a, x)
  {
    hide Built, CallFits, Named, IndicesOf;
    IndicesConcat(x, y);
    SmallerSet(Named(a.toolCalls) + IndicesOf(x), Named(a.toolCalls) + IndicesOf(x + y));
    forall index: nat ensures CallFits(Built(Get(a.toolCalls, index), x, index)) {
      BuiltConcat(Get(a.toolCalls, index), x, y, index);
      BuiltGrows(Built(Get(a.toolCalls, index), x, index), y, index);
    }
  }

  // After some parts, others fit if all do.
  lemma MoreFit(a: Assembly, x: seq<WireToolCall>, b: Assembly, y: seq<WireToolCall>)
    requires Extended(a, x, b)
    ensures CallsFit(b, y) <==> CallsFit(a, x + y)
    ensures forall c: Assembly :: Extended(b, y, c) ==> Extended(a, x + y, c)
    ensures forall index: nat ::
              Built(Get(b.toolCalls, index), y, index) == Built(Get(a.toolCalls, index), x + y, index)
  {
    hide Built, CallFits, Named, IndicesOf;
    IndicesConcat(x, y);
    forall index: nat
      ensures Built(Get(b.toolCalls, index), y, index) == Built(Get(a.toolCalls, index), x + y, index)
    {
      BuiltConcat(Get(a.toolCalls, index), x, y, index);
    }
    assert Named(b.toolCalls) + IndicesOf(y) == Named(a.toolCalls) + IndicesOf(x + y);
  }

  lemma NamedStep(first: Entry, rest: seq<Entry>)
    ensures Named([first] + rest) == {first.index} + Named(rest)
    ensures Ascending([first] + rest) ==> first.index !in Named(rest) && Ascending(rest)
    ensures Get([first] + rest, first.index) == Some(first.call)
    ensures forall index: nat :: index != first.index ==> Get([first] + rest, index) == Get(rest, index)
  {
    var all := [first] + rest;
    assert all[0] == first && all[1..] == rest;
    assert forall e :: e in all <==> e == first || e in rest;
    forall i: nat ensures i in Named(all) <==> i in {first.index} + Named(rest) {
      if i in Named(rest) {
        var e :| e in rest && e.index == i;
        assert e in all;
      }
    }
    assert forall j :: 0 <= j < |rest| ==> all[j + 1] == rest[j];
  }

  lemma {:induction false} NamedAre(entries: seq<Entry>, index: nat)
    requires Ascending(entries)
    ensures |Named(entries)| == |entries|
    ensures index in Named(entries) <==> Get(entries, index).Some?
    ensures Get(entries, index).Some? ==> Entry(index, Get(entries, index).value) in entries
  {
    if entries != [] {
      var first, rest := entries[0], entries[1..];
      assert entries == [first] + rest;
      hide *;
      NamedStep(first, rest);
      NamedAre(rest, index);
      assert first == Entry(first.index, first.call);
    }
  }

  lemma {:induction false} GetAt(entries: seq<Entry>, i: nat)
    requires Ascending(entries) && i < |entries|
    ensures Get(entries, entries[i].index) == Some(entries[i].call)
  {
    if i > 0 {
      GetAt(entries[1..], i - 1);
    }
  }

  // ---- Accepting parts, choices and chunks ------------------------------------------------

  lemma PartFits(a: Assembly, part: WireToolCall)
    requires Sound(a)
    ensures ApplyTool(a, part).ok <==>
            CallFits(Built(Get(a.toolCalls, part.index), [part], part.index))
            && |Named(a.toolCalls) + {part.index}| <= 64
    ensures ApplyTool(a, part).ok ==> Extended(a, [part], ApplyTool(a, part).assembly)
    ensures Sound(ApplyTool(a, part).assembly)
  {
    ToolBounded(a, part);
    PartAcceptedIff(a, part);
    NamedAre(a.toolCalls, part.index);
    OnePart(a, part);
    if Get(a.toolCalls, part.index).Some? {
      GetBounded(a.toolCalls, part.index);
      assert Named(a.toolCalls) + {part.index} == Named(a.toolCalls);
    }
    hide Named, ApplyTool, Built, Extended;
  }

  lemma BuiltOne(before: Option<ToolCall>, part: WireToolCall, index: nat)
    ensures Built(before, [part], index)
         == if part.index != index then before
            else Some(Extend(if before.Some? then before.value else ToolCall([], [], []), part))
  {
    hide Extend;
    assert [part][..0] == [];
  }

  lemma OnePart(a: Assembly, part: WireToolCall)
    requires Ascending(a.toolCalls)
    ensures var before := Get(a.toolCalls, part.index);
            Built(before, [part], part.index)
            == Some(Extend(if before.Some? then before.value else ToolCall([], [], []), part))
    ensures ApplyTool(a, part).ok ==> Extended(a, [part], ApplyTool(a, part).assembly)
  {
    BuiltOne(Get(a.toolCalls, part.index), part, part.index);
    if ApplyTool(a, part).ok {
      var call := Merge(ToolCallAt(a, part.index), part).value;
      MergeExtends(ToolCallAt(a, part.index), part);
      PutIsExtended(a, part, call, ApplyTool(a, part).assembly);
    }
  }

  lemma PutIsExtended(a: Assembly, part: WireToolCall, call: ToolCall, b: Assembly)
    requires Ascending(a.toolCalls) && b.toolCalls == Put(a.toolCalls, part.index, call)
    requires call == Extend(ToolCallAt(a, part.index), part)
    ensures Extended(a, [part], b)
  {
    PutKeepsOrder(a.toolCalls, part.index, call);
    OneIndex(part);
    hide Extend, Put, Get, Named, Ascending, Built, IndicesOf;
    assert Ascending(b.toolCalls);
    forall index: nat
      ensures Get(b.toolCalls, index) == Built(Get(a.toolCalls, index), [part], index)
      ensures index in Named(b.toolCalls) <==> index in Named(a.toolCalls) + IndicesOf([part])
    {
      BuiltOne(Get(a.toolCalls, index), part, index);
      PutThenGet(a.toolCalls, part.index, call, index);
      NamedAre(a.toolCalls, index);
      NamedAre(b.toolCalls, index);
    }
  }

  lemma OneIndex(part: WireToolCall)
    ensures IndicesOf([part]) == {part.index} && IndicesOf([]) == {}
  {
  }

  lemma NoParts(a: Assembly)
    requires Sound(a)
    ensures CallsFit(a, []) && Extended(a, [], a)
  {
    assert IndicesOf([]) == {} && Named(a.toolCalls) + {} == Named(a.toolCalls);
    NamedAre(a.toolCalls, 0);
    hide Named;
    forall index: nat ensures CallFits(Get(a.toolCalls, index)) {
      if Get(a.toolCalls, index).Some? {
        GetBounded(a.toolCalls, index);
      }
    }
  }

  // Parts of calls are accepted exactly when the calls they spell are few and short.
  lemma {:induction false} PartsAcceptedIff(a: Assembly, parts: seq<WireToolCall>)
    requires Sound(a)
    ensures ApplyTools(a, parts).ok <==> CallsFit(a, parts)
    ensures ApplyTools(a, parts).ok ==> Extended(a, parts, ApplyTools(a, parts).assembly)
    ensures Sound(ApplyTools(a, parts).assembly)
    decreases |parts|
  {
    hide ApplyTool, CallsFit, Extended, Sound, Built, CallFits, Named, IndicesOf;
    if parts == [] {
      NoParts(a);
    } else {
      var part, rest := parts[0], parts[1..];
      var first := ApplyTool(a, part);
      assert [part] + rest == parts;
      OnePartAccepted(a, part);
      if first.ok {
        PartsAcceptedIff(first.assembly, rest);
        MoreFit(a, [part], first.assembly, rest);
      } else if CallsFit(a, parts) {
        FewerFit(a, [part], rest);
      }
    }
  }

  lemma OnePartAccepted(a: Assembly, part: WireToolCall)
    requires Sound(a)
    ensures ApplyTool(a, part).ok <==> CallsFit(a, [part])
    ensures ApplyTool(a, part).ok ==> Extended(a, [part], ApplyTool(a, part).assembly)
    ensures Sound(ApplyTool(a, part).assembly)
  {
    PartFits(a, part);
    NoParts(a);
    OneIndex(part);
    hide ApplyTool, Sound, CallFits, Named, IndicesOf, Extended;
    forall index: nat | index != part.index
      ensures CallFits(Built(Get(a.toolCalls, index), [part], index))
    {
      BuiltOne(Get(a.toolCalls, index), part, index);
      assert CallFits(Built(Get(a.toolCalls, index), [], index));
    }
  }

  // Choices of index 0 fit: the text and the calls they spell are within the limits.
  ghost predicate ChoicesFit(a: Assembly, choices: seq<WireChoice>) {
    |a.text| + |TextIn(choices)| <= 8 * 1024 * 1024 && CallsFit(a, ToolPartsIn(choices))
  }

  lemma OneChoiceAccepted(a: Assembly, choice: WireChoice)
    requires Sound(a)
    ensures ApplyChoice(a, choice).ok <==>
            |a.text| + |ContentBytes(choice)| <= 8 * 1024 * 1024 && CallsFit(a, ToolParts(choice))
    ensures var b := ApplyChoice(a, choice).assembly;
            Sound(b) && (ApplyChoice(a, choice).ok ==>
                           b.text == a.text + ContentBytes(choice) && Extended(a, ToolParts(choice), b))
  {
    hide ApplyTools, CallsFit, Extended, BoundedEntries, Ascending;
    NoParts(a);
    if ApplyChoice(a, choice).ok {
      ChoiceSays(a, choice);
    }
    if choice.index == 0 {
      var first := ApplyContent(a, choice.content);
      assert first.assembly == a.(text := first.assembly.text) && Sound(first.assembly);
      assert first.ok <==> |a.text| + |ContentBytes(choice)| <= 8 * 1024 * 1024;
      PartsAcceptedIff(first.assembly, choice.toolCalls);
      SameCalls(a, first.assembly, choice.toolCalls, ApplyTools(first.assembly, choice.toolCalls).assembly,
                ApplyChoice(a, choice).assembly);
    }
  }

  lemma SameCalls(a: Assembly, b: Assembly, parts: seq<WireToolCall>, c: Assembly, d: Assembly)
    requires a.toolCalls == b.toolCalls
    ensures CallsFit(a, parts) <==> CallsFit(b, parts)
    ensures c.toolCalls == d.toolCalls ==> (Extended(a, parts, d) <==> Extended(b, parts, c))
  {
  }

  lemma {:induction false} ChoicesAcceptedIff(a: Assembly, choices: seq<WireChoice>)
    requires Sound(a)
    ensures ApplyChoices(a, choices).ok <==> ChoicesFit(a, choices)
    ensures var b := ApplyChoices(a, choices).assembly;
            Sound(b) && (ApplyChoices(a, choices).ok ==>
                           b.text == a.text + TextIn(choices) && Extended(a, ToolPartsIn(choices), b))
    decreases |choices|
  {
    hide ApplyChoice, CallsFit, Extended, Sound, ContentBytes, ToolParts, TextIn, ToolPartsIn;
    if choices == [] {
      NoChoices(a);
    } else {
      var first, rest := choices[0], choices[1..];
      var b := ApplyChoice(a, first).assembly;
      assert [first] + rest == choices;
      OneChoiceAccepted(a, first);
      OneChoice(first, None);
      InConcat([first], rest, None);
      if ApplyChoice(a, first).ok {
        ChoicesAcceptedIff(b, rest);
        MoreFit(a, ToolParts(first), b, ToolPartsIn(rest));
        Regroup(a.text, ContentBytes(first), TextIn(rest));
      } else if CallsFit(a, ToolPartsIn(choices)) {
        FewerFit(a, ToolParts(first), ToolPartsIn(rest));
      }
    }
  }

  lemma NoChoices(a: Assembly)
    requires Sound(a)
    ensures TextIn([]) == [] && ToolPartsIn([]) == [] && ChoicesFit(a, []) && Extended(a, [], a)
    ensures a.text + [] == a.text
  {
    NoParts(a);
    hide CallsFit, Extended;
  }

  // A chunk is accepted exactly when what the wire spells stays within the limits.
  lemma ChunkAcceptedIff(a: Assembly, chunk: WireChunk)
    requires Sound(a)
    ensures ApplyChunk(a, chunk).ok <==> ChoicesFit(a, chunk.choices)
    ensures var b := ApplyChunk(a, chunk).assembly;
            Sound(b) && (ApplyChunk(a, chunk).ok ==>
                           b.text == a.text + TextIn(chunk.choices) && Extended(a, ToolPartsIn(chunk.choices), b))
  {
    var b := if chunk.usage.Some? then a.(usage := chunk.usage) else a;
    hide ApplyChoices, CallsFit, Extended, TextIn, ToolPartsIn;
    ChoicesAcceptedIff(b, chunk.choices);
    var c := ApplyChunk(a, chunk).assembly;
    SameCalls(a, b, ToolPartsIn(chunk.choices), c, c);
  }

  // ---- Finishing --------------------------------------------------------------------------

  // Every call has an id, a name and arguments that parse.
  ghost predicate Callable(a: Assembly, parts: seq<WireToolCall>, json: Bytes -> bool) {
    forall index: nat ::
      var call := Built(Get(a.toolCalls, index), parts, index);
      call.Some? ==> call.value.id != [] && call.value.name != [] && json(call.value.arguments)
  }

  lemma FinishesIff(a: Assembly, json: Bytes -> bool)
    requires Ascending(a.toolCalls)
    ensures Finish(a, json).Some? <==> Callable(a, [], json)
  {
    if Complete(a.toolCalls, json) {
      forall index: nat | Get(a.toolCalls, index).Some?
        ensures var call := Get(a.toolCalls, index).value; call.id != [] && call.name != [] && json(call.arguments)
      {
        NamedAre(a.toolCalls, index);
        var i :| 0 <= i < |a.toolCalls| && a.toolCalls[i] == Entry(index, Get(a.toolCalls, index).value);
      }
    }
    if Callable(a, [], json) {
      forall i | 0 <= i < |a.toolCalls|
        ensures var call := a.toolCalls[i].call; call.id != [] && call.name != [] && json(call.arguments)
      {
        GetAt(a.toolCalls, i);
        assert Built(Get(a.toolCalls, a.toolCalls[i].index), [], a.toolCalls[i].index) == Some(a.toolCalls[i].call);
      }
    }
  }

  // ---- The events of a stream ---------------------------------------------------------------

  // The events before the first that says done or is no chunk.
  function Leading(events: seq<Bytes>, wire: Wire): (k: nat)
    ensures k <= |events|
    ensures forall i :: 0 <= i < k ==> !wire.done(events[i]) && wire.parse(events[i]).Some?
    ensures k < |events| ==> wire.done(events[k]) || wire.parse(events[k]).None?
  {
    if events == [] || wire.done(events[0]) || wire.parse(events[0]).None? then 0 else 1 + Leading(events[1..], wire)
  }

  // What the events of a stream come to, told from the wire data: a failure when a limit
  // is passed or something is no chunk, a completion at a done event if every call is
  // complete, and nothing yet while there are only chunks.
  lemma {:induction false} EventsEndIff(a: Assembly, events: seq<Bytes>, wire: Wire)
    requires Sound(a)
    ensures var v, k := Process(a, events, wire).verdict, Leading(events, wire);
            var choices := ChoicesOf(events[..k], wire);
            if !ChoicesFit(a, choices) then v == Some(Err(InvalidStream))
            else if k == |events| then v == None
            else if wire.done(events[k]) && Callable(a, ToolPartsIn(choices), wire.json) then v.Some? && v.value.Ok?
            else v == Some(Err(InvalidStream))
    decreases |events|
  {
    hide ApplyChunk, Finish, ChoicesFit, Callable, Sound, TextIn, ToolPartsIn, Extended;
    var k := Leading(events, wire);
    if k == 0 {
      assert events[..0] == [];
      NoChoices(a);
      assert Sound(a) ==> Ascending(a.toolCalls) by {
        SoundIsAscending(a);
      }
      FinishesIff(a, wire.json);
    } else {
      var chunk, rest := wire.parse(events[0]).value, events[1..];
      var b := ApplyChunk(a, chunk).assembly;
      var later := ChoicesOf(rest[..k - 1], wire);
      assert events[..k][1..] == rest[..k - 1] && events[..k][0] == events[0];
      ChunkAcceptedIff(a, chunk);
      if ApplyChunk(a, chunk).ok {
        EventsEndIff(b, rest, wire);
        LaterChoices(a, chunk.choices, b, later, wire.json);
      } else {
        FewerChoicesFit(a, chunk.choices, later);
      }
    }
  }

  lemma SoundIsAscending(a: Assembly)
    requires Sound(a)
    ensures Ascending(a.toolCalls)
  {
  }

  lemma LaterChoices(a: Assembly, choices: seq<WireChoice>, b: Assembly, later: seq<WireChoice>, json: Bytes -> bool)
    requires b.text == a.text + TextIn(choices) && Extended(a, ToolPartsIn(choices), b)
    ensures ChoicesFit(b, later) <==> ChoicesFit(a, choices + later)
    ensures Callable(b, ToolPartsIn(later), json) <==> Callable(a, ToolPartsIn(choices + later), json)
  {
    hide CallsFit, TextIn, ToolPartsIn, Built, Get, Extended;
    InConcat(choices, later, None);
    MoreFit(a, ToolPartsIn(choices), b, ToolPartsIn(later));
  }

  lemma FewerChoicesFit(a: Assembly, choices: seq<WireChoice>, later: seq<WireChoice>)
    ensures ChoicesFit(a, choices + later) ==> ChoicesFit(a, choices)
  {
    hide CallsFit, TextIn, ToolPartsIn;
    InConcat(choices, later, None);
    if CallsFit(a, ToolPartsIn(choices + later)) {
      FewerFit(a, ToolPartsIn(choices), ToolPartsIn(later));
    }
  }

  // ---- How an attempt ends --------------------------------------------------------------------

  // Cancelled before or while opening, or refused by the transport.
  lemma UnopenedAttempt(attempt: Attempt, wire: Wire)
    ensures attempt.cancelledBefore || attempt.opening.OpenCancelled? ==>
              Try(attempt, wire) == Outcome([], Verdict(Err(Cancelled)))
    ensures !attempt.cancelledBefore && attempt.opening.OpenFailed? ==>
              var o := Try(attempt, wire);
              o.log == [] && o.ending.BrokenOff? && o.ending.error == Transport(attempt.opening.error)
  {
  }

  // An attempt over a stream of valid blocks, in any chunks within the limit: what its
  // events come to, or else the way the stream broke.
  lemma AttemptEndsIff(attempt: Attempt, wire: Wire)
    requires !attempt.cancelledBefore && attempt.opening.Opened?
    requires var chunks := Chunks(attempt.opening.items);
             WithinLimit([], chunks) && AllValid(Blocks(Concat(chunks)), wire.utf8)
    ensures var items, ending := attempt.opening.items, Try(attempt, wire).ending;
            var events := Events(Blocks(Concat(Chunks(items))), wire.utf8);
            var k := Leading(events, wire);
            var choices := ChoicesOf(events[..k], wire);
            if !ChoicesFit(EMPTY, choices) then ending == Verdict(Err(InvalidStream))
            else if k < |events| then
              if wire.done(events[k]) && Callable(EMPTY, ToolPartsIn(choices), wire.json) then
                ending.Verdict? && ending.result.Ok?
              else ending == Verdict(Err(InvalidStream))
            else
              match Break(items)
              case Some(Broken(e)) => ending.BrokenOff? && ending.error == Transport(e)
              case Some(_) => ending == Verdict(Err(Cancelled))
              case None => ending.BrokenOff? && ending.error == UnexpectedEnd
  {
    hide *;
    var items := attempt.opening.items;
    var chunks := Chunks(items);
    var events := Events(Blocks(Concat(chunks)), wire.utf8);
    NothingBegun();
    assert [] + Concat(chunks) == Concat(chunks);
    OpenedAttempt(attempt, wire);
    ReadIsProcessing([], EMPTY, items, wire);
    CloseMeans(Process(EMPTY, events, wire), Break(items));
    EventsEndIff(EMPTY, events, wire);
  }

  lemma NothingBegun()
    ensures Sound(EMPTY) && EventBoundary([]).None?
  {
  }

  lemma OpenedAttempt(attempt: Attempt, wire: Wire)
    requires !attempt.cancelledBefore && attempt.opening.Opened?
    ensures Try(attempt, wire) == ReadItems([], EMPTY, attempt.opening.items, wire)
  {
    hide ReadItems;
  }

  lemma CloseMeans(p: Processed, end: Option<Item>)
    ensures var ending := Close(p, end).ending;
            if p.verdict.Some? then ending == Verdict(p.verdict.value)
            else
              match end
              case Some(Broken(e)) => ending.BrokenOff? && ending.error == Transport(e)
              case Some(_) => ending == Verdict(Err(Cancelled))
              case None => ending.BrokenOff? && ending.error == UnexpectedEnd
  {
  }

  // A chunk that does not fit, or that completes a block that is not UTF-8, ends the call.
  lemma BadChunkEnds(buffer: Bytes, a: Assembly, bytes: Bytes, later: seq<Item>, wire: Wire)
    requires |buffer| <= 2 * 1024 * 1024
    requires |buffer + bytes| > 2 * 1024 * 1024 || !AllValid(Blocks(buffer + bytes), wire.utf8)
    ensures ReadItems(buffer, a, [Chunk(bytes)] + later, wire) == Outcome([], Verdict(Err(InvalidStream)))
  {
    hide AllValid, Blocks, Process;
    FitsIff(buffer, bytes);
    assert ([Chunk(bytes)] + later)[0] == Chunk(bytes);
  }
}
