// Assembling a streamed completion from its chunks, and what a listener to the
// deltas can rebuild from them alone: the text and the calls of the completion are
// exactly what the deltas spell.
module Completion {
  import opened Wrappers
  import opened ByteStrings

  const MAX_COMPLETION_TEXT_BYTES := 8 * 1024 * 1024
  const MAX_TOOL_CALLS := 64
  const MAX_TOOL_CALL_ID_BYTES := 512
  const MAX_TOOL_NAME_BYTES := 256
  const MAX_TOOL_ARGUMENT_BYTES := 2 * 1024 * 1024

  datatype WireToolCall = WireToolCall(index: nat, id: Option<Bytes>, name: Option<Bytes>, arguments: Option<Bytes>)
  datatype WireChoice =
    WireChoice(index: nat, content: Option<Bytes>, toolCalls: seq<WireToolCall>, finishReason: Option<Bytes>)
  datatype WireChunk = WireChunk(choices: seq<WireChoice>, usage: Option<int>)

  datatype ToolCall = ToolCall(id: Bytes, name: Bytes, arguments: Bytes)
  datatype ChatCompletion =
    ChatCompletion(text: Bytes, toolCalls: seq<ToolCall>, finishReason: Option<Bytes>, usage: Option<int>)

  datatype ChatEvent =
    | ContentDelta(content: Bytes)
    | ToolCallDelta(call: WireToolCall)
    | Completed(completion: ChatCompletion)

  // ---- An ordered map from the index of a call to its parts ------------------------

  datatype Entry = Entry(index: nat, call: ToolCall)

  predicate Ascending(entries: seq<Entry>) {
    forall i, j :: 0 <= i < j < |entries| ==> entries[i].index < entries[j].index
  }

  function Get(entries: seq<Entry>, index: nat): Option<ToolCall> {
    if entries == [] then None
    else if entries[0].index == index then Some(entries[0].call)
    else Get(entries[1..], index)
  }

  function Put(entries: seq<Entry>, index: nat, call: ToolCall): seq<Entry> {
    if entries == [] || index < entries[0].index then [Entry(index, call)] + entries
    else if entries[0].index == index then [Entry(index, call)] + entries[1..]
    else [entries[0]] + Put(entries[1..], index, call)
  }

  lemma {:induction false} PutThenGet(entries: seq<Entry>, index: nat, call: ToolCall, other: nat)
    ensures Get(Put(entries, index, call), other) == if other == index then Some(call) else Get(entries, other)
  {
    if entries == [] || index <= entries[0].index {
    } else {
      PutThenGet(entries[1..], index, call, other);
    }
  }

  lemma {:induction false} PutKeepsOrder(entries: seq<Entry>, index: nat, call: ToolCall)
    requires Ascending(entries)
    ensures Ascending(Put(entries, index, call))
    ensures forall i :: 0 <= i < |Put(entries, index, call)| ==>
              Put(entries, index, call)[i].index == index
              || exists j :: 0 <= j < |entries| && entries[j].index == Put(entries, index, call)[i].index
  {
    if entries == [] || index <= entries[0].index {
      assert forall i :: 0 <= i < |entries| ==> entries[i].index == entries[i].index;
    } else {
      PutKeepsOrder(entries[1..], index, call);
    }
  }

  // ---- Applying a chunk -------------------------------------------------------------

  // `ok` is false when a limit was exceeded; the stream then fails, after `deltas`.
  datatype Applied = Applied(assembly: Assembly, deltas: seq<ChatEvent>, ok: bool)

  datatype Assembly = Assembly(text: Bytes, toolCalls: seq<Entry>, finishReason: Option<Bytes>, usage: Option<int>)

  const EMPTY := Assembly([], [], None, None)

  function CheckedPush(target: Bytes, value: Bytes, limit: nat): Option<Bytes> {
    if |value| > (if |target| < limit then limit - |target| else 0) then None else Some(target + value)
  }

  function Part(target: Bytes, value: Option<Bytes>, limit: nat): Option<Bytes> {
    if value.None? then Some(target) else CheckedPush(target, value.value, limit)
  }

  // The id is repeated by some servers, so an equal one is not appended.
  function WithId(current: Bytes, id: Option<Bytes>): Option<Bytes> {
    if id.Some? && id.value == current then None else id
  }

  function Merge(parts: ToolCall, delta: WireToolCall): Option<ToolCall> {
    match (Part(parts.id, WithId(parts.id, delta.id), MAX_TOOL_CALL_ID_BYTES),
           Part(parts.name, delta.name, MAX_TOOL_NAME_BYTES),
           Part(parts.arguments, delta.arguments, MAX_TOOL_ARGUMENT_BYTES))
    case (Some(id), Some(name), Some(arguments)) => Some(ToolCall(id, name, arguments))
    case _ => None
  }

  function ToolCallAt(a: Assembly, index: nat): ToolCall {
    match Get(a.toolCalls, index)
    case Some(call) => call
    case None => ToolCall([], [], [])
  }

  function ApplyTool(a: Assembly, delta: WireToolCall): Applied {
    if Get(a.toolCalls, delta.index).None? && |a.toolCalls| >= MAX_TOOL_CALLS then Applied(a, [], false)
    else
      match Merge(ToolCallAt(a, delta.index), delta)
      case None => Applied(a, [], false)
      case Some(call) =>
        Applied(a.(toolCalls := Put(a.toolCalls, delta.index, call)), [ToolCallDelta(delta)], true)
  }

  function ApplyTools(a: Assembly, deltas: seq<WireToolCall>): Applied
    decreases |deltas|
  {
    if deltas == [] then Applied(a, [], true)
    else
      var first := ApplyTool(a, deltas[0]);
      if !first.ok then first
      else
        var rest := ApplyTools(first.assembly, deltas[1..]);
        rest.(deltas := first.deltas + rest.deltas)
  }

  function ApplyContent(a: Assembly, content: Option<Bytes>): Applied {
    if content.None? || content.value == [] then Applied(a, [], true)
    else
      match CheckedPush(a.text, content.value, MAX_COMPLETION_TEXT_BYTES)
      case None => Applied(a, [], false)
      case Some(text) => Applied(a.(text := text), [ContentDelta(content.value)], true)
  }

  function ApplyChoice(a: Assembly, choice: WireChoice): Applied {
    if choice.index != 0 then Applied(a, [], true)
    else
      var first := ApplyContent(a, choice.content);
      if !first.ok then first
      else
        var rest := ApplyTools(first.assembly, choice.toolCalls);
        var all := rest.(deltas := first.deltas + rest.deltas);
        if !all.ok || choice.finishReason.None? then all
        else all.(assembly := all.assembly.(finishReason := choice.finishReason))
  }

  function ApplyChoices(a: Assembly, choices: seq<WireChoice>): Applied
    decreases |choices|
  {
    if choices == [] then Applied(a, [], true)
    else
      var first := ApplyChoice(a, choices[0]);
      if !first.ok then first
      else
        var rest := ApplyChoices(first.assembly, choices[1..]);
        rest.(deltas := first.deltas + rest.deltas)
  }

  function ApplyChunk(a: Assembly, chunk: WireChunk): Applied {
    ApplyChoices(if chunk.usage.Some? then a.(usage := chunk.usage) else a, chunk.choices)
  }

  function Calls(entries: seq<Entry>): seq<ToolCall> {
    if entries == [] then [] else [entries[0].call] + Calls(entries[1..])
  }

  // `json` says whether the arguments parse.
  predicate Complete(entries: seq<Entry>, json: Bytes -> bool) {
    forall i :: 0 <= i < |entries| ==>
      entries[i].call.id != [] && entries[i].call.name != [] && json(entries[i].call.arguments)
  }

  function Finish(a: Assembly, json: Bytes -> bool): Option<ChatCompletion> {
    if Complete(a.toolCalls, json) then
      Some(ChatCompletion(a.text, Calls(a.toolCalls), a.finishReason, a.usage))
    else None
  }

  // ---- What the deltas alone tell -----------------------------------------------------

  function TextOf(log: seq<ChatEvent>): Bytes {
    if log == [] then []
    else
      var last := log[|log| - 1];
      TextOf(log[..|log| - 1]) + if last.ContentDelta? then last.content else []
  }

  function Appended(target: Bytes, value: Option<Bytes>): Bytes {
    if value.Some? then target + value.value else target
  }

  // The parts of one call, as a listener would put them together.
  function CallOf(log: seq<ChatEvent>, index: nat): Option<ToolCall> {
    if log == [] then None
    else
      var last, before := log[|log| - 1], CallOf(log[..|log| - 1], index);
      if last.ToolCallDelta? && last.call.index == index then
        Some(Extend(if before.Some? then before.value else ToolCall([], [], []), last.call))
      else before
  }

  // The assembly holds exactly what the deltas said.
  ghost predicate Matches(a: Assembly, log: seq<ChatEvent>) {
    a.text == TextOf(log)
    && Ascending(a.toolCalls)
    && forall index: nat :: Get(a.toolCalls, index) == CallOf(log, index)
  }

  lemma LogStep(log: seq<ChatEvent>, e: ChatEvent)
    ensures (log + [e])[..|log|] == log && (log + [e])[|log|] == e
  {
  }

  function Extend(parts: ToolCall, delta: WireToolCall): ToolCall {
    ToolCall(Appended(parts.id, WithId(parts.id, delta.id)),
             Appended(parts.name, delta.name),
             Appended(parts.arguments, delta.arguments))
  }

  lemma MergeExtends(parts: ToolCall, delta: WireToolCall)
    requires Merge(parts, delta).Some?
    ensures Merge(parts, delta).value == Extend(parts, delta)
  {
  }

  lemma ToolMatches(a: Assembly, log: seq<ChatEvent>, delta: WireToolCall)
    requires Matches(a, log) && ApplyTool(a, delta).ok
    ensures Matches(ApplyTool(a, delta).assembly, log + ApplyTool(a, delta).deltas)
  {
    var call := Merge(ToolCallAt(a, delta.index), delta).value;
    var next := log + [ToolCallDelta(delta)];
    MergeExtends(ToolCallAt(a, delta.index), delta);
    hide Put, Get, Ascending, Merge, Extend;
    LogStep(log, ToolCallDelta(delta));
    PutKeepsOrder(a.toolCalls, delta.index, call);
    forall index: nat
      ensures Get(Put(a.toolCalls, delta.index, call), index) == CallOf(next, index)
    {
      PutThenGet(a.toolCalls, delta.index, call, index);
    }
    assert TextOf(next) == TextOf(log) + [] == TextOf(log);
  }

  lemma {:induction false} ToolsMatch(a: Assembly, log: seq<ChatEvent>, deltas: seq<WireToolCall>)
    requires Matches(a, log) && ApplyTools(a, deltas).ok
    ensures Matches(ApplyTools(a, deltas).assembly, log + ApplyTools(a, deltas).deltas)
    decreases |deltas|
  {
    hide Matches, ApplyTool;
    if deltas == [] {
      assert log + [] == log;
    } else {
      var first := ApplyTool(a, deltas[0]);
      ToolMatches(a, log, deltas[0]);
      ToolsMatch(first.assembly, log + first.deltas, deltas[1..]);
      Regroup(log, first.deltas, ApplyTools(first.assembly, deltas[1..]).deltas);
    }
  }

  lemma ContentMatches(a: Assembly, log: seq<ChatEvent>, content: Option<Bytes>)
    requires Matches(a, log) && ApplyContent(a, content).ok
    ensures Matches(ApplyContent(a, content).assembly, log + ApplyContent(a, content).deltas)
  {
    if content.Some? && content.value != [] {
      LogStep(log, ContentDelta(content.value));
    } else {
      assert log + [] == log;
    }
  }

  lemma ChoiceMatches(a: Assembly, log: seq<ChatEvent>, choice: WireChoice)
    requires Matches(a, log) && ApplyChoice(a, choice).ok
    ensures Matches(ApplyChoice(a, choice).assembly, log + ApplyChoice(a, choice).deltas)
  {
    if choice.index == 0 {
      var first := ApplyContent(a, choice.content);
      ContentMatches(a, log, choice.content);
      ToolsMatch(first.assembly, log + first.deltas, choice.toolCalls);
      Regroup(log, first.deltas, ApplyTools(first.assembly, choice.toolCalls).deltas);
      hide ApplyContent, ApplyTools, TextOf, CallOf, Get, Ascending;
    } else {
      assert log + [] == log;
    }
  }

  lemma {:induction false} ChoicesMatch(a: Assembly, log: seq<ChatEvent>, choices: seq<WireChoice>)
    requires Matches(a, log) && ApplyChoices(a, choices).ok
    ensures Matches(ApplyChoices(a, choices).assembly, log + ApplyChoices(a, choices).deltas)
    decreases |choices|
  {
    hide Matches, ApplyChoice;
    if choices == [] {
      assert log + [] == log;
    } else {
      var first := ApplyChoice(a, choices[0]);
      ChoiceMatches(a, log, choices[0]);
      ChoicesMatch(first.assembly, log + first.deltas, choices[1..]);
      Regroup(log, first.deltas, ApplyChoices(first.assembly, choices[1..]).deltas);
    }
  }

  // Applying a chunk keeps the assembly equal to what its deltas said.
  lemma ChunkMatches(a: Assembly, log: seq<ChatEvent>, chunk: WireChunk)
    requires Matches(a, log) && ApplyChunk(a, chunk).ok
    ensures Matches(ApplyChunk(a, chunk).assembly, log + ApplyChunk(a, chunk).deltas)
  {
    var b := if chunk.usage.Some? then a.(usage := chunk.usage) else a;
    assert Matches(b, log);
    ChoicesMatch(b, log, chunk.choices);
  }

  function Indices(entries: seq<Entry>): (r: seq<nat>)
    ensures |r| == |entries| && forall i :: 0 <= i < |entries| ==> r[i] == entries[i].index
  {
    if entries == [] then [] else [entries[0].index] + Indices(entries[1..])
  }

  lemma {:induction false} CallsAreGot(entries: seq<Entry>, index: nat)
    requires Ascending(entries)
    ensures |Calls(entries)| == |entries|
    ensures Get(entries, index).Some? <==> index in Indices(entries)
    ensures forall i :: 0 <= i < |entries| && entries[i].index == index ==>
              Get(entries, index) == Some(Calls(entries)[i])
  {
    if entries != [] {
      CallsAreGot(entries[1..], index);
      assert Indices(entries) == [entries[0].index] + Indices(entries[1..]);
    }
  }

  // The finished completion is what the deltas said: their text, and the calls they
  // name in the order of their indices.
  lemma FinishedMatches(a: Assembly, log: seq<ChatEvent>, json: Bytes -> bool)
    requires Matches(a, log) && Finish(a, json).Some?
    ensures var done := Finish(a, json).value;
            var indices := Indices(a.toolCalls);
            done.text == TextOf(log)
            && |done.toolCalls| == |indices|
            && (forall i, j :: 0 <= i < j < |indices| ==> indices[i] < indices[j])
            && (forall i :: 0 <= i < |indices| ==> CallOf(log, indices[i]) == Some(done.toolCalls[i]))
            && (forall index: nat :: CallOf(log, index).Some? <==> index in indices)
  {
    forall index: nat
      ensures CallOf(log, index).Some? <==> index in Indices(a.toolCalls)
      ensures |Calls(a.toolCalls)| == |a.toolCalls|
      ensures forall i :: 0 <= i < |a.toolCalls| && a.toolCalls[i].index == index ==>
                CallOf(log, index) == Some(Calls(a.toolCalls)[i])
    {
      CallsAreGot(a.toolCalls, index);
    }
    CallsAreGot(a.toolCalls, 0);
    hide CallOf, TextOf, Get, Calls;
  }

  // A listener is told of nothing but deltas while chunks are applied.
  predicate OnlyDeltas(log: seq<ChatEvent>) {
    forall i :: 0 <= i < |log| ==> !log[i].Completed?
  }

  lemma {:induction false} ToolsGiveDeltas(a: Assembly, deltas: seq<WireToolCall>)
    ensures OnlyDeltas(ApplyTools(a, deltas).deltas)
    decreases |deltas|
  {
    if deltas != [] {
      ToolsGiveDeltas(ApplyTool(a, deltas[0]).assembly, deltas[1..]);
    }
  }

  lemma {:induction false} ChoicesGiveDeltas(a: Assembly, choices: seq<WireChoice>)
    ensures OnlyDeltas(ApplyChoices(a, choices).deltas)
    decreases |choices|
  {
    if choices != [] {
      ToolsGiveDeltas(ApplyContent(a, choices[0].content).assembly, choices[0].toolCalls);
      ChoicesGiveDeltas(ApplyChoice(a, choices[0]).assembly, choices[1..]);
      hide ApplyTools;
    }
  }

  // The limits on a stream hold of every assembly it leads to.
  predicate Bounded(a: Assembly) {
    |a.text| <= MAX_COMPLETION_TEXT_BYTES && |a.toolCalls| <= MAX_TOOL_CALLS
    && BoundedEntries(a.toolCalls)
  }

  predicate BoundedCall(call: ToolCall) {
    |call.id| <= MAX_TOOL_CALL_ID_BYTES && |call.name| <= MAX_TOOL_NAME_BYTES
    && |call.arguments| <= MAX_TOOL_ARGUMENT_BYTES
  }

  lemma {:induction false} BelowFirst(entries: seq<Entry>, index: nat)
    requires Ascending(entries) && (entries == [] || index < entries[0].index)
    ensures Get(entries, index).None?
  {
    if entries != [] {
      BelowFirst(entries[1..], index);
    }
  }

  predicate BoundedEntries(entries: seq<Entry>) {
    forall i :: 0 <= i < |entries| ==> BoundedCall(entries[i].call)
  }

  lemma {:induction false} PutBounded(entries: seq<Entry>, index: nat, call: ToolCall)
    requires Ascending(entries) && BoundedEntries(entries) && BoundedCall(call)
    ensures |Put(entries, index, call)| == |entries| + (if Get(entries, index).Some? then 0 else 1)
    ensures BoundedEntries(Put(entries, index, call))
  {
    hide BoundedCall;
    if entries == [] || index < entries[0].index {
      BelowFirst(entries, index);
    } else if index > entries[0].index {
      PutBounded(entries[1..], index, call);
    }
  }

  lemma {:induction false} GetBounded(entries: seq<Entry>, index: nat)
    requires BoundedEntries(entries) && Get(entries, index).Some?
    ensures BoundedCall(Get(entries, index).value)
  {
    hide BoundedCall;
    if entries[0].index != index {
      GetBounded(entries[1..], index);
    }
  }

  lemma ToolBounded(a: Assembly, delta: WireToolCall)
    requires Bounded(a) && Ascending(a.toolCalls)
    ensures var b := ApplyTool(a, delta).assembly; Bounded(b) && Ascending(b.toolCalls)
  {
    if ApplyTool(a, delta).ok {
      var call := Merge(ToolCallAt(a, delta.index), delta).value;
      if Get(a.toolCalls, delta.index).Some? {
        GetBounded(a.toolCalls, delta.index);
      }
      assert BoundedCall(call);
      hide Get, Merge, BoundedCall;
      PutBounded(a.toolCalls, delta.index, call);
      PutKeepsOrder(a.toolCalls, delta.index, call);
    }
  }

  lemma {:induction false} ToolsBounded(a: Assembly, deltas: seq<WireToolCall>)
    requires Bounded(a) && Ascending(a.toolCalls)
    ensures var b := ApplyTools(a, deltas).assembly; Bounded(b) && Ascending(b.toolCalls)
    decreases |deltas|
  {
    hide Bounded, Ascending, ApplyTool;
    if deltas != [] {
      ToolBounded(a, deltas[0]);
      ToolsBounded(ApplyTool(a, deltas[0]).assembly, deltas[1..]);
    }
  }

  lemma {:induction false} ChoicesBounded(a: Assembly, choices: seq<WireChoice>)
    requires Bounded(a) && Ascending(a.toolCalls)
    ensures var b := ApplyChoices(a, choices).assembly; Bounded(b) && Ascending(b.toolCalls)
    decreases |choices|
  {
    if choices != [] {
      var first := ApplyContent(a, choices[0].content).assembly;
      assert Bounded(first) && Ascending(first.toolCalls);
      ToolsBounded(first, choices[0].toolCalls);
      hide ApplyContent, ApplyTools;
      ChoicesBounded(ApplyChoice(a, choices[0]).assembly, choices[1..]);
    }
  }

  // The limits hold of every assembly that chunks lead to, also of a failed one.
  lemma ChunkBounded(a: Assembly, chunk: WireChunk)
    requires Bounded(a) && Ascending(a.toolCalls)
    ensures var b := ApplyChunk(a, chunk).assembly; Bounded(b) && Ascending(b.toolCalls)
  {
    ChoicesBounded(if chunk.usage.Some? then a.(usage := chunk.usage) else a, chunk.choices);
  }

  // ---- What the wire says ---------------------------------------------------------------

  function ContentBytes(choice: WireChoice): Bytes {
    if choice.index == 0 && choice.content.Some? then choice.content.value else []
  }

  function ToolParts(choice: WireChoice): seq<WireToolCall> { if choice.index == 0 then choice.toolCalls else [] }

  // The text and the parts of calls in the first choices of some chunks.
  function TextIn(choices: seq<WireChoice>): Bytes {
    if choices == [] then [] else TextIn(choices[..|choices| - 1]) + ContentBytes(choices[|choices| - 1])
  }

  function ToolPartsIn(choices: seq<WireChoice>): seq<WireToolCall> {
    if choices == [] then [] else ToolPartsIn(choices[..|choices| - 1]) + ToolParts(choices[|choices| - 1])
  }

  // The last reason given, or `before`.
  function ReasonIn(choices: seq<WireChoice>, before: Option<Bytes>): Option<Bytes> {
    if choices == [] then before
    else
      var last := choices[|choices| - 1];
      if last.index == 0 && last.finishReason.Some? then last.finishReason
      else ReasonIn(choices[..|choices| - 1], before)
  }

  function ToolPartsOf(log: seq<ChatEvent>): seq<WireToolCall> {
    if log == [] then []
    else
      var last := log[|log| - 1];
      ToolPartsOf(log[..|log| - 1]) + if last.ToolCallDelta? then [last.call] else []
  }

  lemma {:induction false} TextConcat(x: seq<ChatEvent>, y: seq<ChatEvent>)
    ensures TextOf(x + y) == TextOf(x) + TextOf(y) && ToolPartsOf(x + y) == ToolPartsOf(x) + ToolPartsOf(y)
  {
    if y == [] {
      assert x + y == x;
    } else {
      var front, last := y[..|y| - 1], y[|y| - 1];
      TextConcat(x, front);
      assert (x + y)[..|x + y| - 1] == x + front;
      Regroup(TextOf(x), TextOf(front), if last.ContentDelta? then last.content else []);
      Regroup(ToolPartsOf(x), ToolPartsOf(front), if last.ToolCallDelta? then [last.call] else []);
    }
  }

  // `log` says `text` and `parts` and nothing else.
  ghost predicate Says(log: seq<ChatEvent>, text: Bytes, parts: seq<WireToolCall>) {
    OnlyDeltas(log) && TextOf(log) == text && ToolPartsOf(log) == parts
  }

  lemma SaysBoth(x: seq<ChatEvent>, t: Bytes, p: seq<WireToolCall>, y: seq<ChatEvent>, u: Bytes, q: seq<WireToolCall>)
    requires Says(x, t, p) && Says(y, u, q)
    ensures Says(x + y, t + u, p + q)
  {
    TextConcat(x, y);
    hide TextOf, ToolPartsOf;
  }

  lemma OneDelta(e: ChatEvent)
    ensures TextOf([e]) == (if e.ContentDelta? then e.content else [])
    ensures ToolPartsOf([e]) == if e.ToolCallDelta? then [e.call] else []
    ensures TextOf([]) == [] && ToolPartsOf([]) == []
  {
    assert [e][..0] == [];
    assert TextOf([]) == [] && ToolPartsOf([]) == [];
  }

  lemma {:induction false} ToolsSay(a: Assembly, deltas: seq<WireToolCall>)
    requires ApplyTools(a, deltas).ok
    ensures Says(ApplyTools(a, deltas).deltas, [], deltas)
    ensures var b := ApplyTools(a, deltas).assembly;
            b.text == a.text && b.finishReason == a.finishReason && b.usage == a.usage
    decreases |deltas|
  {
    hide Merge, Put, Get, TextOf, ToolPartsOf;
    if deltas == [] {
      OneDelta(ContentDelta([]));
    } else {
      var first := ApplyTool(a, deltas[0]);
      ToolsSay(first.assembly, deltas[1..]);
      OneDelta(ToolCallDelta(deltas[0]));
      SaysBoth(first.deltas, [], [deltas[0]], ApplyTools(first.assembly, deltas[1..]).deltas, [], deltas[1..]);
      assert [deltas[0]] + deltas[1..] == deltas;
    }
  }

  lemma ContentSays(a: Assembly, content: Option<Bytes>)
    requires ApplyContent(a, content).ok
    ensures var text := if content.Some? then content.value else [];
            Says(ApplyContent(a, content).deltas, text, [])
            && ApplyContent(a, content).assembly == a.(text := a.text + text)
  {
    OneDelta(ContentDelta(if content.Some? then content.value else []));
    hide TextOf, ToolPartsOf;
    assert a.text + [] == a.text;
  }

  lemma ChoiceSays(a: Assembly, choice: WireChoice)
    requires ApplyChoice(a, choice).ok
    ensures Says(ApplyChoice(a, choice).deltas, ContentBytes(choice), ToolParts(choice))
    ensures var b := ApplyChoice(a, choice).assembly;
            b.text == a.text + ContentBytes(choice) && b.usage == a.usage
            && b.finishReason
               == if choice.index == 0 && choice.finishReason.Some? then choice.finishReason else a.finishReason
  {
    hide Says, ApplyTools, ApplyContent;
    if choice.index == 0 {
      var first := ApplyContent(a, choice.content);
      ContentSays(a, choice.content);
      ToolsSay(first.assembly, choice.toolCalls);
      var second := ApplyTools(first.assembly, choice.toolCalls);
      SaysBoth(first.deltas, ContentBytes(choice), [], second.deltas, [], choice.toolCalls);
      assert ContentBytes(choice) + [] == ContentBytes(choice) && [] + choice.toolCalls == choice.toolCalls;
    } else {
      NothingSays();
      assert a.text + [] == a.text;
    }
  }

  lemma NothingSays()
    ensures Says([], [], [])
  {
  }

  lemma {:induction false} InConcat(x: seq<WireChoice>, y: seq<WireChoice>, before: Option<Bytes>)
    ensures TextIn(x + y) == TextIn(x) + TextIn(y) && ToolPartsIn(x + y) == ToolPartsIn(x) + ToolPartsIn(y)
    ensures ReasonIn(x + y, before) == ReasonIn(y, ReasonIn(x, before))
  {
    hide ContentBytes, ToolParts;
    if y == [] {
      assert x + y == x;
    } else {
      var front, last := y[..|y| - 1], y[|y| - 1];
      InConcat(x, front, before);
      assert (x + y)[..|x + y| - 1] == x + front;
      Regroup(TextIn(x), TextIn(front), ContentBytes(last));
      Regroup(ToolPartsIn(x), ToolPartsIn(front), ToolParts(last));
    }
  }

  lemma OneChoice(choice: WireChoice, before: Option<Bytes>)
    ensures TextIn([choice]) == ContentBytes(choice) && ToolPartsIn([choice]) == ToolParts(choice)
    ensures ReasonIn([choice], before)
         == if choice.index == 0 && choice.finishReason.Some? then choice.finishReason else before
  {
    assert [choice][..0] == [];
    assert TextIn([]) == [] && ToolPartsIn([]) == [] && ReasonIn([], before) == before;
  }

  lemma {:induction false} ChoicesSay(a: Assembly, choices: seq<WireChoice>)
    requires ApplyChoices(a, choices).ok
    ensures Says(ApplyChoices(a, choices).deltas, TextIn(choices), ToolPartsIn(choices))
    ensures var b := ApplyChoices(a, choices).assembly;
            b.text == a.text + TextIn(choices) && b.usage == a.usage
            && b.finishReason == ReasonIn(choices, a.finishReason)
    decreases |choices|
  {
    hide Says, ApplyChoice, ContentBytes, ToolParts;
    if choices == [] {
      NothingSays();
      assert a.text + [] == a.text;
    } else {
      var first := ApplyChoice(a, choices[0]);
      ChoiceSays(a, choices[0]);
      ChoicesSay(first.assembly, choices[1..]);
      SaysBoth(first.deltas, ContentBytes(choices[0]), ToolParts(choices[0]),
               ApplyChoices(first.assembly, choices[1..]).deltas, TextIn(choices[1..]), ToolPartsIn(choices[1..]));
      OneChoice(choices[0], a.finishReason);
      InConcat([choices[0]], choices[1..], a.finishReason);
      assert [choices[0]] + choices[1..] == choices;
      Regroup(a.text, ContentBytes(choices[0]), TextIn(choices[1..]));
    }
  }

  // What a listener is told of an accepted chunk, and what the assembly takes in, is
  // what the wire says: the contents and the parts of calls of the choices of index 0,
  // in order, and the last finish reason and usage given.
  lemma ChunkSaysWire(a: Assembly, chunk: WireChunk)
    requires ApplyChunk(a, chunk).ok
    ensures Says(ApplyChunk(a, chunk).deltas, TextIn(chunk.choices), ToolPartsIn(chunk.choices))
    ensures var b := ApplyChunk(a, chunk).assembly;
            b.text == a.text + TextIn(chunk.choices)
            && b.usage == (if chunk.usage.Some? then chunk.usage else a.usage)
            && b.finishReason == ReasonIn(chunk.choices, a.finishReason)
  {
    hide Says, ApplyChoices, TextIn, ToolPartsIn, ReasonIn;
    ChoicesSay(if chunk.usage.Some? then a.(usage := chunk.usage) else a, chunk.choices);
  }

  // One more part of a call: what it gives is appended, but an id that the call has
  // already is not repeated. A part of another call changes nothing.
  lemma PartExtendsCall(log: seq<ChatEvent>, part: WireToolCall, index: nat)
    ensures var before := CallOf(log, index);
            var parts := if before.Some? then before.value else ToolCall([], [], []);
            CallOf(log + [ToolCallDelta(part)], index) ==
            if part.index != index then before
            else Some(ToolCall(
                        if part.id.None? || part.id.value == parts.id then parts.id else parts.id + part.id.value,
                        if part.name.None? then parts.name else parts.name + part.name.value,
                        if part.arguments.None? then parts.arguments else parts.arguments + part.arguments.value))
  {
    LogStep(log, ToolCallDelta(part));
  }

  // A content is accepted exactly when the text stays within its limit.
  lemma ContentAcceptedIff(a: Assembly, content: Bytes)
    requires Bounded(a)
    ensures ApplyContent(a, Some(content)).ok <==> |a.text| + |content| <= 8 * 1024 * 1024
  {
  }

  // A part of a call is accepted exactly when the number of calls and each of its
  // three strings stay within their limits.
  lemma PartAcceptedIff(a: Assembly, part: WireToolCall)
    requires Bounded(a) && Ascending(a.toolCalls)
    ensures var known := Get(a.toolCalls, part.index);
            var parts := if known.Some? then known.value else ToolCall([], [], []);
            ApplyTool(a, part).ok <==>
            (known.Some? || |a.toolCalls| < 64)
            && (part.id.None? || part.id.value == parts.id || |parts.id| + |part.id.value| <= 512)
            && (part.name.None? || |parts.name| + |part.name.value| <= 256)
            && (part.arguments.None? || |parts.arguments| + |part.arguments.value| <= 2 * 1024 * 1024)
  {
    if Get(a.toolCalls, part.index).Some? {
      GetBounded(a.toolCalls, part.index);
    }
    hide Get, Put;
  }
}
