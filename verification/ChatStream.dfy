// Streaming one chat: up to `maxAttempts` attempts, each reading chunks into a
// decoder and an assembly, retried only while the listener has been told nothing.
module ChatStream {
  // What the transport does is a script: attempt by attempt, how opening ends and
  // which items the stream gives. Cancellation is part of the script. The JSON
  // parser, the "[DONE]" test and UTF-8 are parameters.

  import opened Wrappers
  import opened ByteStrings
  import opened Sse
  import opened Completion

  datatype TransportError = TransientNetwork | PermanentNetwork | Http(status: nat)
  datatype ChatError = Cancelled | Transport(error: TransportError) | InvalidStream | UnexpectedEnd

  predicate Retryable(e: TransportError) {
    match e
    case TransientNetwork => true
    case PermanentNetwork => false
    case Http(status) => status == 429 || 500 <= status <= 599
  }

  datatype Item = Chunk(bytes: Bytes) | Broken(error: TransportError) | CancelledWaiting

  // After its items an opened stream ends.
  datatype Opening = OpenCancelled | OpenFailed(error: TransportError) | Opened(items: seq<Item>)

  datatype Attempt = Attempt(cancelledBefore: bool, opening: Opening, cancelledInWait: bool)

  datatype Wire = Wire(utf8: Utf8, done: Bytes -> bool, parse: Bytes -> Option<WireChunk>, json: Bytes -> bool)

  type ChatResult = Result<ChatCompletion, ChatError>

  // What the events of one push do: a verdict ends the call.
  datatype Processed = Processed(assembly: Assembly, log: seq<ChatEvent>, verdict: Option<ChatResult>)

  function Process(a: Assembly, events: seq<Bytes>, wire: Wire): Processed
    decreases |events|
  {
    if events == [] then Processed(a, [], None)
    else if wire.done(events[0]) then
      match Finish(a, wire.json)
      case None => Processed(a, [], Some(Err(InvalidStream)))
      case Some(completion) => Processed(a, [Completed(completion)], Some(Ok(completion)))
    else
      match wire.parse(events[0])
      case None => Processed(a, [], Some(Err(InvalidStream)))
      case Some(chunk) =>
        var applied := ApplyChunk(a, chunk);
        if !applied.ok then Processed(applied.assembly, applied.deltas, Some(Err(InvalidStream)))
        else
          var rest := Process(applied.assembly, events[1..], wire);
          rest.(log := applied.deltas + rest.log)
  }

  // How an attempt ends: with a verdict, or broken off with an error that a new
  // attempt may follow.
  datatype Ending = Verdict(result: ChatResult) | BrokenOff(error: ChatError, retryable: bool)
  datatype Outcome = Outcome(log: seq<ChatEvent>, ending: Ending)

  function ReadItems(buffer: Bytes, a: Assembly, items: seq<Item>, wire: Wire): Outcome
    decreases |items|
  {
    if items == [] then Outcome([], BrokenOff(UnexpectedEnd, true))
    else
      match items[0]
      case CancelledWaiting => Outcome([], Verdict(Err(Cancelled)))
      case Broken(e) => Outcome([], BrokenOff(Transport(e), Retryable(e)))
      case Chunk(bytes) =>
        if !Fits(buffer, bytes) || !AllValid(Blocks(buffer + bytes), wire.utf8) then
          Outcome([], Verdict(Err(InvalidStream)))
        else
          var p := Process(a, Events(Blocks(buffer + bytes), wire.utf8), wire);
          if p.verdict.Some? then Outcome(p.log, Verdict(p.verdict.value))
          else
            var rest := ReadItems(Rest(buffer + bytes), p.assembly, items[1..], wire);
            rest.(log := p.log + rest.log)
  }

  function Try(attempt: Attempt, wire: Wire): Outcome {
    if attempt.cancelledBefore then Outcome([], Verdict(Err(Cancelled)))
    else
      match attempt.opening
      case OpenCancelled => Outcome([], Verdict(Err(Cancelled)))
      case OpenFailed(e) => Outcome([], BrokenOff(Transport(e), Retryable(e)))
      case Opened(items) => ReadItems([], EMPTY, items, wire)
  }

  // Whether a new attempt follows.
  predicate Retries(o: Outcome, attempt: nat, maxAttempts: nat) {
    o.ending.BrokenOff? && o.ending.retryable && o.log == [] && attempt + 1 < maxAttempts
  }

  function ResultOf(o: Outcome): ChatResult {
    match o.ending
    case Verdict(result) => result
    case BrokenOff(error, _) => Err(error)
  }

  datatype Streamed = Streamed(log: seq<ChatEvent>, result: ChatResult)

  function Stream(script: seq<Attempt>, attempt: nat, wire: Wire): Streamed
    requires attempt <= |script|
    decreases |script| - attempt
  {
    if attempt == |script| then Streamed([], Err(UnexpectedEnd))
    else
      var o := Try(script[attempt], wire);
      if !Retries(o, attempt, |script|) then Streamed(o.log, ResultOf(o))
      else if script[attempt].cancelledInWait then Streamed([], Err(Cancelled))
      else Stream(script, attempt + 1, wire)
  }

  class CompletionAssembly {
    var text: Bytes
    var toolCalls: seq<Entry>
    var finishReason: Option<Bytes>
    var usage: Option<int>

    function Value(): Assembly
      reads this
    {
      Assembly(text, toolCalls, finishReason, usage)
    }

    constructor ()
      ensures Value() == EMPTY
    {
      text, toolCalls, finishReason, usage := [], [], None, None;
    }

    // One part of a call, with every limit checked before anything is said.
    method ApplyTool(delta: WireToolCall) returns (ok: bool)
      modifies this`toolCalls
      ensures ok == Completion.ApplyTool(old(Value()), delta).ok
      ensures ok ==> Value() == Completion.ApplyTool(old(Value()), delta).assembly
      ensures Completion.ApplyTool(old(Value()), delta).deltas == if ok then [ToolCallDelta(delta)] else []
    {
      hide Put;
      var found := Get(toolCalls, delta.index);
      if found.None? && |toolCalls| >= MAX_TOOL_CALLS {
        return false;
      }
      var call := if found.Some? then found.value else ToolCall([], [], []);
      if delta.id.Some? && call.id != delta.id.value {
        var id := CheckedPush(call.id, delta.id.value, MAX_TOOL_CALL_ID_BYTES);
        if id.None? {
          return false;
        }
        call := call.(id := id.value);
      }
      if delta.name.Some? {
        var name := CheckedPush(call.name, delta.name.value, MAX_TOOL_NAME_BYTES);
        if name.None? {
          return false;
        }
        call := call.(name := name.value);
      }
      if delta.arguments.Some? {
        var arguments := CheckedPush(call.arguments, delta.arguments.value, MAX_TOOL_ARGUMENT_BYTES);
        if arguments.None? {
          return false;
        }
        call := call.(arguments := arguments.value);
      }
      toolCalls := Put(toolCalls, delta.index, call);
      ok := true;
    }

    // `deltas` is what the callback has been given when the method returns.
    method ApplyChoice(choice: WireChoice) returns (deltas: seq<ChatEvent>, ok: bool)
      modifies this`text, this`toolCalls, this`finishReason
      ensures ok == Completion.ApplyChoice(old(Value()), choice).ok
      ensures deltas == Completion.ApplyChoice(old(Value()), choice).deltas
      ensures ok ==> Value() == Completion.ApplyChoice(old(Value()), choice).assembly
    {
      hide Completion.ApplyTool;
      deltas, ok := [], true;
      if choice.index != 0 {
        return;
      }
      if choice.content.Some? && choice.content.value != [] {
        var pushed := CheckedPush(text, choice.content.value, MAX_COMPLETION_TEXT_BYTES);
        if pushed.None? {
          return [], false;
        }
        text := pushed.value;
        deltas := [ContentDelta(choice.content.value)];
      }
      ghost var start, first := Value(), deltas;
      for i := 0 to |choice.toolCalls|
        invariant usage == old(usage) && finishReason == old(finishReason) && text == start.text
        invariant ApplyTools(start, choice.toolCalls).ok == ApplyTools(Value(), choice.toolCalls[i..]).ok
        invariant first + ApplyTools(start, choice.toolCalls).deltas
               == deltas + ApplyTools(Value(), choice.toolCalls[i..]).deltas
        invariant ApplyTools(start, choice.toolCalls).ok ==>
                    ApplyTools(start, choice.toolCalls).assembly
                    == ApplyTools(Value(), choice.toolCalls[i..]).assembly
      {
        ghost var before := Value();
        assert choice.toolCalls[i..][1..] == choice.toolCalls[i + 1..];
        ok := ApplyTool(choice.toolCalls[i]);
        if !ok {
          return;
        }
        ghost var rest := ApplyTools(Value(), choice.toolCalls[i + 1..]).deltas;
        Regroup(deltas, [ToolCallDelta(choice.toolCalls[i])], rest);
        deltas := deltas + [ToolCallDelta(choice.toolCalls[i])];
      }
      if choice.finishReason.Some? {
        finishReason := choice.finishReason;
      }
    }

    method Apply(chunk: WireChunk) returns (deltas: seq<ChatEvent>, ok: bool)
      modifies this
      ensures ok == ApplyChunk(old(Value()), chunk).ok
      ensures deltas == ApplyChunk(old(Value()), chunk).deltas
      ensures ok ==> Value() == ApplyChunk(old(Value()), chunk).assembly
    {
      hide Completion.ApplyChoice;
      if chunk.usage.Some? {
        usage := chunk.usage;
      }
      ghost var start := Value();
      deltas, ok := [], true;
      for i := 0 to |chunk.choices|
        invariant ok
        invariant ApplyChoices(start, chunk.choices).ok == ApplyChoices(Value(), chunk.choices[i..]).ok
        invariant ApplyChoices(start, chunk.choices).deltas
               == deltas + ApplyChoices(Value(), chunk.choices[i..]).deltas
        invariant ApplyChoices(start, chunk.choices).ok ==>
                    ApplyChoices(start, chunk.choices).assembly
                    == ApplyChoices(Value(), chunk.choices[i..]).assembly
      {
        assert chunk.choices[i..][1..] == chunk.choices[i + 1..];
        ghost var before := Value();
        var here;
        here, ok := ApplyChoice(chunk.choices[i]);
        if !ok {
          deltas := deltas + here;
          return;
        }
        Regroup(deltas, here, ApplyChoices(Value(), chunk.choices[i + 1..]).deltas);
        deltas := deltas + here;
      }
    }
  }

  class ChatClient {
    const maxAttempts: nat

    constructor ()
      ensures maxAttempts == 3
    {
      maxAttempts := 3;
    }

    // The events of one push. `log` is what the callback was given.
    method HandleEvents(assembly: CompletionAssembly, events: seq<Bytes>, wire: Wire)
      returns (log: seq<ChatEvent>, verdict: Option<ChatResult>)
      modifies assembly
      ensures var p := Process(old(assembly.Value()), events, wire);
              log == p.log && verdict == p.verdict && (verdict.None? ==> assembly.Value() == p.assembly)
    {
      hide ApplyChunk, Finish, CompletionAssembly.Value;
      log, verdict := [], None;
      ghost var whole := Process(assembly.Value(), events, wire);
      for i := 0 to |events|
        invariant verdict.None?
        invariant var rest := Process(assembly.Value(), events[i..], wire);
                  whole.log == log + rest.log && whole.verdict == rest.verdict && whole.assembly == rest.assembly
      {
        assert events[i..][1..] == events[i + 1..];
        if wire.done(events[i]) {
          var completion := Finish(assembly.Value(), wire.json);
          if completion.None? {
            return log, Some(Err(InvalidStream));
          }
          return log + [Completed(completion.value)], Some(Ok(completion.value));
        }
        var chunk := wire.parse(events[i]);
        if chunk.None? {
          return log, Some(Err(InvalidStream));
        }
        var deltas, ok := assembly.Apply(chunk.value);
        if !ok {
          return log + deltas, Some(Err(InvalidStream));
        }
        Regroup(log, deltas, Process(assembly.Value(), events[i + 1..], wire).log);
        log := log + deltas;
      }
    }

    // One opened stream.
    method ReadStream(items: seq<Item>, wire: Wire) returns (log: seq<ChatEvent>, emitted: bool, ending: Ending)
      ensures Outcome(log, ending) == ReadItems([], EMPTY, items, wire)
      ensures emitted <==> log != []
    {
      hide Process, Fits, Blocks, Rest, AllValid, Events, CompletionAssembly.Value;
      var decoder := new SseDecoder();
      var assembly := new CompletionAssembly();
      log, emitted := [], false;
      ghost var whole := ReadItems([], EMPTY, items, wire);
      for i := 0 to |items|
        invariant emitted <==> log != []
        invariant var rest := ReadItems(decoder.buffer, assembly.Value(), items[i..], wire);
                  whole.log == log + rest.log && whole.ending == rest.ending
      {
        assert items[i..][1..] == items[i + 1..] && items[i..][0] == items[i];
        match items[i] {
          case CancelledWaiting =>
            return log, emitted, Verdict(Err(Cancelled));
          case Broken(e) =>
            return log, emitted, BrokenOff(Transport(e), Retryable(e));
          case Chunk(bytes) =>
            var events := decoder.Push(bytes, wire.utf8);
            if events.None? {
              return log, emitted, Verdict(Err(InvalidStream));
            }
            var said, verdict := HandleEvents(assembly, events.value, wire);
            emitted := emitted || said != [];
            if verdict.Some? {
              return log + said, emitted, Verdict(verdict.value);
            }
            Regroup(log, said, ReadItems(decoder.buffer, assembly.Value(), items[i + 1..], wire).log);
            log := log + said;
        }
      }
      ending := BrokenOff(UnexpectedEnd, true);
    }

    method StreamChat(script: seq<Attempt>, wire: Wire) returns (log: seq<ChatEvent>, result: ChatResult)
      requires |script| == maxAttempts
      ensures Streamed(log, result) == Stream(script, 0, wire)
    {
      hide ReadItems, Retryable;
      for attempt := 0 to maxAttempts
        invariant Stream(script, 0, wire) == Stream(script, attempt, wire)
      {
        var step := script[attempt];
        if step.cancelledBefore {
          return [], Err(Cancelled);
        }
        var emitted, ending;
        match step.opening {
          case OpenCancelled =>
            return [], Err(Cancelled);
          case OpenFailed(e) =>
            log, emitted, ending := [], false, BrokenOff(Transport(e), Retryable(e));
          case Opened(items) =>
            log, emitted, ending := ReadStream(items, wire);
        }
        match ending {
          case Verdict(r) =>
            return log, r;
          case BrokenOff(error, retryable) =>
            if !retryable || emitted || attempt + 1 >= maxAttempts {
              return log, Err(error);
            }
        }
        if step.cancelledInWait {
          return [], Err(Cancelled);
        }
      }
      log, result := [], Err(UnexpectedEnd);
    }
  }

  // ---- What the listener sees ---------------------------------------------------------

  // The completed event comes last, exactly when the call succeeds, and says the same.
  predicate CompletedLast(log: seq<ChatEvent>, verdict: Option<ChatResult>) {
    match verdict
    case Some(Ok(completion)) => log != [] && log[|log| - 1] == Completed(completion) && OnlyDeltas(log[..|log| - 1])
    case _ => OnlyDeltas(log)
  }

  // The deltas before it spell the completion.
  ghost predicate Spells(log: seq<ChatEvent>, done: ChatCompletion) {
    done.text == TextOf(log)
    && exists indices: seq<nat> ::
         |indices| == |done.toolCalls|
         && (forall i, j :: 0 <= i < j < |indices| ==> indices[i] < indices[j])
         && (forall i :: 0 <= i < |indices| ==> CallOf(log, indices[i]) == Some(done.toolCalls[i]))
         && (forall index: nat :: CallOf(log, index).Some? <==> index in indices)
  }

  ghost predicate Faithful(log: seq<ChatEvent>, verdict: Option<ChatResult>) {
    CompletedLast(log, verdict)
    && match verdict
       case Some(Ok(completion)) => Spells(log[..|log| - 1], completion)
       case _ => true
  }

  lemma AfterDeltas(before: seq<ChatEvent>, log: seq<ChatEvent>, done: ChatCompletion)
    requires OnlyDeltas(before) && log == before + [Completed(done)] && Spells(before, done)
    ensures Faithful(log, Some(Ok(done)))
  {
    assert log[..|log| - 1] == before;
  }

  lemma {:induction false} ProcessIsFaithful(a: Assembly, before: seq<ChatEvent>, events: seq<Bytes>, wire: Wire)
    requires Matches(a, before) && OnlyDeltas(before)
    ensures var p := Process(a, events, wire);
            Faithful(before + p.log, p.verdict) && (p.verdict.None? ==> Matches(p.assembly, before + p.log))
    decreases |events|
  {
    hide Matches, ApplyChunk, Finish, Faithful, OnlyDeltas;
    assert before + [] == before;
    if events == [] {
      NothingMore(before, None);
    } else if wire.done(events[0]) {
      if Finish(a, wire.json).Some? {
        FinishedIsFaithful(a, before, wire.json);
      } else {
        NothingMore(before, Some(Err(InvalidStream)));
      }
    } else if wire.parse(events[0]).Some? {
      var chunk := wire.parse(events[0]).value;
      var applied := ApplyChunk(a, chunk);
      ChunkGivesDeltas(a, chunk);
      DeltasAdd(before, applied.deltas);
      if applied.ok {
        ChunkMatches(a, before, chunk);
        ProcessIsFaithful(applied.assembly, before + applied.deltas, events[1..], wire);
        Regroup(before, applied.deltas, Process(applied.assembly, events[1..], wire).log);
      } else {
        NothingMore(before + applied.deltas, Some(Err(InvalidStream)));
      }
    } else {
      NothingMore(before, Some(Err(InvalidStream)));
    }
  }

  lemma NothingMore(log: seq<ChatEvent>, verdict: Option<ChatResult>)
    requires OnlyDeltas(log) && !(verdict.Some? && verdict.value.Ok?)
    ensures Faithful(log, verdict)
  {
  }

  lemma DeltasAdd(before: seq<ChatEvent>, deltas: seq<ChatEvent>)
    requires OnlyDeltas(before) && OnlyDeltas(deltas)
    ensures OnlyDeltas(before + deltas)
  {
  }

  lemma FinishedIsFaithful(a: Assembly, before: seq<ChatEvent>, json: Bytes -> bool)
    requires Matches(a, before) && OnlyDeltas(before) && Finish(a, json).Some?
    ensures var done := Finish(a, json).value; Faithful(before + [Completed(done)], Some(Ok(done)))
  {
    hide Matches, Finish, OnlyDeltas, Faithful, TextOf, CallOf;
    FinishedMatches(a, before, json);
    AfterDeltas(before, before + [Completed(Finish(a, json).value)], Finish(a, json).value);
  }

  lemma ChunkGivesDeltas(a: Assembly, chunk: WireChunk)
    ensures OnlyDeltas(ApplyChunk(a, chunk).deltas)
  {
    ChoicesGiveDeltas(if chunk.usage.Some? then a.(usage := chunk.usage) else a, chunk.choices);
  }

  lemma {:induction false} ReadIsFaithful(buffer: Bytes, a: Assembly, before: seq<ChatEvent>, items: seq<Item>,
                                          wire: Wire)
    requires Matches(a, before) && OnlyDeltas(before)
    ensures var o := ReadItems(buffer, a, items, wire); Faithful(before + o.log, Some(ResultOf(o)))
    decreases |items|
  {
    hide Matches, Process, Events, Blocks, Rest, AllValid, Fits, Spells;
    assert before + [] == before;
    if items != [] && items[0].Chunk? {
      var all := buffer + items[0].bytes;
      var p := Process(a, Events(Blocks(all), wire.utf8), wire);
      ProcessIsFaithful(a, before, Events(Blocks(all), wire.utf8), wire);
      if p.verdict.None? {
        ReadIsFaithful(Rest(all), p.assembly, before + p.log, items[1..], wire);
        Regroup(before, p.log, ReadItems(Rest(all), p.assembly, items[1..], wire).log);
      }
    }
  }

  // Everything a listener is told in one call comes from one attempt. It ends in a
  // completed event exactly when the call succeeds; the deltas before that spell
  // the completion that is returned. Attempts before it said nothing.
  lemma {:induction false} StreamIsFaithful(script: seq<Attempt>, attempt: nat, wire: Wire) returns (last: nat)
    requires attempt < |script|
    ensures var s := Stream(script, attempt, wire); Faithful(s.log, Some(s.result))
    ensures attempt <= last < |script|
    ensures forall j :: attempt <= j < last ==>
              Try(script[j], wire).log == [] && Retries(Try(script[j], wire), j, |script|)
    ensures Stream(script, attempt, wire).log == Try(script[last], wire).log
    decreases |script| - attempt
  {
    hide ReadItems, Matches, Spells;
    var o := Try(script[attempt], wire);
    last := attempt;
    if script[attempt].opening.Opened? {
      assert [] + o.log == o.log;
      NothingSaid();
      ReadIsFaithful([], EMPTY, [], script[attempt].opening.items, wire);
    }
    if Retries(o, attempt, |script|) && !script[attempt].cancelledInWait {
      last := StreamIsFaithful(script, attempt + 1, wire);
    }
  }

  lemma NothingSaid()
    ensures Matches(EMPTY, []) && OnlyDeltas([])
  {
  }

  // ---- Chunking does not change the call ------------------------------------------------

  // The chunks a stream gives before it ends or breaks, and what comes then.
  function Chunks(items: seq<Item>): seq<Bytes> {
    if items == [] || !items[0].Chunk? then [] else [items[0].bytes] + Chunks(items[1..])
  }

  function Break(items: seq<Item>): Option<Item> {
    if items == [] then None else if !items[0].Chunk? then Some(items[0]) else Break(items[1..])
  }

  function Close(p: Processed, end: Option<Item>): Outcome {
    match p.verdict
    case Some(result) => Outcome(p.log, Verdict(result))
    case None =>
      match end
      case Some(Broken(e)) => Outcome(p.log, BrokenOff(Transport(e), Retryable(e)))
      case Some(_) => Outcome(p.log, Verdict(Err(Cancelled)))
      case None => Outcome(p.log, BrokenOff(UnexpectedEnd, true))
  }

  lemma {:induction false} ProcessConcat(a: Assembly, x: seq<Bytes>, y: seq<Bytes>, wire: Wire)
    ensures var p := Process(a, x, wire);
            Process(a, x + y, wire) ==
            if p.verdict.Some? then p
            else var q := Process(p.assembly, y, wire); q.(log := p.log + q.log)
    decreases |x|
  {
    hide ApplyChunk, Finish;
    if x == [] {
      assert x + y == y;
      assert [] + Process(a, y, wire).log == Process(a, y, wire).log;
    } else {
      assert (x + y)[1..] == x[1..] + y;
      if !wire.done(x[0]) && wire.parse(x[0]).Some? {
        var applied := ApplyChunk(a, wire.parse(x[0]).value);
        ProcessConcat(applied.assembly, x[1..], y, wire);
        var p := Process(applied.assembly, x[1..], wire);
        Regroup(applied.deltas, p.log, Process(p.assembly, y, wire).log);
      }
    }
  }

  // Reading valid chunks that fit is processing the events of the whole stream.
  lemma {:induction false} ReadIsProcessing(buffer: Bytes, a: Assembly, items: seq<Item>, wire: Wire)
    requires EventBoundary(buffer).None? && WithinLimit(buffer, Chunks(items))
    requires AllValid(Blocks(buffer + Concat(Chunks(items))), wire.utf8)
    ensures ReadItems(buffer, a, items, wire)
         == Close(Process(a, Events(Blocks(buffer + Concat(Chunks(items))), wire.utf8), wire), Break(items))
    decreases |items|
  {
    hide EventBoundary, Fits, Process, Concat, Rest, Blocks, Events, AllValid;
    if items == [] || !items[0].Chunk? {
      NothingToRead(buffer, a, wire);
    } else {
      var chunks, chunk := Chunks(items), items[0].bytes;
      assert chunks[1..] == Chunks(items[1..]) && chunks[0] == chunk;
      var all := buffer + chunk;
      var here, later := Blocks(all), Blocks(Rest(all) + Concat(chunks[1..]));
      ChunkThenRest(buffer, chunks);
      EventsConcat(here, later, wire.utf8);
      ProcessConcat(a, Events(here, wire.utf8), Events(later, wire.utf8), wire);
      var p := Process(a, Events(here, wire.utf8), wire);
      if p.verdict.None? {
        ReadIsProcessing(Rest(all), p.assembly, items[1..], wire);
      }
    }
  }

  lemma NothingToRead(buffer: Bytes, a: Assembly, wire: Wire)
    requires EventBoundary(buffer).None?
    ensures Process(a, Events(Blocks(buffer + Concat([])), wire.utf8), wire) == Processed(a, [], None)
  {
    assert buffer + Concat([]) == buffer;
    LastBlock(buffer, wire.utf8);
  }

  // Two streams with the same bytes in different chunks, both within the limit.
  ghost predicate SameStream(x: seq<Item>, y: seq<Item>, utf8: Utf8) {
    Concat(Chunks(x)) == Concat(Chunks(y)) && Break(x) == Break(y)
    && WithinLimit([], Chunks(x)) && WithinLimit([], Chunks(y))
    && AllValid(Blocks(Concat(Chunks(x))), utf8)
  }

  ghost predicate SameAttempt(x: Attempt, y: Attempt, utf8: Utf8) {
    x.cancelledBefore == y.cancelledBefore && x.cancelledInWait == y.cancelledInWait
    && (x.opening == y.opening
        || (x.opening.Opened? && y.opening.Opened? && SameStream(x.opening.items, y.opening.items, utf8)))
  }

  lemma SameStreamSameOutcome(x: seq<Item>, y: seq<Item>, wire: Wire)
    requires SameStream(x, y, wire.utf8)
    ensures ReadItems([], EMPTY, x, wire) == ReadItems([], EMPTY, y, wire)
  {
    assert [] + Concat(Chunks(x)) == Concat(Chunks(x));
    assert EventBoundary([]).None?;
    hide ReadItems, Process, Blocks, Events, AllValid, Concat, WithinLimit, EventBoundary;
    ReadIsProcessing([], EMPTY, x, wire);
    ReadIsProcessing([], EMPTY, y, wire);
  }

  // The whole call gives the same events and the same result.
  lemma {:induction false} ChunkingKeepsTheCall(x: seq<Attempt>, y: seq<Attempt>, attempt: nat, wire: Wire)
    requires |x| == |y| && attempt <= |x|
    requires forall i :: 0 <= i < |x| ==> SameAttempt(x[i], y[i], wire.utf8)
    ensures Stream(x, attempt, wire) == Stream(y, attempt, wire)
    decreases |x| - attempt
  {
    hide ReadItems, SameStream;
    if attempt < |x| {
      assert SameAttempt(x[attempt], y[attempt], wire.utf8);
      if x[attempt].opening != y[attempt].opening {
        SameStreamSameOutcome(x[attempt].opening.items, y[attempt].opening.items, wire);
      }
      ChunkingKeepsTheCall(x, y, attempt + 1, wire);
    }
  }

  // ---- The call and the wire -----------------------------------------------------------

  // The choices of the chunks that some events parse to.
  function ChoicesOf(events: seq<Bytes>, wire: Wire): seq<WireChoice> {
    if events == [] then []
    else (match wire.parse(events[0]) case Some(chunk) => chunk.choices case None => []) + ChoicesOf(events[1..], wire)
  }

  // The last usage given, or `before`.
  function UsageOf(events: seq<Bytes>, wire: Wire, before: Option<int>): Option<int> {
    if events == [] then before
    else
      match wire.parse(events[0])
      case Some(chunk) => UsageOf(events[1..], wire, if chunk.usage.Some? then chunk.usage else before)
      case None => UsageOf(events[1..], wire, before)
  }

  // Event k is the first that says done, and all before it parse.
  predicate DoneAt(events: seq<Bytes>, wire: Wire, k: nat) {
    k < |events| && wire.done(events[k])
    && forall i :: 0 <= i < k ==> !wire.done(events[i]) && wire.parse(events[i]).Some?
  }

  // The completion has exactly the text, the last finish reason and the last usage of
  // these events.
  ghost predicate IsWire(c: ChatCompletion, log: seq<ChatEvent>, a: Assembly, events: seq<Bytes>, wire: Wire) {
    var choices := ChoicesOf(events, wire);
    && c.text == a.text + TextIn(choices)
    && c.finishReason == ReasonIn(choices, a.finishReason)
    && c.usage == UsageOf(events, wire, a.usage)
    && log != [] && log[|log| - 1] == Completed(c) && Says(log[..|log| - 1], TextIn(choices), ToolPartsIn(choices))
  }

  lemma {:induction false} ProcessIsWire(a: Assembly, events: seq<Bytes>, wire: Wire) returns (k: nat)
    requires Process(a, events, wire).verdict.Some? && Process(a, events, wire).verdict.value.Ok?
    ensures DoneAt(events, wire, k)
    ensures IsWire(Process(a, events, wire).verdict.value.value, Process(a, events, wire).log, a, events[..k], wire)
    decreases |events|
  {
    hide ApplyChunk, Says, TextIn, ToolPartsIn, ReasonIn;
    if wire.done(events[0]) {
      k := 0;
      NothingOnWire(a);
    } else {
      var chunk := wire.parse(events[0]).value;
      var applied := ApplyChunk(a, chunk);
      k := ProcessIsWire(applied.assembly, events[1..], wire);
      var p := Process(applied.assembly, events[1..], wire);
      ChunkSaysWire(a, chunk);
      assert events[..k + 1][1..] == events[1..][..k] && events[..k + 1][0] == events[0];
      WireStep(a, chunk, applied, p.log, p.verdict.value.value, events[1..][..k], wire);
      k := k + 1;
    }
  }

  lemma NothingOnWire(a: Assembly)
    ensures Says([], [], []) && TextIn([]) == [] && ToolPartsIn([]) == []
    ensures ReasonIn([], a.finishReason) == a.finishReason
    ensures a.text + [] == a.text
  {
    NothingSays();
  }

  lemma WireStep(a: Assembly, chunk: WireChunk, applied: Applied, log: seq<ChatEvent>, c: ChatCompletion,
                 events: seq<Bytes>, wire: Wire)
    requires applied == ApplyChunk(a, chunk) && applied.ok && IsWire(c, log, applied.assembly, events, wire)
    ensures var choices, all := chunk.choices + ChoicesOf(events, wire), applied.deltas + log;
            c.text == a.text + TextIn(choices) && c.finishReason == ReasonIn(choices, a.finishReason)
            && c.usage == UsageOf(events, wire, if chunk.usage.Some? then chunk.usage else a.usage)
            && all[|all| - 1] == Completed(c) && Says(all[..|all| - 1], TextIn(choices), ToolPartsIn(choices))
  {
    hide ApplyChunk, Says, TextIn, ToolPartsIn, ReasonIn, ChoicesOf, UsageOf;
    var rest, deltas, front := ChoicesOf(events, wire), applied.deltas, log[..|log| - 1];
    ChunkSaysWire(a, chunk);
    InConcat(chunk.choices, rest, a.finishReason);
    SaysBoth(deltas, TextIn(chunk.choices), ToolPartsIn(chunk.choices), front, TextIn(rest), ToolPartsIn(rest));
    Regroup(a.text, TextIn(chunk.choices), TextIn(rest));
    assert (deltas + log)[..|deltas + log| - 1] == deltas + front;
  }

  // The events that the chunks of a stream give, push by push, up to one that fails.
  function EventsOf(buffer: Bytes, items: seq<Item>, wire: Wire): seq<Bytes>
    decreases |items|
  {
    if items == [] || !items[0].Chunk? then []
    else
      var all := buffer + items[0].bytes;
      if !Fits(buffer, items[0].bytes) || !AllValid(Blocks(all), wire.utf8) then []
      else Events(Blocks(all), wire.utf8) + EventsOf(Rest(all), items[1..], wire)
  }

  lemma {:induction false} ReadIsProcess(buffer: Bytes, a: Assembly, items: seq<Item>, wire: Wire)
    requires ReadItems(buffer, a, items, wire).ending.Verdict? && ReadItems(buffer, a, items, wire).ending.result.Ok?
    ensures var p := Process(a, EventsOf(buffer, items, wire), wire);
            var o := ReadItems(buffer, a, items, wire);
            p.verdict == Some(o.ending.result) && p.log == o.log
    decreases |items|
  {
    hide Process, Events, Blocks, Rest, AllValid, Fits;
    if items != [] && items[0].Chunk? {
      var all := buffer + items[0].bytes;
      var here := Events(Blocks(all), wire.utf8);
      var p := Process(a, here, wire);
      ProcessConcat(a, here, EventsOf(Rest(all), items[1..], wire), wire);
      if p.verdict.None? {
        ReadIsProcess(Rest(all), p.assembly, items[1..], wire);
      }
    }
  }

  // So a successful call returns what the wire said: the attempt that succeeds got a
  // done event, every event before it is a chunk, and text, parts of calls, finish
  // reason and usage are those of the chunks before it.
  lemma {:induction false} CompletionIsWire(script: seq<Attempt>, attempt: nat, wire: Wire) returns (last: nat, k: nat)
    requires attempt < |script| && Stream(script, attempt, wire).result.Ok?
    ensures attempt <= last < |script| && script[last].opening.Opened?
    ensures var events := EventsOf([], script[last].opening.items, wire);
            var s := Stream(script, attempt, wire);
            DoneAt(events, wire, k) && IsWire(s.result.value, s.log, EMPTY, events[..k], wire)
    decreases |script| - attempt
  {
    hide ReadItems, Process, IsWire, DoneAt, EventsOf;
    var o := Try(script[attempt], wire);
    if Retries(o, attempt, |script|) {
      last, k := CompletionIsWire(script, attempt + 1, wire);
    } else {
      last := attempt;
      ReadIsProcess([], EMPTY, script[attempt].opening.items, wire);
      k := ProcessIsWire(EMPTY, EventsOf([], script[attempt].opening.items, wire), wire);
    }
  }

  lemma {:induction false} BrokenReading(buffer: Bytes, a: Assembly, items: seq<Item>, wire: Wire)
    ensures var o := ReadItems(buffer, a, items, wire);
            o.ending.BrokenOff? ==>
              (o.ending.error.UnexpectedEnd? || o.ending.error.Transport?)
              && (o.ending.error.UnexpectedEnd? ==> o.ending.retryable)
              && (o.ending.error.Transport? ==> o.ending.retryable == Retryable(o.ending.error.error))
    decreases |items|
  {
    hide Process, Events, Blocks, Rest, AllValid, Fits, Retryable;
    if items != [] && items[0].Chunk? {
      var all := buffer + items[0].bytes;
      var p := Process(a, Events(Blocks(all), wire.utf8), wire);
      BrokenReading(Rest(all), p.assembly, items[1..], wire);
    }
  }

  // Another attempt follows exactly when this one was broken off before the listener was
  // told anything, by the end of the stream, a transient network error, too many requests
  // or the status of a server error, and attempts are left.
  lemma AnotherAttemptIff(script: seq<Attempt>, attempt: nat, wire: Wire)
    requires attempt < |script|
    ensures var o, s := Try(script[attempt], wire), Stream(script, attempt, wire);
            var e := if o.ending.BrokenOff? then o.ending.error else Cancelled;
            var broken := e.UnexpectedEnd? || (e.Transport? && match e.error
                                                               case TransientNetwork => true
                                                               case PermanentNetwork => false
                                                               case Http(n) => n == 429 || 500 <= n <= 599);
            s == if o.log == [] && broken && attempt + 1 < |script| then
                   if script[attempt].cancelledInWait then Streamed([], Err(Cancelled))
                   else Stream(script, attempt + 1, wire)
                 else Streamed(o.log, if o.ending.Verdict? then o.ending.result else Err(e))
  {
    if script[attempt].opening.Opened? {
      BrokenReading([], EMPTY, script[attempt].opening.items, wire);
    }
    hide ReadItems;
  }
}
