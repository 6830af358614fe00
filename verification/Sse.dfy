// The server-sent-event decoder: a buffer that is cut at blank lines, and the
// events of the complete blocks.
module Sse {
  // Blocks are kept as bytes. Whether a block is UTF-8 and which leading white
  // space a line loses are parameters (`Utf8`).

  import opened Wrappers
  import opened ByteStrings

  const CR: byte := 13
  const LF: byte := 10
  const DATA: Bytes := [100, 97, 116, 97, 58]
  const MAX_SSE_BUFFER_BYTES := 2 * 1024 * 1024

  datatype Utf8 = Utf8(valid: Bytes -> bool, trimStart: Bytes -> Bytes)

  predicate UnixAt(b: Bytes, i: int) {
    0 <= i && i + 2 <= |b| && b[i] == LF && b[i + 1] == LF
  }

  predicate WindowsAt(b: Bytes, i: int) {
    0 <= i && i + 4 <= |b| && b[i] == CR && b[i + 1] == LF && b[i + 2] == CR && b[i + 3] == LF
  }

  predicate DelimiterAt(b: Bytes, i: int) { UnixAt(b, i) || WindowsAt(b, i) }

  function FirstUnix(b: Bytes, from: nat): (r: Option<nat>)
    ensures r.Some? ==> UnixAt(b, r.value) && forall q :: from <= q < r.value ==> !UnixAt(b, q)
    ensures r.None? ==> forall q :: from <= q ==> !UnixAt(b, q)
    decreases |b| - from
  {
    if |b| < from + 2 then None else if UnixAt(b, from) then Some(from) else FirstUnix(b, from + 1)
  }

  function FirstWindows(b: Bytes, from: nat): (r: Option<nat>)
    ensures r.Some? ==> WindowsAt(b, r.value) && forall q :: from <= q < r.value ==> !WindowsAt(b, q)
    ensures r.None? ==> forall q :: from <= q ==> !WindowsAt(b, q)
    decreases |b| - from
  {
    if |b| < from + 4 then None else if WindowsAt(b, from) then Some(from) else FirstWindows(b, from + 1)
  }

  // The first delimiter and its length.
  function EventBoundary(b: Bytes): (r: Option<(nat, nat)>)
    ensures r.None? ==> forall q :: !UnixAt(b, q) && !WindowsAt(b, q)
    ensures r.Some? ==> DelimiterAt(b, r.value.0)
    ensures r.Some? ==> forall q :: 0 <= q < r.value.0 ==> !UnixAt(b, q) && !WindowsAt(b, q)
    ensures r.Some? ==> r.value.1 == (if UnixAt(b, r.value.0) then 2 else 4) && r.value.0 + r.value.1 <= |b|
  {
    var unix, windows := FirstUnix(b, 0), FirstWindows(b, 0);
    if unix.Some? && (windows.None? || unix.value <= windows.value) then Some((unix.value, 2))
    else if windows.Some? then Some((windows.value, 4))
    else None
  }

  // The complete blocks of a buffer, and what is left after them.
  function Blocks(b: Bytes): seq<Bytes>
    decreases |b|
  {
    match EventBoundary(b)
    case None => []
    case Some((p, n)) => [b[..p]] + Blocks(b[p + n..])
  }

  function Rest(b: Bytes): (r: Bytes)
    ensures EventBoundary(r).None?
    decreases |b|
  {
    match EventBoundary(b)
    case None => b
    case Some((p, n)) => Rest(b[p + n..])
  }

  // ---- The data of a block -----------------------------------------------------

  // The lines of a block without their line ends.
  function Lines(block: Bytes): seq<Bytes> {
    if block == [] then []
    else
      var i := LineEnd(block, 0);
      [TrimCr(block[..i])] + if i == |block| then [] else Lines(block[i + 1..])
  }

  function LineEnd(block: Bytes, from: nat): (i: nat)
    requires from <= |block|
    ensures from <= i <= |block| && LF !in block[from..i]
    ensures i < |block| ==> block[i] == LF
    decreases |block| - from
  {
    if from == |block| || block[from] == LF then from
    else
      var i := LineEnd(block, from + 1);
      assert block[from..i] == [block[from]] + block[from + 1..i];
      i
  }

  function TrimCr(line: Bytes): Bytes {
    if line != [] && line[|line| - 1] == CR then TrimCr(line[..|line| - 1]) else line
  }

  function DataLines(lines: seq<Bytes>, utf8: Utf8): seq<Bytes> {
    if lines == [] then []
    else
      var line := lines[0];
      (if DATA <= line then [utf8.trimStart(line[|DATA|..])] else []) + DataLines(lines[1..], utf8)
  }

  function Join(lines: seq<Bytes>): Bytes
    requires lines != []
  {
    if |lines| == 1 then lines[0] else lines[0] + [LF] + Join(lines[1..])
  }

  function BlockEvents(block: Bytes, utf8: Utf8): seq<Bytes> {
    var data := DataLines(Lines(block), utf8);
    if data == [] then [] else [Join(data)]
  }

  function Events(blocks: seq<Bytes>, utf8: Utf8): seq<Bytes> {
    if blocks == [] then [] else BlockEvents(blocks[0], utf8) + Events(blocks[1..], utf8)
  }

  predicate AllValid(blocks: seq<Bytes>, utf8: Utf8) {
    forall i :: 0 <= i < |blocks| ==> utf8.valid(blocks[i])
  }

  // Whether a chunk fits into the buffer.
  predicate Fits(buffer: Bytes, chunk: Bytes) {
    |chunk| <= if |buffer| < MAX_SSE_BUFFER_BYTES then MAX_SSE_BUFFER_BYTES - |buffer| else 0
  }

  // The buffer may grow to two mebibytes, counting what is left of earlier chunks.
  lemma FitsIff(buffer: Bytes, chunk: Bytes)
    requires |buffer| <= 2 * 1024 * 1024
    ensures Fits(buffer, chunk) <==> |buffer + chunk| <= 2 * 1024 * 1024
  {
  }

  class SseDecoder {
    var buffer: Bytes

    constructor ()
      ensures buffer == []
    {
      buffer := [];
    }

    // The only failures are a chunk that does not fit and a block that is not
    // UTF-8. The failure drops the events of earlier blocks in the same chunk.
    method Push(chunk: Bytes, utf8: Utf8) returns (r: Option<seq<Bytes>>)
      modifies this
      ensures r.Some? <==> Fits(old(buffer), chunk) && AllValid(Blocks(old(buffer) + chunk), utf8)
      ensures r.Some? ==>
                r.value == Events(Blocks(old(buffer) + chunk), utf8) && buffer == Rest(old(buffer) + chunk)
    {
      hide Blocks, Rest, Events, BlockEvents, AllValid, EventBoundary;
      var room := if |buffer| < MAX_SSE_BUFFER_BYTES then MAX_SSE_BUFFER_BYTES - |buffer| else 0;
      if |chunk| > room {
        return None;
      }
      ghost var whole := buffer + chunk;
      buffer := buffer + chunk;
      var events := [];
      var boundary := EventBoundary(buffer);
      while boundary.Some?
        invariant boundary == EventBoundary(buffer)
        invariant AllValid(Blocks(whole), utf8) <==> AllValid(Blocks(buffer), utf8)
        invariant Events(Blocks(whole), utf8) == events + Events(Blocks(buffer), utf8)
        invariant Rest(whole) == Rest(buffer)
        decreases |buffer|
      {
        var (position, length) := boundary.value;
        var block := buffer[..position];
        NextBlock(buffer, utf8);
        buffer := buffer[position + length..];
        if !utf8.valid(block) {
          return None;
        }
        Regroup(events, BlockEvents(block, utf8), Events(Blocks(buffer), utf8));
        events := events + BlockEvents(block, utf8);
        boundary := EventBoundary(buffer);
      }
      LastBlock(buffer, utf8);
      r := Some(events);
    }
  }

  lemma NextBlock(b: Bytes, utf8: Utf8)
    requires EventBoundary(b).Some?
    ensures var (p, n) := EventBoundary(b).value;
            0 < n && p + n <= |b|
            && Blocks(b) == [b[..p]] + Blocks(b[p + n..]) && Rest(b) == Rest(b[p + n..])
            && Events(Blocks(b), utf8) == BlockEvents(b[..p], utf8) + Events(Blocks(b[p + n..]), utf8)
            && (AllValid(Blocks(b), utf8) <==> utf8.valid(b[..p]) && AllValid(Blocks(b[p + n..]), utf8))
  {
    var (p, n) := EventBoundary(b).value;
    var block, blocks := b[..p], Blocks(b[p + n..]);
    assert ([block] + blocks)[1..] == blocks;
    FirstValid(block, blocks, utf8);
  }

  lemma LastBlock(b: Bytes, utf8: Utf8)
    requires EventBoundary(b).None?
    ensures Blocks(b) == [] && Rest(b) == b && Events([], utf8) == [] && AllValid([], utf8)
  {
  }

  lemma FirstValid(block: Bytes, blocks: seq<Bytes>, utf8: Utf8)
    ensures AllValid([block] + blocks, utf8) <==> utf8.valid(block) && AllValid(blocks, utf8)
  {
    assert ([block] + blocks)[0] == block;
    assert forall i :: 0 <= i < |blocks| ==> ([block] + blocks)[i + 1] == blocks[i];
  }

  // ---- Chunks do not matter -------------------------------------------------------

  function Concat(chunks: seq<Bytes>): Bytes {
    if chunks == [] then [] else chunks[0] + Concat(chunks[1..])
  }

  // What a decoder gives out over a whole stream of chunks.
  datatype Fed = Fed(events: seq<Bytes>, failed: bool, rest: Bytes)

  function Feed(buffer: Bytes, chunks: seq<Bytes>, utf8: Utf8): Fed
    decreases |chunks|
  {
    if chunks == [] then Fed([], false, buffer)
    else
      var all := buffer + chunks[0];
      if !Fits(buffer, chunks[0]) || !AllValid(Blocks(all), utf8) then Fed([], true, buffer)
      else
        var later := Feed(Rest(all), chunks[1..], utf8);
        Fed(Events(Blocks(all), utf8) + later.events, later.failed, later.rest)
  }

  // Every chunk fits when it arrives.
  predicate WithinLimit(buffer: Bytes, chunks: seq<Bytes>)
    decreases |chunks|
  {
    chunks == [] || (Fits(buffer, chunks[0]) && WithinLimit(Rest(buffer + chunks[0]), chunks[1..]))
  }

  lemma NoEarlierDelimiter(b: Bytes, c: Bytes, p: nat, q: nat)
    requires DelimiterAt(b, p) && q < p && !DelimiterAt(b, q)
    ensures !DelimiterAt(b + c, q)
  {
    var s := b + c;
    assert s[p] == b[p] && s[p + 1] == b[p + 1];
    assert UnixAt(s, q) == UnixAt(b, q);
  }

  // A boundary stays the first one when more bytes arrive.
  lemma BoundaryIsStable(b: Bytes, c: Bytes)
    requires EventBoundary(b).Some?
    ensures EventBoundary(b + c) == EventBoundary(b)
  {
    var (p, n) := EventBoundary(b).value;
    assert UnixAt(b + c, p) == UnixAt(b, p) && DelimiterAt(b + c, p);
    var q := EventBoundary(b + c).value.0;
    if q < p {
      NoEarlierDelimiter(b, c, p, q);
    }
  }

  lemma {:induction false} BlocksCompose(b: Bytes, c: Bytes)
    ensures Blocks(b + c) == Blocks(b) + Blocks(Rest(b) + c)
    ensures Rest(b + c) == Rest(Rest(b) + c)
    decreases |b|
  {
    hide EventBoundary;
    if EventBoundary(b).Some? {
      BoundaryIsStable(b, c);
      var (p, n) := EventBoundary(b).value;
      assert (b + c)[..p] == b[..p] && (b + c)[p + n..] == b[p + n..] + c;
      BlocksCompose(b[p + n..], c);
    }
  }

  lemma {:induction false} EventsConcat(x: seq<Bytes>, y: seq<Bytes>, utf8: Utf8)
    ensures Events(x + y, utf8) == Events(x, utf8) + Events(y, utf8)
    ensures AllValid(x + y, utf8) <==> AllValid(x, utf8) && AllValid(y, utf8)
  {
    hide BlockEvents;
    if x == [] {
      assert x + y == y;
    } else {
      assert x + y == [x[0]] + (x[1..] + y) && x == [x[0]] + x[1..];
      FirstValid(x[0], x[1..] + y, utf8);
      FirstValid(x[0], x[1..], utf8);
      EventsConcat(x[1..], y, utf8);
    }
  }

  // One chunk more: the blocks it completes, and those of the rest of the stream.
  lemma ChunkThenRest(buffer: Bytes, chunks: seq<Bytes>)
    requires chunks != []
    ensures var all := buffer + chunks[0];
            Blocks(buffer + Concat(chunks)) == Blocks(all) + Blocks(Rest(all) + Concat(chunks[1..]))
            && Rest(buffer + Concat(chunks)) == Rest(Rest(all) + Concat(chunks[1..]))
  {
    BlocksCompose(buffer + chunks[0], Concat(chunks[1..]));
    Regroup(buffer, chunks[0], Concat(chunks[1..]));
  }

  // A stream of valid blocks gives the same events, however it is chunked.
  lemma {:induction false} ChunksDoNotMatter(buffer: Bytes, chunks: seq<Bytes>, utf8: Utf8)
    requires EventBoundary(buffer).None? && WithinLimit(buffer, chunks)
    requires AllValid(Blocks(buffer + Concat(chunks)), utf8)
    ensures var whole := buffer + Concat(chunks);
            Feed(buffer, chunks, utf8) == Fed(Events(Blocks(whole), utf8), false, Rest(whole))
    decreases |chunks|
  {
    if chunks == [] {
      assert buffer + Concat(chunks) == buffer;
    } else {
      hide EventBoundary, Blocks, Rest, Events, AllValid, Fits, Concat;
      var all := buffer + chunks[0];
      ChunkThenRest(buffer, chunks);
      EventsConcat(Blocks(all), Blocks(Rest(all) + Concat(chunks[1..])), utf8);
      ChunksDoNotMatter(Rest(all), chunks[1..], utf8);
    }
  }

  // The events before the first block that is not UTF-8.
  function GoodEvents(blocks: seq<Bytes>, utf8: Utf8): seq<Bytes> {
    if blocks == [] || !utf8.valid(blocks[0]) then []
    else BlockEvents(blocks[0], utf8) + GoodEvents(blocks[1..], utf8)
  }

  lemma {:induction false} GoodConcat(x: seq<Bytes>, y: seq<Bytes>, utf8: Utf8)
    ensures AllValid(x, utf8) ==> GoodEvents(x + y, utf8) == Events(x, utf8) + GoodEvents(y, utf8)
    ensures !AllValid(x, utf8) ==> GoodEvents(x + y, utf8) == GoodEvents(x, utf8)
  {
    hide BlockEvents, AllValid;
    if x == [] {
      assert x + y == y;
      LastBlock([], utf8);
    } else {
      assert (x + y)[1..] == x[1..] + y && x == [x[0]] + x[1..];
      FirstValid(x[0], x[1..], utf8);
      if utf8.valid(x[0]) {
        GoodConcat(x[1..], y, utf8);
        Regroup(BlockEvents(x[0], utf8), Events(x[1..], utf8), GoodEvents(y, utf8));
      }
    }
  }

  lemma PrefixOfConcat(x: seq<Bytes>, y: seq<Bytes>, z: seq<Bytes>)
    requires y <= z
    ensures x + y <= x + z
  {
  }

  // With an invalid block every chunking fails, after some of the events before it.
  lemma {:induction false} InvalidStreamFails(buffer: Bytes, chunks: seq<Bytes>, utf8: Utf8)
    requires EventBoundary(buffer).None? && WithinLimit(buffer, chunks)
    requires !AllValid(Blocks(buffer + Concat(chunks)), utf8)
    ensures Feed(buffer, chunks, utf8).failed
    ensures Feed(buffer, chunks, utf8).events <= GoodEvents(Blocks(buffer + Concat(chunks)), utf8)
    decreases |chunks|
  {
    LastBlock(buffer, utf8);
    assert Concat([]) == [] && buffer + [] == buffer;
    if chunks != [] {
      hide EventBoundary, Blocks, Rest, Events, AllValid, Fits, Concat, GoodEvents;
      var all := buffer + chunks[0];
      var here, later := Blocks(all), Blocks(Rest(all) + Concat(chunks[1..]));
      ChunkThenRest(buffer, chunks);
      EventsConcat(here, later, utf8);
      GoodConcat(here, later, utf8);
      if AllValid(here, utf8) {
        InvalidStreamFails(Rest(all), chunks[1..], utf8);
        PrefixOfConcat(Events(here, utf8), Feed(Rest(all), chunks[1..], utf8).events, GoodEvents(later, utf8));
      }
    }
  }

  function Singles(b: Bytes): seq<Bytes> {
    if b == [] then [] else [b[..1]] + Singles(b[1..])
  }

  lemma {:induction false} ConcatSingles(b: Bytes)
    ensures Concat(Singles(b)) == b
  {
    if b != [] {
      ConcatSingles(b[1..]);
      assert ([b[..1]] + Singles(b[1..]))[1..] == Singles(b[1..]);
    }
  }

  lemma {:induction false} RestIsShorter(b: Bytes)
    ensures |Rest(b)| <= |b|
    decreases |b|
  {
    if EventBoundary(b).Some? {
      var (p, n) := EventBoundary(b).value;
      RestIsShorter(b[p + n..]);
    }
  }

  // A short stream fits in every chunking.
  lemma {:induction false} ShortStreamFits(buffer: Bytes, chunks: seq<Bytes>)
    requires |buffer| + |Concat(chunks)| <= MAX_SSE_BUFFER_BYTES
    ensures WithinLimit(buffer, chunks)
    decreases |chunks|
  {
    if chunks != [] {
      RestIsShorter(buffer + chunks[0]);
      ShortStreamFits(Rest(buffer + chunks[0]), chunks[1..]);
    }
  }

  // One byte completes at most one block.
  lemma OneByteOneBlock(buffer: Bytes, x: byte)
    requires EventBoundary(buffer).None?
    ensures |Blocks(buffer + [x])| <= 1
  {
    var b := buffer + [x];
    if EventBoundary(b).Some? {
      var (p, n) := EventBoundary(b).value;
      assert p + n <= |buffer| ==> DelimiterAt(b, p) == DelimiterAt(buffer, p);
      assert b[p + n..] == [];
    }
  }

  // Byte by byte a stream gives all events before its first invalid block.
  lemma {:induction false} BytewiseGivesAll(buffer: Bytes, b: Bytes, utf8: Utf8)
    requires EventBoundary(buffer).None? && |buffer| + |b| <= MAX_SSE_BUFFER_BYTES
    ensures Feed(buffer, Singles(b), utf8).events == GoodEvents(Blocks(buffer + b), utf8)
    decreases |b|
  {
    if b == [] {
      assert buffer + b == buffer;
      assert Blocks(buffer) == [];
    } else {
      var all, later := buffer + b[..1], b[1..];
      assert Singles(b)[0] == b[..1] && Singles(b)[1..] == Singles(later);
      assert Concat(Singles(b)) == b && Concat(Singles(later)) == later by {
        ConcatSingles(b);
        ConcatSingles(later);
      }
      assert Fits(buffer, b[..1]);
      assert b[..1] == [b[0]];
      OneByteOneBlock(buffer, b[0]);
      RestIsShorter(all);
      assert Events([], utf8) == [];
      hide EventBoundary, Blocks, Rest, Events, Singles, Concat, BlockEvents, Fits;
      ChunkThenRest(buffer, Singles(b));
      GoodConcat(Blocks(all), Blocks(Rest(all) + later), utf8);
      if AllValid(Blocks(all), utf8) {
        BytewiseGivesAll(Rest(all), later, utf8);
      } else {
        assert GoodEvents(Blocks(all), utf8) == [];
      }
    }
  }

  lemma OutcomeOfChunks(stream: Bytes, chunks: seq<Bytes>, utf8: Utf8)
    requires |stream| <= MAX_SSE_BUFFER_BYTES && Concat(chunks) == stream
    ensures AllValid(Blocks(stream), utf8) ==>
              Feed([], chunks, utf8) == Fed(Events(Blocks(stream), utf8), false, Rest(stream))
    ensures !AllValid(Blocks(stream), utf8) ==>
              Feed([], chunks, utf8).failed && Feed([], chunks, utf8).events <= GoodEvents(Blocks(stream), utf8)
  {
    assert EventBoundary([]).None?;
    assert [] + stream == stream;
    hide *;
    ShortStreamFits([], chunks);
    if AllValid(Blocks(stream), utf8) {
      ChunksDoNotMatter([], chunks, utf8);
    } else {
      InvalidStreamFails([], chunks, utf8);
    }
  }

  lemma OneChunkGivesNone(stream: Bytes, utf8: Utf8)
    requires !AllValid(Blocks(stream), utf8)
    ensures Concat([stream]) == stream && Feed([], [stream], utf8).events == []
  {
    assert [] + stream == stream;
    assert [stream][1..] == [];
    hide Blocks, AllValid, Events;
  }

  lemma SinglesGiveAll(stream: Bytes, utf8: Utf8)
    requires |stream| <= MAX_SSE_BUFFER_BYTES
    ensures Concat(Singles(stream)) == stream
    ensures Feed([], Singles(stream), utf8).events == GoodEvents(Blocks(stream), utf8)
  {
    assert EventBoundary([]).None?;
    assert [] + stream == stream;
    hide *;
    ConcatSingles(stream);
    BytewiseGivesAll([], stream, utf8);
  }

  ghost predicate SameForAllChunks(stream: Bytes, utf8: Utf8) {
    forall x, y | Concat(x) == stream && Concat(y) == stream :: Feed([], x, utf8).events == Feed([], y, utf8).events
  }

  // Chunking can be seen in the events exactly when an event comes before a block
  // that is not UTF-8: one chunk then loses it and single bytes deliver it.
  lemma ChunksMatterOnlyWhenInvalid(stream: Bytes, utf8: Utf8)
    requires |stream| <= MAX_SSE_BUFFER_BYTES
    ensures SameForAllChunks(stream, utf8)
       <==> AllValid(Blocks(stream), utf8) || GoodEvents(Blocks(stream), utf8) == []
  {
    hide Feed, Concat, AllValid, Blocks, GoodEvents, Events, Rest, Singles;
    if AllValid(Blocks(stream), utf8) || GoodEvents(Blocks(stream), utf8) == [] {
      forall x, y | Concat(x) == stream && Concat(y) == stream
        ensures Feed([], x, utf8).events == Feed([], y, utf8).events
      {
        OutcomeOfChunks(stream, x, utf8);
        OutcomeOfChunks(stream, y, utf8);
      }
    } else {
      OneChunkGivesNone(stream, utf8);
      SinglesGiveAll(stream, utf8);
    }
  }
}
