// Reading and writing frames: a header with a length and a body, or one line.
module McpFrames {
  // The input is a list of chunks that arrive one after another; what is read is
  // shown to depend on their bytes alone. UTF-8 validation and trimming of a header
  // are parameters.

  import opened Wrappers
  import opened ByteStrings

  const MAX_FRAME_BYTES := 1024 * 1024
  const MAX_FIRST_LINE_BYTES := MAX_FRAME_BYTES + 2
  const MAX_HEADER_LINE_BYTES := 8 * 1024
  const MAX_HEADER_BYTES := 32 * 1024
  const MAX_HEADER_LINES := 64
  const MAX_LEADING_BLANK_LINES := 8
  const USIZE_LIMIT := 0x1_0000_0000_0000_0000

  const LF: byte := 10
  const CR: byte := 13
  const SPACE: byte := 32
  const COLON: byte := 58
  // "content-length:"
  const PREFIX: Bytes := [99, 111, 110, 116, 101, 110, 116, 45, 108, 101, 110, 103, 116, 104, 58]
  // "Content-Length:"
  const HEADER: Bytes := [67, 111, 110, 116, 101, 110, 116, 45, 76, 101, 110, 103, 116, 104, 58]

  datatype Mode = ContentLength | Newline
  datatype Error = FrameTooLarge | BadContentLength | UnexpectedEof
  datatype Frame = Frame(mode: Mode, body: Bytes)

  datatype Text = Text(valid: Bytes -> bool, trim: Bytes -> Bytes)

  // ---- Lines ---------------------------------------------------------------------------

  // The length of the first line with its end, or of everything when it has none.
  function LineLength(b: Bytes): (n: nat)
    ensures n <= |b| && (b != [] ==> n > 0)
    ensures forall i :: 0 <= i < n - 1 ==> b[i] != LF
    ensures n > 0 && n < |b| ==> b[n - 1] == LF
  {
    if b == [] then 0 else if b[0] == LF then 1 else 1 + LineLength(b[1..])
  }

  datatype Read<T> = Read(value: Result<T, Error>, rest: Bytes)

  function ReadLine(b: Bytes, maximum: nat): Read<Option<Bytes>> {
    if b == [] then Read(Ok(None), [])
    else if LineLength(b) > maximum then Read(Err(FrameTooLarge), [])
    else Read(Ok(Some(b[..LineLength(b)])), b[LineLength(b)..])
  }

  function Lower(c: byte): byte { if 65 <= c <= 90 then c + 32 else c }

  predicate HasContentLengthPrefix(line: Bytes) {
    |line| >= |PREFIX| && forall i :: 0 <= i < |PREFIX| ==> Lower(line[i]) == PREFIX[i]
  }

  // Space, tab, line feed, form feed and carriage return.
  predicate IsAsciiSpace(c: byte) { c == 32 || c == 9 || c == 10 || c == 12 || c == 13 }

  predicate IsBlankLine(line: Bytes) {
    forall i :: 0 <= i < |line| ==> IsAsciiSpace(line[i])
  }

  function TrimLineEnding(line: Bytes): Bytes {
    if line == [] || line[|line| - 1] != LF then line
    else
      var shorter := line[..|line| - 1];
      if shorter != [] && shorter[|shorter| - 1] == CR then shorter[..|shorter| - 1] else shorter
  }

  // ---- The length in a header ------------------------------------------------------------

  predicate IsDigit(c: byte) { 48 <= c <= 57 }

  function DecimalValue(b: Bytes): nat
    requires forall i :: 0 <= i < |b| ==> IsDigit(b[i])
  {
    if b == [] then 0
    else
      assert IsDigit(b[|b| - 1]);
      var last: int := b[|b| - 1];
      10 * DecimalValue(b[..|b| - 1]) + (last - 48)
  }

  // Without a plus sign.
  function Unsigned(b: Bytes): Bytes { if b != [] && b[0] == 43 then b[1..] else b }

  function ParseUsize(b: Bytes): Option<nat> {
    var digits := Unsigned(b);
    if digits == [] || exists i :: 0 <= i < |digits| && !IsDigit(digits[i]) then None
    else if DecimalValue(digits) >= USIZE_LIMIT then None
    else Some(DecimalValue(digits))
  }

  // What follows the first colon.
  function AfterColon(b: Bytes): Option<Bytes> {
    if b == [] then None else if b[0] == COLON then Some(b[1..]) else AfterColon(b[1..])
  }

  function ParseContentLength(header: Bytes, text: Text): Result<nat, Error> {
    if !text.valid(header) then Err(BadContentLength)
    else
      match AfterColon(header)
      case None => Err(BadContentLength)
      case Some(value) =>
        match ParseUsize(text.trim(value))
        case None => Err(BadContentLength)
        case Some(length) => if length > MAX_FRAME_BYTES then Err(FrameTooLarge) else Ok(length)
  }

  // ---- Frames ----------------------------------------------------------------------------

  // The other header lines, up to a blank one.
  function ReadHeaders(b: Bytes, headerBytes: nat, headerLines: nat): Read<()>
    decreases |b|
  {
    var line := ReadLine(b, MAX_HEADER_LINE_BYTES);
    match line.value
    case Err(e) => Read(Err(e), [])
    case Ok(None) => Read(Err(BadContentLength), [])
    case Ok(Some(header)) =>
      if headerBytes + |header| > MAX_HEADER_BYTES || headerLines + 1 > MAX_HEADER_LINES then
        Read(Err(FrameTooLarge), [])
      else if IsBlankLine(header) then Read(Ok(()), line.rest)
      else if HasContentLengthPrefix(header) then Read(Err(BadContentLength), [])
      else ReadHeaders(line.rest, headerBytes + |header|, headerLines + 1)
  }

  function ReadBody(b: Bytes, length: nat): Read<Option<Frame>> {
    if |b| < length then Read(Err(UnexpectedEof), [])
    else Read(Ok(Some(Frame(ContentLength, b[..length]))), b[length..])
  }

  // The frame that starts with a line that is not blank.
  function AfterFirst(first: Bytes, rest: Bytes, text: Text): Read<Option<Frame>> {
    if HasContentLengthPrefix(first) then
      if |first| > MAX_HEADER_LINE_BYTES then Read(Err(FrameTooLarge), [])
      else
        match ParseContentLength(first, text)
        case Err(e) => Read(Err(e), [])
        case Ok(length) =>
          var headers := ReadHeaders(rest, |first|, 1);
          if headers.value.Err? then Read(Err(headers.value.error), []) else ReadBody(headers.rest, length)
    else if |TrimLineEnding(first)| > MAX_FRAME_BYTES then Read(Err(FrameTooLarge), [])
    else Read(Ok(Some(Frame(Newline, TrimLineEnding(first)))), rest)
  }

  function ReadFrom(b: Bytes, blanks: nat, text: Text): Read<Option<Frame>>
    decreases |b|
  {
    var line := ReadLine(b, MAX_FIRST_LINE_BYTES);
    match line.value
    case Err(e) => Read(Err(e), [])
    case Ok(None) => Read(Ok(None), [])
    case Ok(Some(first)) =>
      if IsBlankLine(first) then
        if blanks + 1 > MAX_LEADING_BLANK_LINES then Read(Err(FrameTooLarge), [])
        else ReadFrom(line.rest, blanks + 1, text)
      else AfterFirst(first, line.rest, text)
  }

  function ReadFrame(b: Bytes, text: Text): Read<Option<Frame>> { ReadFrom(b, 0, text) }

  // ---- Reading from chunks -----------------------------------------------------------------

  function Concat(chunks: seq<Bytes>): Bytes {
    if chunks == [] then [] else chunks[0] + Concat(chunks[1..])
  }

  // A buffered input: `FillBuffer` shows the bytes at hand and is empty only at the
  // end, `Consume` takes some of them.
  class Input {
    var chunks: seq<Bytes>

    ghost predicate Valid()
      reads this
    {
      forall i :: 0 <= i < |chunks| ==> chunks[i] != []
    }

    ghost function Remaining(): Bytes
      reads this
    {
      Concat(chunks)
    }

    constructor (chunks: seq<Bytes>)
      requires forall i :: 0 <= i < |chunks| ==> chunks[i] != []
      ensures Valid() && Remaining() == Concat(chunks)
    {
      this.chunks := chunks;
    }

    method FillBuffer() returns (buffer: Bytes)
      requires Valid()
      ensures buffer <= Remaining() && (buffer == [] <==> Remaining() == [])
      ensures buffer != [] ==> chunks != [] && buffer == chunks[0]
    {
      buffer := if chunks == [] then [] else chunks[0];
    }

    method Consume(n: nat)
      requires Valid() && chunks != [] && n <= |chunks[0]|
      modifies this
      ensures Valid() && Remaining() == old(Remaining())[n..]
    {
      var first := chunks[0];
      assert Concat(chunks)[n..] == first[n..] + Concat(chunks[1..]);
      if n == |first| {
        chunks := chunks[1..];
      } else {
        chunks := [first[n..]] + chunks[1..];
        assert chunks[1..] == old(chunks)[1..];
      }
    }

    // The first line, or None at the end.
    method ReadLineLimited(maximum: nat) returns (r: Result<Option<Bytes>, Error>)
      requires Valid()
      modifies this
      ensures Valid()
      ensures r == ReadLine(old(Remaining()), maximum).value
      ensures r.Ok? ==> Remaining() == ReadLine(old(Remaining()), maximum).rest
    {
      hide *;
      ghost var all := Remaining();
      var line: Bytes := [];
      assert [] + all == all;
      while true
        invariant Valid() && all == line + Remaining() && |line| <= maximum
        invariant LF !in line
        decreases |Remaining()|
      {
        var buffer := FillBuffer();
        if buffer == [] {
          assert line + [] == line;
          AtEnd(line, maximum);
          return Ok(if line == [] then None else Some(line));
        }
        var newline := PositionOf(buffer);
        var consumed := if newline.Some? then newline.value + 1 else |buffer|;
        LineInBuffer(line, buffer, Remaining(), newline, maximum);
        if |line| + consumed > maximum {
          return Err(FrameTooLarge);
        }
        line := line + buffer[..consumed];
        Consume(consumed);
        if newline.Some? {
          return Ok(Some(line));
        }
        assert buffer[..consumed] == buffer;
      }
    }

    // The next `n` bytes.
    method ReadExact(n: nat) returns (r: Result<Bytes, Error>)
      requires Valid()
      modifies this
      ensures Valid()
      ensures |old(Remaining())| < n ==> r == Err(UnexpectedEof)
      ensures |old(Remaining())| >= n ==>
                r == Ok(old(Remaining())[..n]) && Remaining() == old(Remaining())[n..]
    {
      hide Concat;
      ghost var all := Remaining();
      var body: Bytes := [];
      while |body| < n
        invariant Valid() && all == body + Remaining() && |body| <= n
      {
        var buffer := FillBuffer();
        if buffer == [] {
          assert all == body;
          return Err(UnexpectedEof);
        }
        var take := if |buffer| < n - |body| then |buffer| else n - |body|;
        SplitBuffer(body, buffer, Remaining(), take);
        body := body + buffer[..take];
        Consume(take);
      }
      assert all[..n] == body && all[n..] == Remaining();
      r := Ok(body);
    }
  }

  // What is removed is one line end, LF or CR LF, if the line has one: no byte more,
  // and a carriage return only together with the line feed after it.
  method TrimEnding(line: Bytes) returns (r: Bytes)
    ensures r <= line && (line[|r|..] == [] || line[|r|..] == [LF] || line[|r|..] == [CR, LF])
    ensures line[|r|..] == [] <==> line == [] || line[|line| - 1] != LF
    ensures line[|r|..] == [LF] ==> r == [] || r[|r| - 1] != CR
    ensures r == TrimLineEnding(line)
  {
    r := line;
    if r != [] && r[|r| - 1] == LF {
      r := r[..|r| - 1];
      if r != [] && r[|r| - 1] == CR {
        r := r[..|r| - 1];
      }
    }
  }

  lemma LineIsTaken(b: Bytes, maximum: nat)
    ensures var line := ReadLine(b, maximum); line.value.Ok? && line.value.value.Some? ==> |line.rest| < |b|
  {
  }

  method ReadHeaderLines(input: Input, first: nat) returns (r: Result<(), Error>)
    requires input.Valid()
    modifies input
    ensures input.Valid()
    ensures var read := ReadHeaders(old(input.Remaining()), first, 1);
            r == read.value && (r.Ok? ==> input.Remaining() == read.rest)
  {
    hide ReadLine, IsBlankLine, HasContentLengthPrefix, Concat;
    var headerBytes: nat, headerLines: nat := first, 1;
    ghost var all := ReadHeaders(input.Remaining(), first, 1);
    while true
      invariant input.Valid() && all == ReadHeaders(input.Remaining(), headerBytes, headerLines)
      decreases |input.Remaining()|
    {
      LineIsTaken(input.Remaining(), MAX_HEADER_LINE_BYTES);
      var line := input.ReadLineLimited(MAX_HEADER_LINE_BYTES);
      if line.Err? {
        return Err(line.error);
      }
      if line.value.None? {
        return Err(BadContentLength);
      }
      var header := line.value.value;
      headerBytes := headerBytes + |header|;
      headerLines := headerLines + 1;
      if headerBytes > MAX_HEADER_BYTES || headerLines > MAX_HEADER_LINES {
        return Err(FrameTooLarge);
      }
      if IsBlankLine(header) {
        return Ok(());
      }
      if HasContentLengthPrefix(header) {
        return Err(BadContentLength);
      }
    }
  }

  // One frame from chunks is one frame from their bytes.
  method ReadFrameFrom(input: Input, text: Text) returns (r: Result<Option<Frame>, Error>)
    requires input.Valid()
    modifies input
    ensures input.Valid()
    ensures var read := ReadFrame(old(input.Remaining()), text);
            r == read.value && (r.Ok? ==> input.Remaining() == read.rest)
  {
    hide ReadLine, ReadFrom, ReadHeaders, ParseContentLength, IsBlankLine, HasContentLengthPrefix, TrimLineEnding,
         Concat;
    var blanks: nat := 0;
    ghost var all := ReadFrom(input.Remaining(), 0, text);
    while true
      invariant input.Valid() && all == ReadFrom(input.Remaining(), blanks, text)
      decreases |input.Remaining()|
    {
      ghost var here := input.Remaining();
      FirstLine(here, blanks, text);
      var line := input.ReadLineLimited(MAX_FIRST_LINE_BYTES);
      if line.Err? {
        return Err(line.error);
      }
      if line.value.None? {
        return Ok(None);
      }
      var first := line.value.value;
      if IsBlankLine(first) {
        blanks := blanks + 1;
        if blanks > MAX_LEADING_BLANK_LINES {
          return Err(FrameTooLarge);
        }
        continue;
      }
      if HasContentLengthPrefix(first) {
        if |first| > MAX_HEADER_LINE_BYTES {
          return Err(FrameTooLarge);
        }
        var length := ParseContentLength(first, text);
        if length.Err? {
          return Err(length.error);
        }
        var headers := ReadHeaderLines(input, |first|);
        if headers.Err? {
          return Err(headers.error);
        }
        var body := input.ReadExact(length.value);
        if body.Err? {
          return Err(body.error);
        }
        return Ok(Some(Frame(ContentLength, body.value)));
      }
      var body := TrimEnding(first);
      if |body| > MAX_FRAME_BYTES {
        return Err(FrameTooLarge);
      }
      return Ok(Some(Frame(Newline, body)));
    }
  }

  // What the first line of the input decides.
  lemma FirstLine(b: Bytes, blanks: nat, text: Text)
    ensures var line := ReadLine(b, MAX_FIRST_LINE_BYTES);
            ReadFrom(b, blanks, text) ==
            match line.value
            case Err(e) => Read(Err(e), [])
            case Ok(None) => Read(Ok(None), [])
            case Ok(Some(first)) =>
              if IsBlankLine(first) then
                if blanks + 1 > MAX_LEADING_BLANK_LINES then Read(Err(FrameTooLarge), [])
                else ReadFrom(line.rest, blanks + 1, text)
              else AfterFirst(first, line.rest, text)
    ensures var line := ReadLine(b, MAX_FIRST_LINE_BYTES);
            line.value.Ok? && line.value.value.Some? ==> |line.rest| < |b| && b == line.value.value.value + line.rest
    ensures var line := ReadLine(b, MAX_FIRST_LINE_BYTES); line.value == Ok(None) ==> b == [] && line.rest == []
  {
    hide AfterFirst, IsBlankLine;
  }

  function PositionOf(b: Bytes): (r: Option<nat>)
    ensures r.Some? ==> r.value < |b| && b[r.value] == LF && LF !in b[..r.value]
    ensures r.None? ==> LF !in b
  {
    if b == [] then None
    else if b[0] == LF then Some(0)
    else
      match PositionOf(b[1..])
      case None => None
      case Some(i) =>
        assert b[..i + 1] == [b[0]] + b[1..][..i];
        Some(i + 1)
  }

  lemma {:induction false} LineSoFar(line: Bytes, rest: Bytes)
    requires LF !in line
    ensures LineLength(line + rest) == |line| + LineLength(rest)
  {
    if line == [] {
      assert line + rest == rest;
    } else {
      assert (line + rest)[1..] == line[1..] + rest;
      LineSoFar(line[1..], rest);
    }
  }

  lemma AtEnd(line: Bytes, maximum: nat)
    requires LF !in line && |line| <= maximum
    ensures ReadLine(line, maximum) == Read(Ok(if line == [] then None else Some(line)), [])
  {
    LineSoFar(line, []);
    assert line + [] == line;
    hide LineLength;
  }

  // The first line of what follows a line end.
  lemma LineEndsAt(a: Bytes, rest: Bytes)
    requires LF !in a
    ensures LineLength(a + [LF] + rest) == |a| + 1
  {
    LineSoFar(a, [LF] + rest);
    Regroup(a, [LF], rest);
  }

  lemma SplitBuffer(line: Bytes, buffer: Bytes, remaining: Bytes, n: nat)
    requires buffer <= remaining && n <= |buffer|
    ensures line + remaining == (line + buffer[..n]) + remaining[n..]
  {
    assert remaining == buffer[..n] + remaining[n..];
    Regroup(line, buffer[..n], remaining[n..]);
  }

  // What a buffer of the remaining bytes tells about the first line.
  lemma LineInBuffer(line: Bytes, buffer: Bytes, remaining: Bytes, newline: Option<nat>, maximum: nat)
    requires buffer <= remaining && buffer != [] && LF !in line && newline == PositionOf(buffer)
    ensures var n := if newline.Some? then newline.value + 1 else |buffer|;
            n <= |buffer| && line + remaining == (line + buffer[..n]) + remaining[n..]
            && (|line| + n > maximum ==> ReadLine(line + remaining, maximum).value == Err(FrameTooLarge))
            && (if newline.Some? then
                  |line| + n <= maximum ==>
                    ReadLine(line + remaining, maximum) == Read(Ok(Some(line + buffer[..n])), remaining[n..])
                else LF !in line + buffer)
  {
    hide *;
    var n := if newline.Some? then newline.value + 1 else |buffer|;
    SplitBuffer(line, buffer, remaining, n);
    if newline.Some? {
      EndInBuffer(line, buffer, remaining, n, maximum);
    } else {
      assert buffer[..n] == buffer;
      if |line| + n > maximum {
        OpenLine(line + buffer, remaining[n..], maximum);
      }
    }
  }

  lemma EndInBuffer(line: Bytes, buffer: Bytes, remaining: Bytes, n: nat, maximum: nat)
    requires buffer <= remaining && 0 < n <= |buffer| && buffer[n - 1] == LF && LF !in line && LF !in buffer[..n - 1]
    ensures ReadLine(line + remaining, maximum)
         == if |line| + n > maximum then Read(Err(FrameTooLarge), [])
            else Read(Ok(Some(line + buffer[..n])), remaining[n..])
  {
    hide *;
    SplitBuffer(line, buffer, remaining, n);
    assert buffer[..n] == buffer[..n - 1] + [LF];
    Regroup(line, buffer[..n - 1], [LF]);
    EndedLine(line + buffer[..n - 1], remaining[n..], maximum);
  }

  lemma EndedLine(start: Bytes, rest: Bytes, maximum: nat)
    requires LF !in start
    ensures ReadLine(start + [LF] + rest, maximum)
         == if |start| + 1 > maximum then Read(Err(FrameTooLarge), []) else Read(Ok(Some(start + [LF])), rest)
  {
    LineEndsAt(start, rest);
    hide LineLength;
  }

  lemma OpenLine(line: Bytes, rest: Bytes, maximum: nat)
    requires LF !in line && |line| > maximum
    ensures ReadLine(line + rest, maximum).value == Err(FrameTooLarge)
  {
    LineSoFar(line, rest);
    hide LineLength;
  }
}
