// Writing frames, and reading back what was written.
module FrameWriter {
  import opened Wrappers
  import opened ByteStrings
  import opened McpFrames

  const CRLF: Bytes := [CR, LF]

  function Digits(n: nat): Bytes {
    if n < 10 then [48 + n] else Digits(n / 10) + [48 + n % 10]
  }

  function HeaderLine(length: nat): Bytes { HEADER + [SPACE] + Digits(length) + CRLF }

  function Written(frame: Frame): Bytes {
    match frame.mode
    case ContentLength => HeaderLine(|frame.body|) + CRLF + frame.body
    case Newline => frame.body + [LF]
  }

  class Output {
    var written: Bytes

    constructor ()
      ensures written == []
    {
      written := [];
    }

    method WriteAll(bytes: Bytes)
      modifies this
      ensures written == old(written) + bytes
    {
      written := written + bytes;
    }
  }

  method WriteFrame(output: Output, mode: Mode, body: Bytes)
    modifies output
    ensures output.written == old(output.written) + Written(Frame(mode, body))
  {
    hide HeaderLine;
    match mode {
      case ContentLength =>
        output.WriteAll(HeaderLine(|body|) + CRLF);
        output.WriteAll(body);
      case Newline =>
        output.WriteAll(body);
        output.WriteAll([LF]);
    }
  }

  // A header this writer makes is ASCII, and trimming takes off its spaces.
  ghost predicate Sane(text: Text) {
    forall n: nat :: text.valid(HeaderLine(n)) && text.trim([SPACE] + Digits(n) + CRLF) == Digits(n)
  }

  // Bodies that a reader can tell from headers, blank lines and line ends.
  predicate IsLine(body: Bytes) {
    |body| <= MAX_FRAME_BYTES && LF !in body && !IsBlankLine(body) && !HasContentLengthPrefix(body)
    && !(body != [] && body[|body| - 1] == CR)
  }

  predicate Writable(frame: Frame) {
    match frame.mode
    case ContentLength => |frame.body| <= MAX_FRAME_BYTES
    case Newline => IsLine(frame.body)
  }

  // ---- Numbers ---------------------------------------------------------------------------

  predicate AllDigits(b: Bytes) {
    forall i :: 0 <= i < |b| ==> IsDigit(b[i])
  }

  lemma {:induction false} DigitsRoundTrip(n: nat)
    ensures Digits(n) != [] && AllDigits(Digits(n)) && DecimalValue(Digits(n)) == n
  {
    if n >= 10 {
      DigitsRoundTrip(n / 10);
      assert Digits(n)[..|Digits(n)| - 1] == Digits(n / 10);
    } else {
      assert DecimalValue([]) == 0 && Digits(n)[..0] == [];
    }
  }

  lemma {:induction false} FewDigits(n: nat, k: nat)
    requires 1 <= k && n < Pow10(k)
    ensures |Digits(n)| <= k
  {
    if n >= 10 {
      FewDigits(n / 10, k - 1);
    }
  }

  function Pow10(k: nat): nat { if k == 0 then 1 else 10 * Pow10(k - 1) }

  lemma {:induction false} AfterFirstColon(a: Bytes, rest: Bytes)
    requires COLON !in a
    ensures AfterColon(a + [COLON] + rest) == Some(rest)
  {
    var s := a + [COLON] + rest;
    if a == [] {
      assert s[1..] == rest;
    } else {
      assert s[1..] == a[1..] + [COLON] + rest;
      AfterFirstColon(a[1..], rest);
    }
  }

  lemma HeaderParses(n: nat, text: Text)
    requires Sane(text) && n <= MAX_FRAME_BYTES
    ensures ParseContentLength(HeaderLine(n), text) == Ok(n)
  {
    var value := [SPACE] + Digits(n) + CRLF;
    var name := HEADER[..14];
    assert HEADER == name + [COLON] && COLON !in name;
    assert HeaderLine(n) == name + [COLON] + value;
    DigitsRoundTrip(n);
    assert IsDigit(Digits(n)[0]);
    assert text.valid(HeaderLine(n)) && text.trim(value) == Digits(n);
    hide HeaderLine, Digits, DecimalValue, AfterColon;
    AfterFirstColon(name, value);
  }

  // ---- One frame ---------------------------------------------------------------------------

  // The first line of bytes that start with a whole line.
  lemma WholeLine(line: Bytes, rest: Bytes, maximum: nat)
    requires LF !in line && |line| + 1 <= maximum
    ensures ReadLine(line + [LF] + rest, maximum) == Read(Ok(Some(line + [LF])), rest)
  {
    LineEndsAt(line, rest);
    hide LineLength;
  }

  lemma HeaderShape(n: nat)
    requires n <= MAX_FRAME_BYTES
    ensures HeaderLine(n) == HeaderStart(n) + [LF] && LF !in HeaderStart(n) && |HeaderStart(n)| <= 24
    ensures HasContentLengthPrefix(HeaderLine(n)) && !IsBlankLine(HeaderLine(n))
  {
    var start := HeaderStart(n);
    DigitsRoundTrip(n);
    assert Pow10(4) == 10000 && Pow10(7) == 10000000;
    FewDigits(n, 7);
    hide Digits, Pow10;
    assert HeaderLine(n) == start + [LF];
    forall i | 0 <= i < |start|
      ensures start[i] != LF
    {
      if 16 <= i < 16 + |Digits(n)| {
        assert start[i] == Digits(n)[i - 16];
      }
    }
    assert !IsAsciiSpace(HeaderLine(n)[0]);
  }

  function HeaderStart(n: nat): Bytes { HEADER + [SPACE] + Digits(n) + [CR] }

  lemma LengthFrameParts(body: Bytes, rest: Bytes)
    ensures Written(Frame(ContentLength, body)) + rest
         == HeaderStart(|body|) + [LF] + ([CR] + [LF] + (body + rest))
    ensures (body + rest)[..|body|] == body && (body + rest)[|body|..] == rest
  {
    hide Digits;
  }

  lemma EmptyLineEndsHeaders(b: Bytes, headerBytes: nat)
    requires headerBytes <= 25
    ensures ReadHeaders([CR] + [LF] + b, headerBytes, 1) == Read(Ok(()), b)
  {
    WholeLine([CR], b, MAX_HEADER_LINE_BYTES);
    assert IsBlankLine([CR] + [LF]);
    hide ReadLine, HasContentLengthPrefix;
  }

  lemma LengthFrameReadsBack(body: Bytes, rest: Bytes, text: Text)
    requires Sane(text) && |body| <= MAX_FRAME_BYTES
    ensures ReadFrame(Written(Frame(ContentLength, body)) + rest, text)
         == Read(Ok(Some(Frame(ContentLength, body))), rest)
  {
    var n := |body|;
    var all := Written(Frame(ContentLength, body)) + rest;
    var after := [CR] + [LF] + (body + rest);
    HeaderShape(n);
    assert HeaderLine(n) == HeaderStart(n) + [LF];
    hide HeaderLine, HeaderStart, Written, Sane, ReadLine, ReadFrom, ReadHeaders, HasContentLengthPrefix,
         ParseContentLength, IsBlankLine, TrimLineEnding;
    HeaderParses(n, text);
    LengthFrameParts(body, rest);
    WholeLine(HeaderStart(n), after, MAX_FIRST_LINE_BYTES);
    FirstLine(all, 0, text);
    EmptyLineEndsHeaders(body + rest, |HeaderLine(n)|);
  }

  // A newline frame that was read is a line of the input, after blank lines.
  lemma {:induction false} NewlineIsALine(b: Bytes, blanks: nat, text: Text) returns (before: Bytes, first: Bytes)
    requires var r := ReadFrom(b, blanks, text);
             r.value.Ok? && r.value.value.Some? && r.value.value.value.mode == Newline
    ensures var r := ReadFrom(b, blanks, text);
            b == before + first + r.rest && r.value.value.value.body == TrimLineEnding(first)
    ensures first != [] && LF !in first[..|first| - 1] && !IsBlankLine(first) && !HasContentLengthPrefix(first)
    ensures |TrimLineEnding(first)| <= MAX_FRAME_BYTES
    decreases |b|
  {
    hide IsBlankLine, HasContentLengthPrefix, TrimLineEnding, ReadFrom, ReadLine, ReadHeaders, ParseContentLength;
    FirstLine(b, blanks, text);
    var line := ReadLine(b, MAX_FIRST_LINE_BYTES);
    TakenLine(b, MAX_FIRST_LINE_BYTES);
    first := line.value.value.value;
    if IsBlankLine(first) {
      var blank := first;
      before, first := NewlineIsALine(line.rest, blanks + 1, text);
      Regroup(blank, before + first, ReadFrom(b, blanks, text).rest);
      Regroup(blank, before, first);
      before := blank + before;
    } else {
      before := [];
      assert [] + first == first;
    }
  }

  lemma TakenLine(b: Bytes, maximum: nat)
    ensures var line := ReadLine(b, maximum);
            line.value.Ok? && line.value.value.Some? ==>
              var first := line.value.value.value;
              first != [] && LF !in first[..|first| - 1] && b == first + line.rest
  {
  }

  // A line frame is read back exactly when its body is a line.
  lemma LineFrameReadsBackIff(body: Bytes, rest: Bytes, text: Text)
    ensures ReadFrame(Written(Frame(Newline, body)) + rest, text) == Read(Ok(Some(Frame(Newline, body))), rest)
       <==> IsLine(body)
  {
    hide ReadFrom, IsLine, TrimLineEnding, IsBlankLine, HasContentLengthPrefix;
    if IsLine(body) {
      LineFrameReadsBack(body, rest, text);
    }
    if ReadFrame(Written(Frame(Newline, body)) + rest, text) == Read(Ok(Some(Frame(Newline, body))), rest) {
      var before, first := NewlineIsALine(body + [LF] + rest, 0, text);
      SameWithoutRest(before + first, body + [LF], rest);
      OnlyLine(before, first, body);
    }
  }

  lemma SameWithoutRest(a: Bytes, b: Bytes, rest: Bytes)
    requires a + rest == b + rest
    ensures a == b
  {
    assert a == (a + rest)[..|a|] && b == (b + rest)[..|b|];
  }

  lemma LineEndChangesNothing(body: Bytes)
    ensures IsBlankLine(body + [LF]) <==> IsBlankLine(body)
    ensures HasContentLengthPrefix(body + [LF]) <==> HasContentLengthPrefix(body)
  {
    var first := body + [LF];
    assert first[|body|] == LF && forall i :: 0 <= i < |body| ==> first[i] == body[i];
    assert forall i :: 0 <= i < |PREFIX| ==> PREFIX[i] != Lower(LF);
  }

  lemma OnlyLine(before: Bytes, first: Bytes, body: Bytes)
    requires before + first == body + [LF] && body == TrimLineEnding(first) && |body| <= MAX_FRAME_BYTES
    requires first != [] && LF !in first[..|first| - 1] && !IsBlankLine(first) && !HasContentLengthPrefix(first)
    ensures IsLine(body)
  {
    hide IsBlankLine, HasContentLengthPrefix;
    assert (before + first)[|before| + |first| - 1] == LF;
    assert first[|first| - 1] == LF;
    assert before == [] && first == body + [LF];
    assert first[..|first| - 1] == body;
    LineEndChangesNothing(body);
  }

  lemma LineFrameReadsBack(body: Bytes, rest: Bytes, text: Text)
    requires IsLine(body)
    ensures ReadFrame(Written(Frame(Newline, body)) + rest, text) == Read(Ok(Some(Frame(Newline, body))), rest)
  {
    var first := body + [LF];
    assert first[..|body|] == body;
    LineEndChangesNothing(body);
    assert TrimLineEnding(first) == body;
    hide HasContentLengthPrefix, IsBlankLine, ReadLine, ReadFrom, TrimLineEnding;
    WholeLine(body, rest, MAX_FIRST_LINE_BYTES);
    FirstLine(first + rest, 0, text);
  }

  // ---- Lists of frames -----------------------------------------------------------------------

  function WrittenAll(frames: seq<Frame>): Bytes {
    if frames == [] then [] else Written(frames[0]) + WrittenAll(frames[1..])
  }

  // Up to `n` frames, fewer when the input ends or fails before.
  function ReadAll(b: Bytes, n: nat, text: Text): (seq<Frame>, Bytes)
    decreases n
  {
    if n == 0 then ([], b)
    else
      var r := ReadFrame(b, text);
      if r.value.Err? || r.value.value.None? then ([], r.rest)
      else
        var (frames, rest) := ReadAll(r.rest, n - 1, text);
        ([r.value.value.value] + frames, rest)
  }

  lemma FrameReadsBack(frame: Frame, rest: Bytes, text: Text)
    requires Sane(text) && Writable(frame)
    ensures ReadFrame(Written(frame) + rest, text) == Read(Ok(Some(frame)), rest)
  {
    hide Sane, IsLine, ReadFrame, Written;
    match frame.mode {
      case ContentLength => LengthFrameReadsBack(frame.body, rest, text);
      case Newline => LineFrameReadsBack(frame.body, rest, text);
    }
  }

  // Frames in either mode, in any order, read back as the same list, whatever follows.
  lemma {:induction false} FramesReadBack(frames: seq<Frame>, rest: Bytes, text: Text)
    requires Sane(text) && forall i :: 0 <= i < |frames| ==> Writable(frames[i])
    ensures ReadAll(WrittenAll(frames) + rest, |frames|, text) == (frames, rest)
  {
    hide Sane, ReadFrame, Written, Writable;
    if frames == [] {
      assert WrittenAll(frames) + rest == rest;
    } else {
      var later := WrittenAll(frames[1..]) + rest;
      FrameReadsBack(frames[0], later, text);
      Regroup(Written(frames[0]), WrittenAll(frames[1..]), rest);
      FramesReadBack(frames[1..], rest, text);
      assert frames == [frames[0]] + frames[1..];
    }
  }

  // The whole way: frames written to an output and read from any chunks of its bytes.
  method RoundTrip(frames: seq<Frame>, text: Text, input: Input) returns (r: seq<Frame>)
    requires Sane(text) && forall i :: 0 <= i < |frames| ==> Writable(frames[i])
    requires input.Valid() && input.Remaining() == WrittenAll(frames)
    modifies input
    ensures r == frames && input.Remaining() == []
  {
    hide Sane, ReadFrame, Writable, Written, Concat, Input.Valid;
    r := [];
    for i := 0 to |frames|
      invariant input.Valid() && input.Remaining() == WrittenAll(frames[i..]) && r == frames[..i]
    {
      assert frames[i..][0] == frames[i] && frames[i..][1..] == frames[i + 1..];
      FrameReadsBack(frames[i], WrittenAll(frames[i + 1..]), text);
      var read := ReadFrameFrom(input, text);
      r := r + [read.value.value];
    }
    assert frames[..|frames|] == frames;
  }
}
