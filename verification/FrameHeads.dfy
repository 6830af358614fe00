// Heads that other writers may send: blank lines before a frame, more header lines,
// other lengths. Which of them are read, and what the others are called.
module FrameHeads {
  import opened Wrappers
  import opened ByteStrings
  import opened McpFrames
  import opened FrameWriter

  // Lines, each with its line feed.
  function JoinLines(lines: seq<Bytes>): Bytes {
    if lines == [] then [] else lines[0] + [LF] + JoinLines(lines[1..])
  }

  function Size(lines: seq<Bytes>): nat { if lines == [] then 0 else |lines[0]| + 1 + Size(lines[1..]) }

  lemma WholeOrLong(line: Bytes, rest: Bytes, maximum: nat)
    requires LF !in line
    ensures ReadLine(line + [LF] + rest, maximum)
         == if |line| + 1 <= maximum then Read(Ok(Some(line + [LF])), rest) else Read(Err(FrameTooLarge), [])
  {
    LineEndsAt(line, rest);
    hide LineLength;
  }

  // ---- Blank lines before a frame -------------------------------------------------------

  predicate BlankLines(lines: seq<Bytes>) {
    forall i :: 0 <= i < |lines| ==> LF !in lines[i] && IsBlankLine(lines[i])
  }

  predicate FirstLinesFit(lines: seq<Bytes>) {
    forall i :: 0 <= i < |lines| ==> |lines[i]| + 1 <= 1024 * 1024 + 2
  }

  // Up to eight blank lines are passed over, each no longer than a first line may be.
  lemma {:induction false} BlankLinesAreSkipped(blanks: seq<Bytes>, b: Bytes, n: nat, text: Text)
    requires BlankLines(blanks) && n <= 8
    ensures ReadFrom(JoinLines(blanks) + b, n, text)
         == if n + |blanks| <= 8 && FirstLinesFit(blanks) then ReadFrom(b, n + |blanks|, text)
            else Read(Err(FrameTooLarge), [])
  {
    hide *;
    if blanks == [] {
      NoBlanks();
      assert [] + b == b;
    } else {
      var first, later := blanks[0], blanks[1..];
      assert blanks == [first] + later;
      BlanksStep(first, later);
      Regroup(first + [LF], JoinLines(later), b);
      SkipOne(first, JoinLines(later) + b, n, text);
      if n < 8 {
        BlankLinesAreSkipped(later, b, n + 1, text);
      }
    }
  }

  lemma NoBlanks()
    ensures JoinLines([]) == [] && FirstLinesFit([])
  {
  }

  lemma BlanksStep(first: Bytes, later: seq<Bytes>)
    ensures JoinLines([first] + later) == first + [LF] + JoinLines(later)
    ensures BlankLines([first] + later) ==> LF !in first && IsBlankLine(first) && BlankLines(later)
    ensures FirstLinesFit([first] + later) <==> |first| + 1 <= 1024 * 1024 + 2 && FirstLinesFit(later)
  {
    hide IsBlankLine;
    var all := [first] + later;
    assert all[1..] == later && all[0] == first;
    assert forall i :: 0 <= i < |later| ==> later[i] == all[i + 1];
  }

  lemma SkipOne(blank: Bytes, rest: Bytes, n: nat, text: Text)
    requires LF !in blank && IsBlankLine(blank)
    ensures ReadFrom(blank + [LF] + rest, n, text)
         == if |blank| + 1 <= 1024 * 1024 + 2 && n < 8 then ReadFrom(rest, n + 1, text)
            else Read(Err(FrameTooLarge), [])
  {
    LineEndChangesNothing(blank);
    hide ReadFrom, ReadLine, IsBlankLine, AfterFirst;
    WholeOrLong(blank, rest, MAX_FIRST_LINE_BYTES);
    FirstLine(blank + [LF] + rest, n, text);
  }

  // ---- More header lines -----------------------------------------------------------------

  predicate OtherHeader(line: Bytes) {
    LF !in line && !IsBlankLine(line) && !HasContentLengthPrefix(line)
  }

  // The header lines with their end fit: each line, their number and their size.
  predicate HeadFits(lines: seq<Bytes>, bytes: nat, count: nat) {
    (forall i :: 0 <= i < |lines| ==> |lines[i]| + 1 <= 8 * 1024)
    && bytes + Size(lines) <= 32 * 1024 && count + |lines| <= 64
  }

  lemma HeadersStep(line: Bytes, rest: Bytes, bytes: nat, count: nat)
    requires LF !in line
    ensures ReadHeaders(line + [LF] + rest, bytes, count) ==
            if |line| + 1 > 8 * 1024 || bytes + |line| + 1 > 32 * 1024 || count + 1 > 64 then
              Read(Err(FrameTooLarge), [])
            else if IsBlankLine(line) then Read(Ok(()), rest)
            else if HasContentLengthPrefix(line) then Read(Err(BadContentLength), [])
            else ReadHeaders(rest, bytes + |line| + 1, count + 1)
  {
    WholeOrLong(line, rest, MAX_HEADER_LINE_BYTES);
    LineEndChangesNothing(line);
    hide ReadLine, IsBlankLine, HasContentLengthPrefix;
  }

  // Other headers up to a blank line are passed over exactly when they fit.
  lemma {:induction false} HeadersEndAtBlank(lines: seq<Bytes>, end: Bytes, rest: Bytes, bytes: nat, count: nat)
    requires (forall i :: 0 <= i < |lines| ==> OtherHeader(lines[i])) && LF !in end && IsBlankLine(end)
    ensures ReadHeaders(JoinLines(lines) + (end + [LF] + rest), bytes, count)
         == if HeadFits(lines + [end], bytes, count) then Read(Ok(()), rest) else Read(Err(FrameTooLarge), [])
    decreases |lines|
  {
    hide ReadHeaders, IsBlankLine, HasContentLengthPrefix;
    if lines == [] {
      assert JoinLines(lines) + (end + [LF] + rest) == end + [LF] + rest;
      HeadersStep(end, rest, bytes, count);
      assert [end][1..] == [] && Size([end]) == |end| + 1 + Size([]) && Size([]) == 0;
      assert lines + [end] == [end];
    } else {
      var tail := JoinLines(lines[1..]) + (end + [LF] + rest);
      assert OtherHeader(lines[0]);
      Regroup(lines[0] + [LF], JoinLines(lines[1..]), end + [LF] + rest);
      HeadersStep(lines[0], tail, bytes, count);
      HeadersEndAtBlank(lines[1..], end, rest, bytes + |lines[0]| + 1, count + 1);
      FitsStep(lines, end, bytes, count);
    }
  }

  lemma FitsStep(lines: seq<Bytes>, end: Bytes, bytes: nat, count: nat)
    requires lines != []
    ensures HeadFits(lines + [end], bytes, count) <==>
            |lines[0]| + 1 <= 8 * 1024 && bytes + |lines[0]| + 1 <= 32 * 1024 && count + 1 <= 64
            && HeadFits(lines[1..] + [end], bytes + |lines[0]| + 1, count + 1)
  {
    var all, later := lines + [end], lines[1..] + [end];
    assert all[1..] == later && all[0] == lines[0];
    assert Size(all) == |lines[0]| + 1 + Size(later);
    hide Size;
    assert forall i :: 0 <= i < |later| ==> later[i] == all[i + 1];
    if HeadFits(later, bytes + |lines[0]| + 1, count + 1) && |lines[0]| + 1 <= 8 * 1024 {
      forall i | 0 <= i < |all| ensures |all[i]| + 1 <= 8 * 1024 {
        assert i > 0 ==> all[i] == later[i - 1];
      }
    }
  }

  // A second length among the headers is refused, and so is a head that never ends.
  lemma {:induction false} SecondLengthIsRefused(lines: seq<Bytes>, second: Bytes, rest: Bytes, bytes: nat, count: nat)
    requires (forall i :: 0 <= i < |lines| ==> OtherHeader(lines[i]))
    requires LF !in second && HasContentLengthPrefix(second) && !IsBlankLine(second)
    ensures ReadHeaders(JoinLines(lines) + (second + [LF] + rest), bytes, count)
         == Read(Err(if HeadFits(lines + [second], bytes, count) then BadContentLength else FrameTooLarge), [])
    decreases |lines|
  {
    hide ReadHeaders, IsBlankLine, HasContentLengthPrefix;
    if lines == [] {
      assert JoinLines(lines) + (second + [LF] + rest) == second + [LF] + rest;
      HeadersStep(second, rest, bytes, count);
      assert [second][1..] == [] && Size([second]) == |second| + 1 + Size([]) && Size([]) == 0;
      assert lines + [second] == [second];
    } else {
      var tail := JoinLines(lines[1..]) + (second + [LF] + rest);
      assert OtherHeader(lines[0]);
      Regroup(lines[0] + [LF], JoinLines(lines[1..]), second + [LF] + rest);
      HeadersStep(lines[0], tail, bytes, count);
      SecondLengthIsRefused(lines[1..], second, rest, bytes + |lines[0]| + 1, count + 1);
      FitsStep(lines, second, bytes, count);
    }
  }

  lemma UnendedHeadIsRefused(bytes: nat, count: nat)
    ensures ReadHeaders([], bytes, count) == Read(Err(BadContentLength), [])
  {
  }

  // A length header is known by its name and colon, in any case.
  lemma LengthHeaderIff(line: Bytes)
    ensures HasContentLengthPrefix(line) <==>
            |line| >= 15 && forall i :: 0 <= i < 15 ==> SameLetter(line[i], "content-length:"[i])
  {
    assert forall i :: 0 <= i < 15 ==> PREFIX[i] == "content-length:"[i] as int;
  }

  predicate SameLetter(c: byte, letter: char) {
    c == letter as int || ('a' <= letter <= 'z' && c == letter as int - 'a' as int + 'A' as int)
  }

  // ---- Lengths -----------------------------------------------------------------------------

  // A number is one or more decimal digits, after a plus sign or none, below 2^64.
  lemma ParsesIff(b: Bytes, n: nat)
    ensures ParseUsize(b) == Some(n) <==>
            exists digits: Bytes ::
              (b == digits || b == [43] + digits) && digits != [] && AllDigits(digits)
              && DecimalValue(digits) == n && n < 0x1_0000_0000_0000_0000
  {
    hide DecimalValue;
    var digits := Unsigned(b);
    assert b == digits || b == [43] + digits;
    if other: Bytes :| (b == other || b == [43] + other) && other != [] && AllDigits(other)
                       && DecimalValue(other) == n && n < 0x1_0000_0000_0000_0000 {
      assert IsDigit(other[0]);
      if b == [43] + other {
        assert b[1..] == other;
      }
      assert other == digits;
    }
    if ParseUsize(b) == Some(n) {
      assert AllDigits(digits);
    }
  }

  // The length of a header is what follows its first colon, trimmed. A header that is not
  // text, has no colon or no number is bad; a number beyond one mebibyte is too large.
  lemma LengthMeans(name: Bytes, value: Bytes, text: Text)
    requires COLON !in name
    ensures var parsed := ParseContentLength(name + [COLON] + value, text);
            var number := ParseUsize(text.trim(value));
            if !text.valid(name + [COLON] + value) || number.None? then parsed == Err(BadContentLength)
            else parsed == if number.value <= 1024 * 1024 then Ok(number.value) else Err(FrameTooLarge)
    ensures ParseContentLength(name, text) == Err(BadContentLength)
  {
    hide ParseUsize;
    AfterFirstColon(name, value);
    NoColon(name);
  }

  lemma {:induction false} NoColon(b: Bytes)
    requires COLON !in b
    ensures AfterColon(b).None?
  {
    if b != [] {
      NoColon(b[1..]);
    }
  }

  // ---- A whole head ------------------------------------------------------------------------

  // A length header, other headers and a blank line announce a body: it is read when it is
  // all there, and otherwise the input has ended too early.
  lemma HeadThenBody(first: Bytes, lines: seq<Bytes>, end: Bytes, after: Bytes, text: Text)
    requires LF !in first && HasContentLengthPrefix(first) && !IsBlankLine(first)
    requires ParseContentLength(first + [LF], text).Ok? && |first| + 1 <= 8 * 1024
    requires (forall i :: 0 <= i < |lines| ==> OtherHeader(lines[i])) && LF !in end && IsBlankLine(end)
    ensures var length := ParseContentLength(first + [LF], text).value;
            ReadFrame(first + [LF] + (JoinLines(lines) + (end + [LF] + after)), text) ==
            if !HeadFits(lines + [end], |first| + 1, 1) then Read(Err(FrameTooLarge), [])
            else if |after| < length then Read(Err(UnexpectedEof), [])
            else Read(Ok(Some(Frame(ContentLength, after[..length]))), after[length..])
  {
    var rest := JoinLines(lines) + (end + [LF] + after);
    LineEndChangesNothing(first);
    hide ReadLine, ReadFrom, ReadHeaders, IsBlankLine, HasContentLengthPrefix, ParseContentLength, HeadFits, JoinLines,
         TrimLineEnding;
    WholeOrLong(first, rest, MAX_FIRST_LINE_BYTES);
    FirstLine(first + [LF] + rest, 0, text);
    HeadersEndAtBlank(lines, end, after, |first| + 1, 1);
  }
}
