// A writer of event streams in the form of section 9.2.6 of the WHATWG HTML
// standard, and the round trip through the decoder. A message is some lines, of data or
// of anything else; either line end is allowed, the same throughout one message, and
// a space may follow the name of a field.
module SseWriter {
  import opened Wrappers
  import opened ByteStrings
  import opened Sse

  const SPACE: byte := 32

  datatype Line = Data(space: bool, payload: Bytes) | Other(field: Bytes)

  datatype Message = Message(lines: seq<Line>, windows: bool)

  function Eol(windows: bool): Bytes { if windows then [CR, LF] else [LF] }

  predicate Plain(line: Bytes) { CR !in line && LF !in line }

  function Spaced(space: bool, payload: Bytes): Bytes { (if space then [SPACE] else []) + payload }

  // Another field or a comment is not empty and is not named data.
  predicate PlainLine(line: Line) {
    match line
    case Data(_, payload) => Plain(payload)
    case Other(field) => field != [] && Plain(field) && !(DATA <= field)
  }

  // Lines a writer can send: without line ends and, as the decoder drops leading
  // white space, with data without that.
  predicate Writable(m: Message, utf8: Utf8) {
    m.lines != []
    && forall i :: 0 <= i < |m.lines| ==>
         PlainLine(m.lines[i])
         && (m.lines[i].Data? ==>
               utf8.trimStart(Spaced(m.lines[i].space, m.lines[i].payload)) == m.lines[i].payload)
  }

  function Field(line: Line): Bytes {
    match line
    case Data(space, payload) => DATA + Spaced(space, payload)
    case Other(field) => field
  }

  // The block of a message, without the line end of its last line.
  function Body(lines: seq<Line>, windows: bool): Bytes
    requires lines != []
  {
    if |lines| == 1 then Field(lines[0]) else Field(lines[0]) + Eol(windows) + Body(lines[1..], windows)
  }

  predicate HaveLines(messages: seq<Message>) {
    forall i :: 0 <= i < |messages| ==> messages[i].lines != []
  }

  function Encode(messages: seq<Message>): Bytes
    requires HaveLines(messages)
  {
    if messages == [] then []
    else
      var m := messages[0];
      Body(m.lines, m.windows) + (Eol(m.windows) + Eol(m.windows) + Encode(messages[1..]))
  }

  predicate AllPlain(lines: seq<Line>) {
    lines != [] && forall i :: 0 <= i < |lines| ==> PlainLine(lines[i])
  }

  lemma FieldIsPlain(line: Line)
    requires PlainLine(line)
    ensures Plain(Field(line)) && Field(line) != []
    ensures forall i :: 0 <= i < |Field(line)| ==> Field(line)[i] != CR && Field(line)[i] != LF
  {
    var f := Field(line);
    forall i | 0 <= i < |f|
      ensures f[i] != CR && f[i] != LF
    {
      if line.Data? && i >= |f| - |line.payload| {
        assert f[i] == line.payload[i - (|f| - |line.payload|)];
      } else if line.Other? {
        assert f[i] in line.field;
      }
    }
  }

  // A line end after plain text and before plain text is no delimiter.
  lemma NoDelimiterIn(field: Bytes, windows: bool, next: Bytes, q: nat)
    requires forall i :: 0 <= i < |field| ==> field[i] != CR && field[i] != LF
    requires next != [] && next[0] != CR && next[0] != LF
    requires q < |field| + |Eol(windows)|
    ensures !DelimiterAt(field + Eol(windows) + next, q)
  {
    var s := field + Eol(windows) + next;
    assert q < |field| ==> s[q] == field[q];
    assert s[|field| + |Eol(windows)|] == next[0];
  }

  // The first delimiter of a message is the one after its body.
  lemma {:induction false} NoDelimiterBefore(lines: seq<Line>, windows: bool, tail: Bytes, q: nat)
    requires AllPlain(lines) && q < |Body(lines, windows)|
    ensures !DelimiterAt(Body(lines, windows) + (Eol(windows) + Eol(windows) + tail), q)
  {
    hide *;
    BodyStep(lines, windows);
    var field, ends := Field(lines[0]), Eol(windows) + Eol(windows) + tail;
    FieldIsPlain(lines[0]);
    var s := Body(lines, windows) + ends;
    if |lines| == 1 || q < |field| {
      assert s[q] == field[q];
      PlainIsNoDelimiter(s, q);
    } else {
      var next := Body(lines[1..], windows);
      StartsPlain(lines[1..], windows);
      assert s == field + Eol(windows) + (next + ends);
      if q < |field| + |Eol(windows)| {
        NoDelimiterIn(field, windows, next + ends, q);
      } else {
        var p := q - |field| - |Eol(windows)|;
        NoDelimiterBefore(lines[1..], windows, tail, p);
        DelimiterLater(field + Eol(windows), next + ends, p);
      }
    }
  }

  lemma PlainIsNoDelimiter(s: Bytes, q: nat)
    requires q < |s| && s[q] != CR && s[q] != LF
    ensures !DelimiterAt(s, q)
  {
  }

  lemma DelimiterLater(a: Bytes, b: Bytes, p: nat)
    requires p <= |b|
    ensures DelimiterAt(a + b, |a| + p) == DelimiterAt(b, p)
  {
    assert forall i :: 0 <= i < |b| ==> (a + b)[|a| + i] == b[i];
  }

  lemma StartsPlain(lines: seq<Line>, windows: bool)
    requires AllPlain(lines)
    ensures |Body(lines, windows)| >= 1 && Body(lines, windows)[0] != CR && Body(lines, windows)[0] != LF
  {
    FieldIsPlain(lines[0]);
    hide Field;
  }

  lemma BodyBoundary(lines: seq<Line>, windows: bool, tail: Bytes)
    requires AllPlain(lines)
    ensures var s := Body(lines, windows) + (Eol(windows) + Eol(windows) + tail);
            EventBoundary(s) == Some((|Body(lines, windows)|, if windows then 4 else 2))
            && s[..|Body(lines, windows)|] == Body(lines, windows)
            && s[|Body(lines, windows)| + if windows then 4 else 2..] == tail
  {
    var p, ends := |Body(lines, windows)|, Eol(windows) + Eol(windows) + tail;
    var s := Body(lines, windows) + ends;
    assert windows ==> ends[0] == CR && ends[1] == LF && ends[2] == CR && ends[3] == LF;
    assert !windows ==> ends[0] == LF && ends[1] == LF;
    DelimiterLater(Body(lines, windows), ends, 0);
    hide Body;
    assert UnixAt(s, p) == !windows;
    var q := EventBoundary(s).value.0;
    if q < p {
      NoDelimiterBefore(lines, windows, tail, q);
    }
  }

  lemma {:induction false} LineEndAfterPlain(field: Bytes, rest: Bytes, from: nat)
    requires LF !in field && from <= |field| && (rest == [] || rest[0] == LF)
    ensures LineEnd(field + rest, from) == |field|
    decreases |field| - from
  {
    var s := field + rest;
    if from < |field| {
      assert s[from] == field[from];
      LineEndAfterPlain(field, rest, from + 1);
    }
  }

  lemma FirstLine(line: Bytes, rest: Bytes)
    requires LF !in line
    ensures Lines(line + ([LF] + rest)) == [TrimCr(line)] + Lines(rest)
  {
    var s := line + ([LF] + rest);
    LineEndAfterPlain(line, [LF] + rest, 0);
    assert s[..|line|] == line && s[|line| + 1..] == rest;
    hide TrimCr, LineEnd;
  }

  lemma OnlyLine(line: Bytes)
    requires LF !in line && line != []
    ensures Lines(line) == [TrimCr(line)]
  {
    LineEndAfterPlain(line, [], 0);
    assert line + [] == line && line[..|line|] == line;
    hide TrimCr, LineEnd;
  }

  lemma FieldTrimmed(line: Line, cr: Bytes)
    requires PlainLine(line) && (cr == [] || cr == [CR])
    ensures TrimCr(Field(line) + cr) == Field(line)
    ensures LF !in Field(line) + cr
  {
    FieldIsPlain(line);
    hide Field;
    assert (Field(line) + cr)[..|Field(line)|] == Field(line);
    assert Field(line) + [] == Field(line);
  }

  // The lines of a body are its fields.
  lemma {:induction false} BodyLines(lines: seq<Line>, windows: bool)
    requires AllPlain(lines)
    ensures |Lines(Body(lines, windows))| == |lines|
    ensures forall i :: 0 <= i < |lines| ==> Lines(Body(lines, windows))[i] == Field(lines[i])
  {
    hide *;
    BodyStep(lines, windows);
    var field := Field(lines[0]);
    var cr: Bytes := if windows && |lines| > 1 then [CR] else [];
    FieldIsPlain(lines[0]);
    FieldTrimmed(lines[0], cr);
    if |lines| == 1 {
      assert field + cr == field;
      OnlyLine(field);
    } else {
      var next := Body(lines[1..], windows);
      Regroup(field, cr, [LF]);
      Regroup(field + cr, [LF], next);
      FirstLine(field + cr, next);
      BodyLines(lines[1..], windows);
    }
  }

  lemma BodyStep(lines: seq<Line>, windows: bool)
    requires AllPlain(lines)
    ensures lines != [] && PlainLine(lines[0])
    ensures |lines| == 1 ==> Body(lines, windows) == Field(lines[0])
    ensures |lines| > 1 ==> AllPlain(lines[1..])
                            && Body(lines, windows) == Field(lines[0]) + Eol(windows) + Body(lines[1..], windows)
    ensures Eol(windows) == (if windows then [CR] else []) + [LF]
  {
  }

  // What the lines say: their data, and nothing else.
  function DataIn(lines: seq<Line>): seq<Bytes> {
    if lines == [] then [] else (if lines[0].Data? then [lines[0].payload] else []) + DataIn(lines[1..])
  }

  lemma {:induction false} FieldsAreData(fields: seq<Bytes>, lines: seq<Line>, utf8: Utf8)
    requires |fields| == |lines|
    requires forall i :: 0 <= i < |lines| ==>
               fields[i] == Field(lines[i]) && PlainLine(lines[i])
               && (lines[i].Data? ==>
                     utf8.trimStart(Spaced(lines[i].space, lines[i].payload)) == lines[i].payload)
    ensures DataLines(fields, utf8) == DataIn(lines)
  {
    if lines != [] {
      assert fields[0] == Field(lines[0]) && PlainLine(lines[0]);
      if lines[0].Data? {
        assert fields[0][|DATA|..] == Spaced(lines[0].space, lines[0].payload);
      }
      FieldsAreData(fields[1..], lines[1..], utf8);
    }
  }

  // The data of a message joined by line feeds; a message without any is no event.
  function Payloads(messages: seq<Message>): seq<Bytes> {
    if messages == [] then []
    else
      var data := DataIn(messages[0].lines);
      (if data == [] then [] else [Join(data)]) + Payloads(messages[1..])
  }

  // Between line feeds.
  function Pieces(b: Bytes): seq<Bytes>
    decreases |b|
  {
    var i := LineEnd(b, 0);
    if i == |b| then [b] else [b[..i]] + Pieces(b[i + 1..])
  }

  // Joined data splits back into the data of each line.
  lemma {:induction false} JoinedSplitBack(lines: seq<Bytes>)
    requires lines != [] && forall i :: 0 <= i < |lines| ==> LF !in lines[i]
    ensures Pieces(Join(lines)) == lines
  {
    var line := lines[0];
    if |lines| == 1 {
      LineEndAfterPlain(line, [], 0);
      assert line + [] == line;
    } else {
      var rest, s := Join(lines[1..]), Join(lines);
      LineEndAfterPlain(line, [LF] + rest, 0);
      assert s == line + ([LF] + rest);
      assert s[..|line|] == line && s[|line| + 1..] == rest;
      JoinedSplitBack(lines[1..]);
    }
  }

  lemma BodyIsRead(m: Message, utf8: Utf8)
    requires Writable(m, utf8)
    ensures m.lines != [] && AllPlain(m.lines)
    ensures BlockEvents(Body(m.lines, m.windows), utf8)
         == if DataIn(m.lines) == [] then [] else [Join(DataIn(m.lines))]
  {
    hide Body, Lines, DataLines, DataIn, Join, Field, PlainLine;
    BodyLines(m.lines, m.windows);
    FieldsAreData(Lines(Body(m.lines, m.windows)), m.lines, utf8);
  }

  lemma EncodeStep(m: Message, later: seq<Message>)
    requires m.lines != [] && HaveLines(later)
    ensures HaveLines([m] + later)
    ensures Encode([m] + later) == Body(m.lines, m.windows) + (Eol(m.windows) + Eol(m.windows) + Encode(later))
    ensures Payloads([m] + later)
         == (if DataIn(m.lines) == [] then [] else [Join(DataIn(m.lines))]) + Payloads(later)
  {
    assert ([m] + later)[1..] == later;
    hide Body, Eol, DataIn, Join;
  }

  // What is written is read back: the data of each message, and nothing left over.
  lemma {:induction false} WrittenIsRead(messages: seq<Message>, utf8: Utf8)
    requires HaveLines(messages) && forall i :: 0 <= i < |messages| ==> Writable(messages[i], utf8)
    ensures Events(Blocks(Encode(messages)), utf8) == Payloads(messages)
    ensures Rest(Encode(messages)) == []
  {
    hide Encode, Events, Blocks, Rest, BlockEvents, Body, Payloads, DataIn, Join, Writable, EventBoundary, AllPlain;
    if messages == [] {
      NothingWritten(utf8);
    } else {
      var m, later := messages[0], messages[1..];
      assert messages == [m] + later;
      BodyIsRead(m, utf8);
      EncodeStep(m, later);
      BodyBoundary(m.lines, m.windows, Encode(later));
      NextBlock(Encode(messages), utf8);
      WrittenIsRead(later, utf8);
    }
  }

  lemma NothingWritten(utf8: Utf8)
    ensures Encode([]) == [] && Events(Blocks([]), utf8) == [] == Payloads([]) && Rest([]) == []
  {
    LastBlock([], utf8);
  }
}
