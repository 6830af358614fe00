// Text fields of accessibility elements: normalization to single spaces, and
// lines that split back into the fields they were joined from.
module Fields {
  import opened Wrappers
  import opened Utf8Length

  // The White_Space property of the Unicode Character Database.
  predicate IsSpace(c: char) {
    var n := c as int;
    0x09 <= n <= 0x0D || n == 0x20 || n == 0x85 || n == 0xA0 || n == 0x1680
    || 0x2000 <= n <= 0x200A || n == 0x2028 || n == 0x2029 || n == 0x202F || n == 0x205F || n == 0x3000
  }

  function WordEnd(s: string, from: nat): (i: nat)
    requires from <= |s|
    ensures from <= i <= |s|
    ensures forall k :: from <= k < i ==> !IsSpace(s[k])
    ensures i < |s| ==> IsSpace(s[i])
    decreases |s| - from
  {
    if from == |s| || IsSpace(s[from]) then from else WordEnd(s, from + 1)
  }

  function Words(s: string): (r: seq<string>)
    ensures forall i :: 0 <= i < |r| ==> IsWord(r[i])
  {
    if s == "" then []
    else if IsSpace(s[0]) then Words(s[1..])
    else
      var i := WordEnd(s, 0);
      [s[..i]] + Words(s[i..])
  }

  predicate IsWord(s: string) {
    s != "" && forall i :: 0 <= i < |s| ==> !IsSpace(s[i])
  }

  function JoinWords(words: seq<string>): string {
    if words == [] then ""
    else if |words| == 1 then words[0]
    else JoinWords(words[..|words| - 1]) + " " + words[|words| - 1]
  }

  function Normalize(s: string): string { JoinWords(Words(s)) }

  // The normalized text, unless it is too long.
  function NormalizeBounded(s: string, maximum: nat): Option<string> {
    if ByteLen(Normalize(s)) <= maximum then Some(Normalize(s)) else None
  }

  lemma {:induction false} JoinedLength(words: seq<string>, n: nat)
    requires n <= |words|
    ensures ByteLen(JoinWords(words[..n])) <= ByteLen(JoinWords(words))
    decreases |words|
  {
    if n == |words| {
      assert words[..n] == words;
    } else if |words| > 1 {
      var front := words[..|words| - 1];
      JoinedLength(front, n);
      assert front[..n] == words[..n];
      ByteLenConcat(JoinWords(front) + " ", words[|words| - 1]);
      ByteLenConcat(JoinWords(front), " ");
    }
  }

  // A growing buffer, given up at the first word that does not fit.
  method NormalizeInto(s: string, maximum: nat) returns (r: Option<string>)
    ensures r == NormalizeBounded(s, maximum)
  {
    var words := Words(s);
    var normalized := "";
    for i := 0 to |words|
      invariant normalized == JoinWords(words[..i])
      invariant normalized == "" <==> i == 0
      invariant ByteLen(normalized) <= maximum
    {
      assert words[..i + 1][..i] == words[..i];
      assert IsWord(words[i]);
      var separator := if normalized == "" then 0 else 1;
      ByteLenConcat(normalized, " ");
      ByteLenConcat(normalized + " ", words[i]);
      assert ByteLen(" ") == 1 by {
        assert " "[1..] == "";
      }
      assert ByteLen(JoinWords(words[..i + 1])) == ByteLen(words[i]) + separator + ByteLen(normalized);
      if ByteLen(words[i]) + separator + ByteLen(normalized) > maximum {
        JoinedLength(words, i + 1);
        return None;
      }
      if separator != 0 {
        normalized := normalized + " ";
      }
      normalized := normalized + words[i];
    }
    assert words[..|words|] == words;
    r := Some(normalized);
  }

  lemma {:induction false} JoinedIsOneLine(words: seq<string>)
    requires forall i :: 0 <= i < |words| ==> IsWord(words[i])
    ensures forall i :: 0 <= i < |JoinWords(words)| && IsSpace(JoinWords(words)[i]) ==> JoinWords(words)[i] == ' '
    ensures words != [] ==>
              (var j := JoinWords(words); j != "" && !IsSpace(j[0]) && !IsSpace(j[|j| - 1]))
    decreases |words|
  {
    if |words| == 1 {
      assert IsWord(words[0]);
    } else if words != [] {
      var front, last := words[..|words| - 1], words[|words| - 1];
      JoinedIsOneLine(front);
      assert IsWord(last);
    }
  }

  // A normalized field is one line, without white space at its ends and with only
  // plain spaces inside.
  lemma NormalizedIsOneLine(s: string)
    ensures '\n' !in Normalize(s)
    ensures forall i :: 0 <= i < |Normalize(s)| && IsSpace(Normalize(s)[i]) ==> Normalize(s)[i] == ' '
    ensures Normalize(s) != "" ==> !IsSpace(Normalize(s)[0]) && !IsSpace(Normalize(s)[|Normalize(s)| - 1])
  {
    JoinedIsOneLine(Words(s));
  }

  lemma {:induction false} WordEndAt(word: string, tail: string, from: nat)
    requires IsWord(word) && (tail == "" || IsSpace(tail[0])) && from <= |word|
    ensures WordEnd(word + tail, from) == |word|
    decreases |word| - from
  {
    if from < |word| {
      assert (word + tail)[from] == word[from];
      WordEndAt(word, tail, from + 1);
    }
  }

  lemma FirstWord(word: string, tail: string)
    requires IsWord(word) && (tail == "" || IsSpace(tail[0]))
    ensures Words(word + tail) == [word] + Words(tail)
  {
    WordEndAt(word, tail, 0);
    assert (word + tail)[0] == word[0];
    assert (word + tail)[..|word|] == word && (word + tail)[|word|..] == tail;
  }

  lemma {:induction false} WordsOfJoined(words: seq<string>, tail: string)
    requires forall i :: 0 <= i < |words| ==> IsWord(words[i])
    requires words != [] && (tail == "" || IsSpace(tail[0]))
    ensures Words(JoinWords(words) + tail) == words + Words(tail)
    decreases |words|
  {
    var front, last := words[..|words| - 1], words[|words| - 1];
    assert words == front + [last] && IsWord(last);
    FirstWord(last, tail);
    if |words| > 1 {
      assert JoinWords(words) + tail == JoinWords(front) + (" " + (last + tail));
      WordsOfJoined(front, " " + (last + tail));
      assert (" " + (last + tail))[1..] == last + tail;
    }
  }

  // White space between two other characters becomes one space, and none is left at the
  // ends: `gap` says that there was some since the last character, `some` that there was
  // a character.
  function Collapsed(s: string, gap: bool, some: bool): string {
    if s == "" then ""
    else if IsSpace(s[0]) then Collapsed(s[1..], true, some)
    else (if gap && some then " " else "") + [s[0]] + Collapsed(s[1..], false, true)
  }

  lemma {:induction false} CollapsedWord(s: string, i: nat)
    requires i <= |s| && forall k :: 0 <= k < i ==> !IsSpace(s[k])
    ensures Collapsed(s, false, true) == s[..i] + Collapsed(s[i..], false, true)
  {
    hide IsSpace;
    if i == 0 {
      assert s[0..] == s && s[..0] == "";
    } else {
      CollapsedWord(s[1..], i - 1);
      assert s[1..][i - 1..] == s[i..];
      assert [s[0]] + s[1..][..i - 1] == s[..i];
      Regroup([s[0]], s[1..][..i - 1], Collapsed(s[i..], false, true));
      assert "" + [s[0]] == [s[0]];
    }
  }

  lemma {:induction false} JoinFirst(word: string, words: seq<string>)
    ensures JoinWords([word] + words) == word + if words == [] then "" else " " + JoinWords(words)
    decreases |words|
  {
    hide *;
    if words == [] {
      JoinLast([], word);
      assert [] + [word] == [word] + words && word + "" == word;
    } else {
      var front, last := words[..|words| - 1], words[|words| - 1];
      var joined := JoinWords(front);
      JoinFirst(word, front);
      JoinLast([word] + front, last);
      JoinLast(front, last);
      assert front + [last] == words && ([word] + front) + [last] == [word] + words;
      Regroup(word, " " + joined, " ");
      Regroup(" ", joined, " ");
      Regroup(word, " " + (joined + " "), last);
      Regroup(" ", joined + " ", last);
      assert word + "" == word && (word + " ") + last == word + (" " + last);
    }
  }

  lemma JoinLast(words: seq<string>, last: string)
    ensures JoinWords(words + [last]) == if words == [] then last else JoinWords(words) + " " + last
  {
    assert (words + [last])[..|words|] == words;
  }

  lemma {:induction false} WordsCollapse(s: string, gap: bool, some: bool)
    requires !gap && some ==> s == "" || IsSpace(s[0])
    ensures Collapsed(s, gap, some) == if Words(s) == [] then "" else (if some then " " else "") + JoinWords(Words(s))
    decreases |s|
  {
    hide IsSpace;
    if s != "" && IsSpace(s[0]) {
      WordsCollapse(s[1..], true, some);
    } else if s != "" {
      var i := WordEnd(s, 0);
      assert i > 0;
      WordsCollapse(s[i..], false, true);
      JoinFirst(s[..i], Words(s[i..]));
      CollapsedWord(s[1..], i - 1);
      assert s[1..][i - 1..] == s[i..] && [s[0]] + s[1..][..i - 1] == s[..i];
      var tail, start := Collapsed(s[i..], false, true), if gap && some then " " else "";
      Regroup(start, [s[0]], s[1..][..i - 1]);
      Regroup(start + [s[0]], s[1..][..i - 1], tail);
      Regroup(start, s[..i], tail);
    }
  }

  // Normalizing keeps every other character and collapses white space.
  lemma NormalizeCollapses(s: string)
    ensures Normalize(s) == Collapsed(s, false, false)
  {
    WordsCollapse(s, false, false);
    assert "" + JoinWords(Words(s)) == JoinWords(Words(s));
  }

  // Normalizing again changes nothing.
  lemma NormalizeIsIdempotent(s: string)
    ensures Normalize(Normalize(s)) == Normalize(s)
  {
    var words := Words(s);
    if words != [] {
      WordsOfJoined(words, "");
      assert JoinWords(words) + "" == JoinWords(words);
      assert words + Words("") == words;
    }
  }

  // ---- Lines ---------------------------------------------------------------------------

  function JoinLines(lines: seq<string>): string {
    if lines == [] then ""
    else if |lines| == 1 then lines[0]
    else lines[0] + "\n" + JoinLines(lines[1..])
  }

  function LineEnd(s: string, from: nat): (i: nat)
    requires from <= |s|
    ensures from <= i <= |s|
    ensures i < |s| ==> s[i] == '\n'
    decreases |s| - from
  {
    if from == |s| || s[from] == '\n' then from else LineEnd(s, from + 1)
  }

  function SplitLines(s: string): seq<string> {
    var i := LineEnd(s, 0);
    if i == |s| then [s] else [s[..i]] + SplitLines(s[i + 1..])
  }

  lemma {:induction false} LineEndAt(line: string, tail: string, from: nat)
    requires '\n' !in line && (tail == "" || tail[0] == '\n') && from <= |line|
    ensures LineEnd(line + tail, from) == |line|
    decreases |line| - from
  {
    if from < |line| {
      assert (line + tail)[from] == line[from];
      LineEndAt(line, tail, from + 1);
    }
  }

  // Joined lines split back into the same lines.
  lemma {:induction false} LinesSplitBack(lines: seq<string>)
    requires lines != [] && forall i :: 0 <= i < |lines| ==> '\n' !in lines[i]
    ensures SplitLines(JoinLines(lines)) == lines
  {
    var line := lines[0];
    if |lines| == 1 {
      LineEndAt(line, "", 0);
      assert line + "" == line;
    } else {
      var rest := JoinLines(lines[1..]);
      LineEndAt(line, "\n" + rest, 0);
      var s := JoinLines(lines);
      assert s == line + ("\n" + rest);
      assert s[..|line|] == line && s[|line| + 1..] == rest;
      LinesSplitBack(lines[1..]);
    }
  }

  // The length of joined lines, separators included.
  function LinesLength(lines: seq<string>): nat {
    if lines == [] then 0
    else ByteLen(lines[0]) + (if |lines| == 1 then 0 else 1) + LinesLength(lines[1..])
  }

  lemma {:induction false} JoinedLinesLength(lines: seq<string>)
    ensures ByteLen(JoinLines(lines)) == LinesLength(lines)
  {
    if |lines| > 1 {
      JoinedLinesLength(lines[1..]);
      ByteLenConcat(lines[0], "\n");
      ByteLenConcat(lines[0] + "\n", JoinLines(lines[1..]));
      assert ByteLen("\n") == 1 by {
        assert "\n"[1..] == "";
      }
    }
  }
}
