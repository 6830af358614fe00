// Visible text of a tree in a buffer of bounded size: whole fields in the order of
// traversal, without adjacent duplicates and without guarded elements. What is left
// out when there is no more room is a function of the tree and the bound.
module VisibleText {
  import opened Utf8Length
  import opened Fields
  import opened Accessibility
  import opened RecentContext

  predicate NoAdjacentDuplicates(lines: seq<string>) {
    forall i :: 0 <= i < |lines| - 1 ==> lines[i] != lines[i + 1]
  }

  predicate IsField(line: string, node: Node) {
    line != "" && exists i :: 0 <= i < |node.FieldTexts()| && line == Normalize(node.FieldTexts()[i])
  }

  // The line is a whole field of an element below `node`, with no guarded one between.
  ghost predicate ComesFrom(line: string, node: Node) {
    exists path: seq<Node> :: OpenPath(path) && path[0] == node && IsField(line, path[|path| - 1])
  }

  ghost predicate AllComeFrom(lines: seq<string>, from: nat, node: Node) {
    forall i :: from <= i < |lines| ==> ComesFrom(lines[i], node)
  }

  // With room for everything: each field unless it repeats the line before it.
  function AddField(lines: seq<string>, text: string): seq<string> {
    if text == "" || (lines != [] && lines[|lines| - 1] == text) then lines else lines + [text]
  }

  function AddFields(lines: seq<string>, texts: seq<string>): seq<string>
    decreases |texts|
  {
    if texts == [] then lines else AddFields(AddField(lines, Normalize(texts[0])), texts[1..])
  }

  function AddAll(node: Node, lines: seq<string>): seq<string>
    decreases node, |node.children| + 1
  {
    if node.Guarded() then lines else AddChildren(node, 0, AddFields(lines, node.FieldTexts()))
  }

  function AddChildren(node: Node, from: nat, lines: seq<string>): seq<string>
    requires from <= |node.children|
    decreases node, |node.children| - from
  {
    if from == |node.children| then lines else AddChildren(node, from + 1, AddAll(node.children[from], lines))
  }

  // With bounded room: a field that is too long by itself is left out, and the first
  // other one that does not fit ends its element, children included.
  function FitFields(lines: seq<string>, texts: seq<string>, maximum: nat): (seq<string>, bool)
    decreases |texts|
  {
    if texts == [] then (lines, false)
    else
      match NormalizeBounded(texts[0], maximum)
      case None => FitFields(lines, texts[1..], maximum)
      case Some(text) =>
        if AddField(lines, text) == lines then FitFields(lines, texts[1..], maximum)
        else if LinesLength(lines + [text]) > maximum then (lines, true)
        else FitFields(lines + [text], texts[1..], maximum)
  }

  function FitAll(node: Node, lines: seq<string>, maximum: nat): seq<string>
    decreases node, |node.children| + 1
  {
    if LinesLength(lines) >= maximum || node.Guarded() then lines
    else
      var (own, full) := FitFields(lines, node.FieldTexts(), maximum);
      if full then own else FitChildren(node, 0, own, maximum)
  }

  function FitChildren(node: Node, from: nat, lines: seq<string>, maximum: nat): seq<string>
    requires from <= |node.children|
    decreases node, |node.children| - from
  {
    if from == |node.children| then lines
    else FitChildren(node, from + 1, FitAll(node.children[from], lines, maximum), maximum)
  }

  lemma {:induction false} NoRoomLeft(node: Node, from: nat, lines: seq<string>, maximum: nat)
    requires from <= |node.children| && LinesLength(lines) >= maximum
    ensures FitChildren(node, from, lines, maximum) == lines
    decreases |node.children| - from
  {
    if from < |node.children| {
      NoRoomLeft(node, from + 1, lines, maximum);
    }
  }

  // One more field.
  lemma FitStep(lines: seq<string>, text: string, rest: seq<string>, maximum: nat)
    ensures FitFields(lines, [text] + rest, maximum) ==
            match NormalizeBounded(text, maximum)
            case None => FitFields(lines, rest, maximum)
            case Some(t) =>
              if AddField(lines, t) == lines then FitFields(lines, rest, maximum)
              else if LinesLength(lines + [t]) > maximum then (lines, true)
              else FitFields(lines + [t], rest, maximum)
  {
    assert ([text] + rest)[1..] == rest;
    hide NormalizeBounded, AddField, LinesLength;
  }

  lemma NoFields(lines: seq<string>, maximum: nat)
    ensures FitFields(lines, [], maximum) == (lines, false)
  {
  }

  // ---- Lengths only grow -----------------------------------------------------------

  lemma {:induction false} LengthAppend(lines: seq<string>, line: string)
    ensures LinesLength(lines + [line]) == LinesLength(lines) + (if lines == [] then 0 else 1) + ByteLen(line)
  {
    if lines == [] {
      assert lines + [line] == [line];
    } else {
      assert (lines + [line])[1..] == lines[1..] + [line];
      LengthAppend(lines[1..], line);
    }
  }

  lemma {:induction false} PositiveLength(s: string)
    requires s != ""
    ensures ByteLen(s) > 0
  {
  }

  lemma AddFieldGrows(lines: seq<string>, text: string)
    ensures LinesLength(lines) <= LinesLength(AddField(lines, text))
    ensures AddField(lines, text) != lines ==> LinesLength(lines) < LinesLength(AddField(lines, text))
    ensures text != "" ==> ByteLen(text) <= LinesLength(AddField(lines, text))
  {
    hide LinesLength, ByteLen;
    LengthAppend(lines, text);
    if text != "" {
      PositiveLength(text);
      if lines != [] {
        var front := lines[..|lines| - 1];
        assert front + [lines[|lines| - 1]] == lines;
        LengthAppend(front, lines[|lines| - 1]);
      }
    }
  }

  lemma {:induction false} AddFieldsGrows(lines: seq<string>, texts: seq<string>)
    ensures LinesLength(lines) <= LinesLength(AddFields(lines, texts))
    ensures LinesLength(lines) == LinesLength(AddFields(lines, texts)) ==> lines == AddFields(lines, texts)
    decreases |texts|
  {
    hide LinesLength, AddField, Normalize;
    if texts != [] {
      AddFieldGrows(lines, Normalize(texts[0]));
      AddFieldsGrows(AddField(lines, Normalize(texts[0])), texts[1..]);
    }
  }

  lemma {:induction false} AddAllGrows(node: Node, lines: seq<string>)
    ensures LinesLength(lines) <= LinesLength(AddAll(node, lines))
    ensures LinesLength(lines) == LinesLength(AddAll(node, lines)) ==> lines == AddAll(node, lines)
    decreases node, |node.children| + 1
  {
    hide LinesLength, AddFields, Node.Guarded;
    if !node.Guarded() {
      AddFieldsGrows(lines, node.FieldTexts());
      AddChildrenGrows(node, 0, AddFields(lines, node.FieldTexts()));
    }
  }

  lemma {:induction false} AddChildrenGrows(node: Node, from: nat, lines: seq<string>)
    requires from <= |node.children|
    ensures LinesLength(lines) <= LinesLength(AddChildren(node, from, lines))
    ensures LinesLength(lines) == LinesLength(AddChildren(node, from, lines)) ==>
              lines == AddChildren(node, from, lines)
    decreases node, |node.children| - from
  {
    hide LinesLength, AddAll;
    if from < |node.children| {
      AddAllGrows(node.children[from], lines);
      AddChildrenGrows(node, from + 1, AddAll(node.children[from], lines));
    }
  }

  // ---- The traversal -----------------------------------------------------------------

  lemma ComesFromHere(line: string, node: Node)
    requires !node.Guarded() && IsField(line, node)
    ensures ComesFrom(line, node)
  {
    hide Node.Guarded, IsField;
    assert OpenPath([node]);
  }

  lemma ComesFromChild(line: string, node: Node, child: Node)
    requires !node.Guarded() && child in node.children && ComesFrom(line, child)
    ensures ComesFrom(line, node)
  {
    hide Node.Guarded, IsField;
    var path: seq<Node> :| OpenPath(path) && path[0] == child && IsField(line, path[|path| - 1]);
    PathJoin([node], path);
    assert OpenPath([node] + path);
  }

  // The lines from `from` on are fields.
  ghost predicate AllFields(lines: seq<string>, from: nat, texts: seq<string>) {
    forall i :: from <= i < |lines| ==>
      lines[i] != "" && exists j :: 0 <= j < |texts| && lines[i] == Normalize(texts[j])
  }

  lemma AddStep(lines: seq<string>, text: string, rest: seq<string>)
    ensures AddFields(lines, [text] + rest) == AddFields(AddField(lines, Normalize(text)), rest)
  {
    assert ([text] + rest)[1..] == rest;
    hide AddField, Normalize;
  }

  // With bounded room the fields of an element fit, and they are all there when they
  // have room. `full` tells that one of them had none.
  lemma {:induction false} FitFieldsFit(lines: seq<string>, texts: seq<string>, maximum: nat)
    requires LinesLength(lines) <= maximum && NoAdjacentDuplicates(lines)
    ensures var (r, full) := FitFields(lines, texts, maximum);
            && lines <= r && LinesLength(r) <= maximum && NoAdjacentDuplicates(r) && AllFields(r, |lines|, texts)
            && (full ==> LinesLength(AddFields(lines, texts)) > maximum)
            && (LinesLength(AddFields(lines, texts)) <= maximum ==> r == AddFields(lines, texts))
    decreases |texts|
  {
    hide *;
    if texts == [] {
      NoFields(lines, maximum);
      NoTexts(lines);
    } else {
      var text, rest := texts[0], texts[1..];
      assert texts == [text] + rest;
      var next := AddField(lines, Normalize(text));
      FitStep(lines, text, rest, maximum);
      AddStep(lines, text, rest);
      AddFieldsGrows(next, rest);
      AddFieldGrows(lines, Normalize(text));
      Bounded(text, maximum);
      match NormalizeBounded(text, maximum)
      case None =>
        FitFieldsFit(lines, rest, maximum);
        MoreTexts(FitFields(lines, rest, maximum).0, |lines|, text, rest);
      case Some(t) =>
        AddedField(lines, t);
        if next == lines {
          FitFieldsFit(lines, rest, maximum);
          MoreTexts(FitFields(lines, rest, maximum).0, |lines|, text, rest);
        } else if LinesLength(lines + [t]) <= maximum {
          FitFieldsFit(lines + [t], rest, maximum);
          OneMoreField(lines, t, FitFields(lines + [t], rest, maximum).0, text, rest);
        } else {
          NoMoreFields(lines, texts);
        }
    }
  }

  lemma NoTexts(lines: seq<string>)
    ensures AddFields(lines, []) == lines && AllFields(lines, |lines|, [])
  {
  }

  lemma NoMoreFields(lines: seq<string>, texts: seq<string>)
    ensures AllFields(lines, |lines|, texts)
  {
  }

  lemma Bounded(text: string, maximum: nat)
    ensures match NormalizeBounded(text, maximum)
            case None => Normalize(text) != "" && ByteLen(Normalize(text)) > maximum
            case Some(t) => t == Normalize(text)
  {
    if NormalizeBounded(text, maximum).None? {
      NothingTooLong(text, maximum);
    }
    hide Normalize;
  }

  lemma AddedField(lines: seq<string>, text: string)
    ensures AddField(lines, text) == lines || AddField(lines, text) == lines + [text]
    ensures AddField(lines, text) != lines && NoAdjacentDuplicates(lines) ==>
              text != "" && NoAdjacentDuplicates(lines + [text])
  {
  }

  lemma MoreTexts(r: seq<string>, from: nat, text: string, rest: seq<string>)
    requires AllFields(r, from, rest)
    ensures AllFields(r, from, [text] + rest)
  {
    var all := [text] + rest;
    forall i | from <= i < |r|
      ensures r[i] != "" && exists j :: 0 <= j < |all| && r[i] == Normalize(all[j])
    {
      var j :| 0 <= j < |rest| && r[i] == Normalize(rest[j]);
      assert all[j + 1] == rest[j];
    }
  }

  lemma OneMoreField(lines: seq<string>, t: string, r: seq<string>, text: string, rest: seq<string>)
    requires lines + [t] <= r && AllFields(r, |lines + [t]|, rest) && t != "" && t == Normalize(text)
    ensures lines <= r && AllFields(r, |lines|, [text] + rest)
  {
    MoreTexts(r, |lines| + 1, text, rest);
    hide Normalize;
    assert r[|lines|] == t && ([text] + rest)[0] == text;
  }

  lemma FieldsComeFrom(r: seq<string>, from: nat, node: Node)
    requires !node.Guarded() && AllFields(r, from, node.FieldTexts())
    ensures AllComeFrom(r, from, node)
  {
    hide Normalize, Node.Guarded, Node.FieldTexts, ComesFrom;
    forall i | from <= i < |r|
      ensures ComesFrom(r[i], node)
    {
      assert IsField(r[i], node);
      ComesFromHere(r[i], node);
    }
  }

  // The fields of one element.
  method VisitFields(node: Node, maximum: nat, lines: seq<string>) returns (r: seq<string>, full: bool)
    requires !node.Guarded() && LinesLength(lines) <= maximum && NoAdjacentDuplicates(lines)
    ensures (r, full) == FitFields(lines, node.FieldTexts(), maximum)
    ensures lines <= r && LinesLength(r) <= maximum && NoAdjacentDuplicates(r) && AllComeFrom(r, |lines|, node)
    ensures full ==> LinesLength(AddFields(lines, node.FieldTexts())) > maximum
    ensures LinesLength(AddFields(lines, node.FieldTexts())) <= maximum ==> r == AddFields(lines, node.FieldTexts())
  {
    hide LinesLength, ByteLen, NormalizeBounded, Normalize, Node.Guarded, Node.FieldTexts, FitFields, AllFields,
         AllComeFrom;
    r, full := lines, false;
    var texts := node.FieldTexts();
    FitFieldsFit(lines, texts, maximum);
    FieldsComeFrom(FitFields(lines, texts, maximum).0, |lines|, node);
    assert texts[0..] == texts;
    for i := 0 to |texts|
      invariant LinesLength(r) <= maximum && FitFields(lines, texts, maximum) == FitFields(r, texts[i..], maximum)
    {
      assert texts[i..] == [texts[i]] + texts[i + 1..];
      FitStep(r, texts[i], texts[i + 1..], maximum);
      var normalized := NormalizeInto(texts[i], maximum);
      if normalized.None? {
        continue;
      }
      if normalized.value == "" || (r != [] && r[|r| - 1] == normalized.value) {
        continue;
      }
      var separator := if r == [] then 0 else 1;
      LengthAppend(r, normalized.value);
      if ByteLen(normalized.value) + separator > maximum - LinesLength(r) {
        full := true;
        return;
      }
      r := r + [normalized.value];
    }
    NoFields(r, maximum);
  }

  lemma NothingTooLong(text: string, maximum: nat)
    requires NormalizeBounded(text, maximum).None?
    ensures Normalize(text) != "" && ByteLen(Normalize(text)) > maximum
  {
  }

  method Visit(node: Node, maximum: nat, lines: seq<string>) returns (r: seq<string>)
    requires LinesLength(lines) <= maximum && NoAdjacentDuplicates(lines)
    ensures lines <= r && LinesLength(r) <= maximum && NoAdjacentDuplicates(r) && AllComeFrom(r, |lines|, node)
    ensures r == FitAll(node, lines, maximum)
    ensures LinesLength(AddAll(node, lines)) <= maximum ==> r == AddAll(node, lines)
    decreases node, |node.children| + 1
  {
    hide LinesLength, Node.Guarded, ComesFrom, NoAdjacentDuplicates, AddFields, FitFields;
    r := lines;
    AddAllGrows(node, lines);
    if LinesLength(lines) >= maximum || node.Guarded() {
      return;
    }
    var full;
    r, full := VisitFields(node, maximum, lines);
    ghost var own := AddFields(lines, node.FieldTexts());
    AddChildrenGrows(node, 0, own);
    if full {
      return;
    }
    ghost var complete := LinesLength(AddAll(node, lines)) <= maximum;
    for i := 0 to |node.children|
      invariant lines <= r && LinesLength(r) <= maximum && NoAdjacentDuplicates(r) && AllComeFrom(r, |lines|, node)
      invariant complete ==> AddChildren(node, i, r) == AddAll(node, lines)
      invariant FitChildren(node, i, r, maximum) == FitAll(node, lines, maximum)
    {
      var child := node.children[i];
      AddChildrenGrows(node, i + 1, AddAll(child, r));
      ghost var before := r;
      r := Visit(child, maximum, r);
      FromChildren(r, |lines|, |before|, node, child);
      AddChildrenGrows(node, i + 1, r);
      if LinesLength(r) >= maximum {
        NoRoomLeft(node, i + 1, r, maximum);
        return;
      }
    }
  }

  lemma FromChildren(lines: seq<string>, from: nat, middle: nat, node: Node, child: Node)
    requires from <= middle <= |lines| && !node.Guarded() && child in node.children
    requires AllComeFrom(lines[..middle], from, node) && AllComeFrom(lines, middle, child)
    ensures AllComeFrom(lines, from, node)
  {
    hide ComesFrom, Node.Guarded;
    forall i | from <= i < |lines|
      ensures ComesFrom(lines[i], node)
    {
      if i < middle {
        assert lines[i] == lines[..middle][i];
      } else {
        ComesFromChild(lines[i], node, child);
      }
    }
  }

  // The text is at most `maximum` bytes of whole, normalized fields of elements that
  // no guarded element hides, without adjacent duplicates; and all of them, in the
  // order of traversal, when they fit.
  method VisibleTextBounded(node: Node, maximum: nat) returns (output: string, ghost lines: seq<string>)
    ensures output == JoinLines(lines) && ByteLen(output) <= maximum
    ensures NoAdjacentDuplicates(lines) && AllComeFrom(lines, 0, node)
    ensures lines != [] ==> SplitLines(output) == lines
    ensures lines == FitAll(node, [], maximum)
    ensures LinesLength(AddAll(node, [])) <= maximum ==> lines == AddAll(node, [])
  {
    hide ByteLen, ComesFrom, SplitLines;
    var collected := Visit(node, maximum, []);
    lines := collected;
    output := JoinLines(collected);
    JoinedLinesLength(collected);
    forall i | 0 <= i < |lines|
      ensures '\n' !in lines[i]
    {
      FieldHasNoBreak(lines[i], node);
    }
    if lines != [] {
      LinesSplitBack(lines);
    }
  }

  lemma FieldHasNoBreak(line: string, node: Node)
    requires ComesFrom(line, node)
    ensures '\n' !in line
  {
    hide Normalize, Node.Guarded;
    var path: seq<Node> :| OpenPath(path) && path[0] == node && IsField(line, path[|path| - 1]);
    var last := path[|path| - 1];
    var i :| 0 <= i < |last.FieldTexts()| && line == Normalize(last.FieldTexts()[i]);
    NormalizedIsOneLine(last.FieldTexts()[i]);
  }
}
