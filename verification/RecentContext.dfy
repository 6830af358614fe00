// The recent-context selector as a whole, and where its lines come from.
module RecentContext {
  import opened Wrappers
  import opened Utf8Length
  import opened Fields
  import opened Accessibility
  import opened ContextSelector

  // The path to the only composer, the place of the context root on it, and the
  // frames that decide what shows. None where geometry is missing or ambiguous.
  datatype Scope = Scope(path: seq<Node>, at: nat, frames: Frames)

  predicate OnScreen(frame: Option<Rect>) { frame.Some? && frame.value.GetEdges().Some? }

  function ScopeOn(path: seq<Node>, viewport: Rect): Option<Scope> {
    if path == [] || !OnScreen(path[|path| - 1].frame) then None
    else
      var composer := path[|path| - 1].frame.value;
      if !composer.Intersects(viewport) then None
      else
        match ContextRoot(path, composer, |path| - 1)
        case None => None
        case Some(at) =>
          match path[at].frame
          case None => None
          case Some(context) => Some(Scope(path, at, Frames(viewport, context, composer)))
  }

  function ScopeOf(root: Node): Option<Scope> {
    if !OnScreen(root.frame) || |Composers(root)| != 1 then None
    else ScopeOn(Composers(root)[0], root.frame.value)
  }

  // The eligible candidates: from the context root down, sorted by their bottom
  // edge, older duplicates dropped.
  function Eligible(scope: Scope, maxBytes: nat): seq<Candidate>
    requires scope.at < |scope.path|
  {
    Newest(Sorted(Collect(scope.path[scope.at], scope.frames, maxBytes)))
  }

  ghost predicate IsRecentContext(r: Option<string>, root: Node, maxItems: nat, maxBytes: nat) {
    match ScopeOf(root)
    case None => r.None?
    case Some(scope) =>
      scope.at < |scope.path|
      && exists chosen ::
           LongestSuffix(chosen, Eligible(scope, maxBytes), maxItems, maxBytes)
           && r == if chosen == [] then None else Some(JoinLines(LinesOf(chosen)))
  }

  lemma {:induction false} JoinAppend(lines: seq<string>, line: string)
    ensures JoinLines(lines + [line]) == if lines == [] then line else JoinLines(lines) + "\n" + line
  {
    if lines == [] {
      assert lines + [line] == [line];
    } else {
      assert (lines + [line])[1..] == lines[1..] + [line];
      JoinAppend(lines[1..], line);
    }
  }

  lemma LineParts(x: Candidate)
    ensures Line(x) == PrefixOf(x.alignment) + x.text && PrefixOf(x.alignment) != ""
  {
  }

  lemma NextLine(chosen: seq<Candidate>, i: nat, x: Candidate, output: string)
    requires i < |chosen| && chosen[i] == x && output == JoinLines(LinesOf(chosen)[..i])
    requires output == "" <==> i == 0
    ensures var start := if output == "" then "" else output + "\n";
            start + PrefixOf(x.alignment) + x.text == JoinLines(LinesOf(chosen)[..i + 1])
    ensures PrefixOf(x.alignment) != ""
  {
    var lines := LinesOf(chosen);
    assert lines[i] == Line(x) && lines[..i] + [lines[i]] == lines[..i + 1];
    hide *;
    JoinAppend(lines[..i], lines[i]);
    LineParts(x);
    var start := if output == "" then "" else output + "\n";
    Regroup(start, PrefixOf(x.alignment), x.text);
    if i == 0 {
      assert "" + Line(x) == Line(x);
    }
  }

  lemma AllLines(chosen: seq<Candidate>)
    ensures JoinLines(LinesOf(chosen)[..0]) == "" && |LinesOf(chosen)| == |chosen|
    ensures LinesOf(chosen)[..|chosen|] == LinesOf(chosen)
  {
  }

  // Lines written one after another into one text.
  method WriteLines(c: seq<Candidate>, selected: seq<nat>, ghost chosen: seq<Candidate>) returns (output: string)
    requires |selected| == |chosen| && forall i :: 0 <= i < |selected| ==>
               selected[i] < |c| && chosen[|chosen| - 1 - i] == c[selected[i]]
    ensures output == JoinLines(LinesOf(chosen))
  {
    hide *;
    output := "";
    AllLines(chosen);
    for i := 0 to |selected|
      invariant output == JoinLines(LinesOf(chosen)[..i])
      invariant output == "" <==> i == 0
    {
      var x := c[selected[|selected| - 1 - i]];
      assert x == chosen[i];
      NextLine(chosen, i, x, output);
      if output != "" {
        output := output + "\n";
      }
      output := output + PrefixOf(x.alignment);
      output := output + x.text;
    }
  }

  method RecentVisibleContextBounded(root: Node, maxItems: nat, maxBytes: nat) returns (r: Option<string>)
    ensures maxItems == 0 || maxBytes == 0 ==> r.None?
    ensures maxItems > 0 && maxBytes > 0 ==> IsRecentContext(r, root, maxItems, maxBytes)
  {
    hide Composers, Collect, Sorted, Newest, LongestSuffix, LinesOf, JoinLines, ContextRoot, Rect.Intersects,
         Rect.GetEdges;
    if maxItems == 0 || maxBytes == 0 || !OnScreen(root.frame) {
      return None;
    }
    var found, ambiguous := FindComposerPath(root, [], None);
    assert ambiguous <==> |Composers(root)| >= 2;
    if ambiguous || found.None? {
      return None;
    }
    assert found.value == [] + Composers(root)[0] == Composers(root)[0];
    var scope := ScopeOn(found.value, root.frame.value);
    if scope.None? {
      return None;
    }
    var path, at := scope.value.path, scope.value.at;
    assert at < |path|;
    var candidates := CollectInto(path[at], scope.value.frames, maxBytes, []);
    assert candidates == Collect(path[at], scope.value.frames, maxBytes);
    candidates := Sorted(candidates);
    var selected, chosen := SelectRecent(candidates, maxItems, maxBytes);
    assert ScopeOf(root) == scope;
    assert LongestSuffix(chosen, Eligible(scope.value, maxBytes), maxItems, maxBytes);
    if selected == [] {
      r := None;
    } else {
      var output := WriteLines(candidates, selected, chosen);
      r := Some(output);
    }
  }

  // ---- Where candidates come from -----------------------------------------------------------

  // The candidate is one whole field of the element.
  ghost predicate FieldOf(c: Candidate, node: Node, f: Frames, maxBytes: nat) {
    Shows(node.frame, f)
    && node.frame.value.GetEdges().Some?
    && c.bottom == node.frame.value.GetEdges().value.bottom
    && c.alignment == node.frame.value.AlignmentTo(f.composer)
    && c.text != ""
    && exists i :: 0 <= i < |node.FieldTexts()| && NormalizeBounded(node.FieldTexts()[i], maxBytes) == Some(c.text)
  }

  ghost predicate OpenPath(path: seq<Node>) {
    IsPath(path) && forall i :: 0 <= i < |path| ==> !path[i].Guarded()
  }

  ghost predicate FreeOfEditors(path: seq<Node>) {
    forall i :: 0 <= i < |path| ==> !path[i].Editable()
  }

  lemma {:induction false} FieldCandidatesAreFields(texts: seq<string>, k: nat, node: Node, f: Frames, maxBytes: nat,
                                                    c: Candidate)
    requires Shows(node.frame, f) && k <= |node.FieldTexts()| && texts == node.FieldTexts()[k..]
    requires node.frame.value.GetEdges().Some?
    requires c in FieldCandidates(node.frame.value, texts, f, maxBytes)
    ensures FieldOf(c, node, f, maxBytes)
    decreases |texts|
  {
    hide NormalizeBounded, Rect.Intersects, Rect.IsAboveWithHorizontalOverlap, Rect.GetEdges, Rect.AlignmentTo,
         Node.FieldTexts;
    var all := node.FieldTexts();
    assert texts[0] == all[k] && texts[1..] == all[k + 1..];
    if c in FieldCandidates(node.frame.value, texts[1..], f, maxBytes) {
      FieldCandidatesAreFields(texts[1..], k + 1, node, f, maxBytes, c);
    }
  }

  lemma OwnAreFields(node: Node, f: Frames, maxBytes: nat, c: Candidate)
    requires c in OwnCandidates(node, f, maxBytes)
    ensures FieldOf(c, node, f, maxBytes)
  {
    NoOwn(node, f, maxBytes);
    assert node.FieldTexts()[0..] == node.FieldTexts();
    hide Shows, FieldOf, FieldCandidates;
    FieldCandidatesAreFields(node.FieldTexts(), 0, node, f, maxBytes, c);
  }

  // Every candidate is a field of an element reached through open, uneditable ones.
  lemma {:induction false} CollectedFrom(node: Node, f: Frames, maxBytes: nat, c: Candidate) returns (path: seq<Node>)
    requires c in Collect(node, f, maxBytes)
    ensures OpenPath(path) && FreeOfEditors(path) && path[0] == node
    ensures FieldOf(c, path[|path| - 1], f, maxBytes)
    decreases node, |node.children| + 1
  {
    hide OwnCandidates, FieldOf, Node.Guarded, Node.Editable;
    if c in OwnCandidates(node, f, maxBytes) {
      path := [node];
      OwnAreFields(node, f, maxBytes, c);
    } else {
      var rest := CollectedIn(node, 0, f, maxBytes, c);
      PathJoin([node], rest);
      path := [node] + rest;
    }
  }

  lemma {:induction false} CollectedIn(node: Node, from: nat, f: Frames, maxBytes: nat, c: Candidate)
    returns (path: seq<Node>)
    requires from <= |node.children| && c in CollectIn(node, from, f, maxBytes)
    ensures OpenPath(path) && FreeOfEditors(path) && path[0] in node.children
    ensures FieldOf(c, path[|path| - 1], f, maxBytes)
    decreases node, |node.children| - from
  {
    hide Collect, FieldOf, Node.Guarded, Node.Editable;
    if c in Collect(node.children[from], f, maxBytes) {
      path := CollectedFrom(node.children[from], f, maxBytes, c);
    } else {
      path := CollectedIn(node, from + 1, f, maxBytes, c);
    }
  }

  // Every path to a composer is open and ends at a focused editable element.
  lemma {:induction false} ComposerPathIsOpen(node: Node, k: nat)
    requires k < |Composers(node)|
    ensures var p := Composers(node)[k];
            OpenPath(p) && p[0] == node && p[|p| - 1].focused && p[|p| - 1].Editable()
    decreases node, |node.children| + 1
  {
    hide Node.Guarded, Node.Editable;
    var own := if node.focused && node.Editable() then 1 else 0;
    if k >= own {
      var inner := ComposersIn(node, 0);
      ComposerPathIn(node, 0, k - own);
      PathJoin([node], inner[k - own]);
      assert Composers(node)[k] == [node] + inner[k - own];
    }
  }

  lemma {:induction false} ComposerPathIn(node: Node, from: nat, k: nat)
    requires from <= |node.children| && k < |ComposersIn(node, from)|
    ensures var p := ComposersIn(node, from)[k];
            OpenPath(p) && p[0] in node.children && p[|p| - 1].focused && p[|p| - 1].Editable()
    decreases node, |node.children| - from
  {
    hide Node.Guarded, Node.Editable, Composers;
    var here := Composers(node.children[from]);
    if k < |here| {
      ComposerPathIsOpen(node.children[from], k);
    } else {
      ComposerPathIn(node, from + 1, k - |here|);
    }
  }

  // ---- What a caller gets -----------------------------------------------------------------------

  lemma {:induction false} SortedIsChosen(c: seq<Candidate>)
    ensures forall i :: 0 <= i < |Sorted(c)| ==> Sorted(c)[i] in c
  {
    if c != [] {
      SortedIsChosen(c[..|c| - 1]);
      InsertedIsChosen(Sorted(c[..|c| - 1]), c[|c| - 1]);
    }
  }

  lemma {:induction false} InsertedIsChosen(sorted: seq<Candidate>, x: Candidate)
    ensures forall i :: 0 <= i < |InsertLast(sorted, x)| ==>
              InsertLast(sorted, x)[i] == x || InsertLast(sorted, x)[i] in sorted
  {
    if sorted != [] && x.bottom < sorted[|sorted| - 1].bottom {
      InsertedIsChosen(sorted[..|sorted| - 1], x);
    }
  }

  lemma FieldIsOneLine(c: Candidate, node: Node, f: Frames, maxBytes: nat)
    requires FieldOf(c, node, f, maxBytes)
    ensures exists i :: 0 <= i < |node.FieldTexts()| && c.text == Normalize(node.FieldTexts()[i])
    ensures '\n' !in Line(c)
  {
    hide Node.FieldTexts, Normalize, Shows;
    var i :| 0 <= i < |node.FieldTexts()| && NormalizeBounded(node.FieldTexts()[i], maxBytes) == Some(c.text);
    NormalizedIsOneLine(node.FieldTexts()[i]);
    assert '\n' !in PrefixOf(c.alignment);
  }

  // The text stays within the limits and splits back into whole, normalized fields,
  // each with the prefix of its alignment: the longest suffix of the eligible ones.
  lemma ContextSplitsBack(root: Node, scope: Scope, maxItems: nat, maxBytes: nat, output: string)
    returns (chosen: seq<Candidate>)
    requires ScopeOf(root) == Some(scope) && IsRecentContext(Some(output), root, maxItems, maxBytes)
    ensures scope.at < |scope.path| && LongestSuffix(chosen, Eligible(scope, maxBytes), maxItems, maxBytes)
    ensures chosen != [] && SplitLines(output) == LinesOf(chosen)
    ensures |chosen| <= maxItems && ByteLen(output) <= maxBytes
    ensures forall i :: 0 <= i < |chosen| ==>
              chosen[i] in Collect(scope.path[scope.at], scope.frames, maxBytes)
  {
    hide ScopeOf, Collect, Newest, Sorted, JoinLines, LinesLength, SplitLines, Line, ByteLen;
    chosen :| LongestSuffix(chosen, Eligible(scope, maxBytes), maxItems, maxBytes)
              && Some(output) == if chosen == [] then None else Some(JoinLines(LinesOf(chosen)));
    var all := Eligible(scope, maxBytes);
    var collected := Collect(scope.path[scope.at], scope.frames, maxBytes);
    assert SuffixFits(all, |chosen|, maxItems, maxBytes);
    NewestIsChosen(Sorted(collected));
    SortedIsChosen(collected);
    forall i | 0 <= i < |chosen|
      ensures chosen[i] in collected && '\n' !in LinesOf(chosen)[i]
    {
      assert chosen[i] == all[|all| - |chosen| + i];
      var path := CollectedFrom(scope.path[scope.at], scope.frames, maxBytes, chosen[i]);
      FieldIsOneLine(chosen[i], path[|path| - 1], scope.frames, maxBytes);
    }
    LinesSplitBack(LinesOf(chosen));
    JoinedLinesLength(LinesOf(chosen));
  }

  ghost predicate HasEditor(path: seq<Node>) {
    exists i :: 0 <= i < |path| && path[i].Editable()
  }

  lemma OpenAround(p: seq<Node>, n: nat, b: seq<Node>)
    requires OpenPath(p) && 1 <= n < |p| && OpenPath(b) && b[0] == p[n]
    ensures OpenPath(p[..n] + b) && (p[..n] + b)[0] == p[0]
  {
    hide Node.Guarded;
    PathJoin(p[..n], b);
  }

  lemma OpenIsNotEmpty(path: seq<Node>)
    requires OpenPath(path)
    ensures path != []
  {
  }

  lemma NoNewEditor(a: seq<Node>, b: seq<Node>)
    requires FreeOfEditors(b)
    ensures HasEditor(a + b) <==> HasEditor(a)
  {
    hide Node.Editable;
    if HasEditor(a) {
      var i :| 0 <= i < |a| && a[i].Editable();
      assert (a + b)[i].Editable();
    }
  }

  lemma ScopeIsOnPath(root: Node, scope: Scope)
    requires ScopeOf(root) == Some(scope)
    ensures |Composers(root)| == 1 && scope.path == Composers(root)[0] && 1 <= scope.at < |scope.path|
  {
    hide Composers, HoldsContext, Rect.Intersects, Rect.GetEdges;
  }

  // No line comes from below a guarded element. A line comes from below an editable
  // element exactly when one lies above the context root on the way to the composer.
  lemma LinesComeFromOpenElements(root: Node, scope: Scope, maxBytes: nat, c: Candidate) returns (path: seq<Node>)
    requires ScopeOf(root) == Some(scope) && scope.at < |scope.path|
    requires c in Collect(scope.path[scope.at], scope.frames, maxBytes)
    ensures OpenPath(path) && path[0] == root && FieldOf(c, path[|path| - 1], scope.frames, maxBytes)
    ensures HasEditor(path) <==> HasEditor(scope.path[..scope.at])
  {
    hide *;
    ScopeIsOnPath(root, scope);
    ComposerPathIsOpen(root, 0);
    var rest := CollectedFrom(scope.path[scope.at], scope.frames, maxBytes, c);
    OpenAround(scope.path, scope.at, rest);
    NoNewEditor(scope.path[..scope.at], rest);
    path := scope.path[..scope.at] + rest;
    OpenIsNotEmpty(rest);
  }

  predicate Plain(node: Node) { !node.Guarded() && !node.Editable() && !node.focused }

  // Such an editable ancestor is possible: a text area without focus that holds a
  // group that holds both the composer and a message above it.
  lemma EditableAncestorIsPossible(message: Node, composer: Node, group: Node, area: Node, root: Node, text: string)
    requires !composer.Guarded() && composer.Editable() && composer.focused && composer.children == []
    requires Plain(message) && message.children == [] && message.FieldTexts() == [text]
    requires Plain(group) && ToAsciiLower(group.role) != ToAsciiLower("AXWindow")
             && group.children == [message, composer]
    requires !area.Guarded() && area.Editable() && !area.focused && area.children == [group]
    requires Plain(root) && root.children == [area]
    requires composer.frame == Some(Rect(0, 800, 100, 50)) && message.frame == Some(Rect(0, 0, 100, 50))
    requires group.frame == Some(Rect(0, 0, 100, 900)) && root.frame == group.frame
    requires NormalizeBounded(text, 100).Some? && Normalize(text) != ""
    ensures ScopeOf(root).Some? && HasEditor(ScopeOf(root).value.path[..ScopeOf(root).value.at])
    ensures var scope := ScopeOf(root).value;
            Collect(scope.path[scope.at], scope.frames, 100) == [Candidate(50, Center, Normalize(text))]
  {
    var path := [root, area, group, composer];
    var frames := Frames(group.frame.value, group.frame.value, composer.frame.value);
    hide *;
    ExampleGeometry(group, composer.frame.value);
    OnlyComposer(message, composer, group, area, root);
    OnlyMessage(message, composer, group, frames, text);
    ExampleScope(path, composer.frame.value, group.frame.value);
    ScopeOfOnly(root, path);
    assert path[..2][1] == area;
    EditorAt(path[..2], 1);
  }

  lemma ExampleScope(path: seq<Node>, composer: Rect, viewport: Rect)
    requires |path| == 4 && path[3].frame == Some(composer) && path[2].frame.Some?
    requires HoldsContext(path[2], composer) && OnScreen(path[3].frame) && composer.Intersects(viewport)
    ensures ScopeOn(path, viewport) == Some(Scope(path, 2, Frames(viewport, path[2].frame.value, composer)))
  {
    hide HoldsContext, OnScreen, Rect.Intersects;
    assert ContextRoot(path, composer, 3) == Some(2);
  }

  lemma ScopeOfOnly(root: Node, path: seq<Node>)
    requires OnScreen(root.frame) && Composers(root) == [path]
    ensures ScopeOf(root) == ScopeOn(path, root.frame.value)
  {
    hide ScopeOn, Composers;
  }

  lemma EditorAt(path: seq<Node>, i: nat)
    requires i < |path| && path[i].Editable()
    ensures HasEditor(path)
  {
    hide Node.Editable;
  }

  lemma ExampleGeometry(group: Node, composer: Rect)
    requires Plain(group) && ToAsciiLower(group.role) != ToAsciiLower("AXWindow")
    requires group.frame == Some(Rect(0, 0, 100, 900)) && composer == Rect(0, 800, 100, 50)
    ensures HoldsContext(group, composer)
    ensures OnScreen(group.frame) && OnScreen(Some(composer))
    ensures composer.Intersects(group.frame.value)
  {
    hide Node.Guarded, Node.Editable, ToAsciiLower;
  }

  lemma OnlyComposer(message: Node, composer: Node, group: Node, area: Node, root: Node)
    requires !composer.Guarded() && composer.Editable() && composer.focused && composer.children == []
    requires Plain(message) && message.children == [] && Plain(group) && group.children == [message, composer]
    requires !area.Guarded() && area.Editable() && !area.focused && area.children == [group]
    requires Plain(root) && root.children == [area]
    ensures Composers(root) == [[root, area, group, composer]]
  {
    hide Node.Guarded, Node.Editable;
    assert Composers(message) == [];
    assert Composers(composer) == [[composer]];
    assert ComposersIn(group, 1) == [[composer]] + ComposersIn(group, 2) == [[composer]];
    assert ComposersIn(group, 0) == [[composer]];
    OneBelow(group, [composer]);
    assert Composers(group) == [] + [[group] + [composer]] && [group] + [composer] == [group, composer];
    assert [area] + [group, composer] == [area, group, composer];
    assert [root] + [area, group, composer] == [root, area, group, composer];
    OnlyChild(area, group, [group, composer]);
    OnlyChild(root, area, [area, group, composer]);
  }

  lemma OneBelow(node: Node, path: seq<Node>)
    ensures Below(node, [path]) == [[node] + path]
  {
    assert [path][1..] == [];
  }

  lemma OnlyChild(node: Node, child: Node, path: seq<Node>)
    requires !node.Guarded() && !node.focused && node.children == [child] && Composers(child) == [path]
    ensures Composers(node) == [[node] + path]
  {
    hide Node.Guarded, Node.Editable, Below;
    assert ComposersIn(node, 0) == [path] + ComposersIn(node, 1) == [path];
    OneBelow(node, path);
  }

  lemma OnlyMessage(message: Node, composer: Node, group: Node, f: Frames, text: string)
    requires composer.Editable() && Plain(message) && message.children == [] && message.FieldTexts() == [text]
    requires Plain(group) && group.children == [message, composer]
    requires f == Frames(Rect(0, 0, 100, 900), Rect(0, 0, 100, 900), Rect(0, 800, 100, 50))
    requires message.frame == Some(Rect(0, 0, 100, 50)) && group.frame == Some(Rect(0, 0, 100, 900))
    requires NormalizeBounded(text, 100).Some? && Normalize(text) != ""
    ensures Collect(group, f, 100) == [Candidate(50, Center, Normalize(text))]
  {
    hide Node.Guarded, Node.Editable, Node.FieldTexts, Normalize;
    assert !Shows(group.frame, f) && Shows(message.frame, f);
    var c := Candidate(50, Center, Normalize(text));
    assert [text][1..] == [];
    assert FieldCandidates(message.frame.value, [text], f, 100)
        == [c] + FieldCandidates(message.frame.value, [], f, 100);
    assert Collect(message, f, 100) == [c] + CollectIn(message, 0, f, 100);
    assert Collect(composer, f, 100) == [];
    assert CollectIn(group, 1, f, 100) == [] + CollectIn(group, 2, f, 100);
    assert CollectIn(group, 0, f, 100) == [c] + CollectIn(group, 1, f, 100);
  }
}
