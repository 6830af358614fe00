// Selecting recent text above the composer: which elements are eligible, and the
// longest run of the visually newest of them that fits.
module ContextSelector {
  import opened Wrappers
  import opened Utf8Length
  import opened Fields
  import opened Accessibility

  datatype Candidate = Candidate(bottom: i64, alignment: Alignment, text: string)

  function PrefixOf(a: Alignment): string {
    match a
    case Left => "[left] "
    case Center => "[center] "
    case Right => "[right] "
  }

  function Line(c: Candidate): string { PrefixOf(c.alignment) + c.text }

  function LinesOf(c: seq<Candidate>): seq<string> { seq(|c|, i requires 0 <= i < |c| => Line(c[i])) }

  // Candidates that would repeat a line.
  predicate SameLine(a: Candidate, b: Candidate) { a.alignment == b.alignment && a.text == b.text }

  // ---- A stable sort ------------------------------------------------------------------

  predicate Ordered(c: seq<Candidate>) {
    forall i, j :: 0 <= i < j < |c| ==> c[i].bottom <= c[j].bottom
  }

  // After every candidate that is not lower.
  function InsertLast(sorted: seq<Candidate>, x: Candidate): seq<Candidate> {
    if sorted == [] || sorted[|sorted| - 1].bottom <= x.bottom then sorted + [x]
    else InsertLast(sorted[..|sorted| - 1], x) + [sorted[|sorted| - 1]]
  }

  function Sorted(c: seq<Candidate>): seq<Candidate> {
    if c == [] then [] else InsertLast(Sorted(c[..|c| - 1]), c[|c| - 1])
  }

  // The candidates with one bottom edge, in their order.
  function AtBottom(c: seq<Candidate>, bottom: int): seq<Candidate> {
    if c == [] then []
    else AtBottom(c[..|c| - 1], bottom) + if c[|c| - 1].bottom == bottom then [c[|c| - 1]] else []
  }

  lemma {:induction false} InsertOrdered(sorted: seq<Candidate>, x: Candidate)
    requires Ordered(sorted)
    ensures var r := InsertLast(sorted, x);
            Ordered(r) && |r| == |sorted| + 1
            && (r[|r| - 1].bottom == if sorted != [] && x.bottom < sorted[|sorted| - 1].bottom
                                     then sorted[|sorted| - 1].bottom else x.bottom)
  {
    if sorted != [] && x.bottom < sorted[|sorted| - 1].bottom {
      InsertOrdered(sorted[..|sorted| - 1], x);
    }
  }

  lemma AtBottomStep(c: seq<Candidate>, x: Candidate, bottom: int)
    ensures AtBottom(c + [x], bottom) == AtBottom(c, bottom) + if x.bottom == bottom then [x] else []
  {
    assert (c + [x])[..|c|] == c;
  }

  lemma {:induction false} InsertKeepsRuns(sorted: seq<Candidate>, x: Candidate, bottom: int)
    ensures AtBottom(InsertLast(sorted, x), bottom)
         == AtBottom(sorted, bottom) + if x.bottom == bottom then [x] else []
  {
    hide AtBottom;
    if sorted == [] || sorted[|sorted| - 1].bottom <= x.bottom {
      AtBottomStep(sorted, x, bottom);
    } else {
      var front, last := sorted[..|sorted| - 1], sorted[|sorted| - 1];
      assert front + [last] == sorted;
      InsertKeepsRuns(front, x, bottom);
      AtBottomStep(InsertLast(front, x), last, bottom);
      AtBottomStep(front, last, bottom);
      var run, here := AtBottom(front, bottom), AtBottom(sorted, bottom);
      assert here + [] == here && run + [] == run;
    }
  }

  // Sorted by the bottom edge, and equal edges keep the order of traversal.
  lemma {:induction false} SortIsStable(c: seq<Candidate>, bottom: int)
    ensures Ordered(Sorted(c)) && |Sorted(c)| == |c|
    ensures AtBottom(Sorted(c), bottom) == AtBottom(c, bottom)
  {
    if c != [] {
      SortIsStable(c[..|c| - 1], bottom);
      InsertOrdered(Sorted(c[..|c| - 1]), c[|c| - 1]);
      InsertKeepsRuns(Sorted(c[..|c| - 1]), c[|c| - 1], bottom);
    }
  }

  // ---- Dropping older duplicates --------------------------------------------------------

  predicate Repeated(c: Candidate, later: seq<Candidate>) {
    exists i :: 0 <= i < |later| && SameLine(c, later[i])
  }

  function Newest(c: seq<Candidate>): seq<Candidate> {
    if c == [] then []
    else if Repeated(c[0], c[1..]) then Newest(c[1..])
    else [c[0]] + Newest(c[1..])
  }

  lemma {:induction false} NewestIsChosen(c: seq<Candidate>)
    ensures forall i :: 0 <= i < |Newest(c)| ==> Newest(c)[i] in c
  {
    hide Repeated;
    if c != [] {
      NewestIsChosen(c[1..]);
    }
  }

  lemma RepeatedIn(x: Candidate, y: Candidate, later: seq<Candidate>)
    requires SameLine(x, y) && y in later
    ensures Repeated(x, later)
  {
    var i :| 0 <= i < |later| && later[i] == y;
  }

  // No line of the newest candidates repeats.
  lemma {:induction false} NewestHasNoRepeats(c: seq<Candidate>)
    ensures forall i, j :: 0 <= i < j < |Newest(c)| ==> !SameLine(Newest(c)[i], Newest(c)[j])
  {
    hide Repeated, SameLine;
    if c != [] {
      var rest := Newest(c[1..]);
      NewestHasNoRepeats(c[1..]);
      if !Repeated(c[0], c[1..]) {
        forall j | 0 <= j < |rest|
          ensures !SameLine(c[0], rest[j])
        {
          NewestIsChosen(c[1..]);
          if SameLine(c[0], rest[j]) {
            RepeatedIn(c[0], rest[j], c[1..]);
          }
        }
      }
    }
  }

  // Every line of the candidates is kept.
  lemma {:induction false} NewestKeepsLine(c: seq<Candidate>, x: Candidate)
    requires Repeated(x, c)
    ensures Repeated(x, Newest(c))
  {
    var i :| 0 <= i < |c| && SameLine(x, c[i]);
    var rest := c[1..];
    if i > 0 {
      RepeatedIn(x, rest[i - 1], rest);
    } else if Repeated(c[0], rest) {
      var j :| 0 <= j < |rest| && SameLine(c[0], rest[j]);
      RepeatedIn(x, rest[j], rest);
    }
    if Repeated(x, rest) {
      NewestKeepsLine(rest, x);
      var k :| 0 <= k < |Newest(rest)| && SameLine(x, Newest(rest)[k]);
      RepeatedIn(x, Newest(rest)[k], Newest(c));
    } else {
      assert Newest(c)[0] == c[0];
      RepeatedIn(x, c[0], Newest(c));
    }
  }

  lemma {:induction false} NewestSuffix(c: seq<Candidate>, i: nat) returns (before: seq<Candidate>)
    requires i <= |c|
    ensures Newest(c) == before + Newest(c[i..])
  {
    if i == 0 {
      before := [];
      assert c[0..] == c;
    } else {
      var rest := NewestSuffix(c[1..], i - 1);
      assert c[1..][i - 1..] == c[i..];
      before := if Repeated(c[0], c[1..]) then rest else [c[0]] + rest;
      Regroup([c[0]], rest, Newest(c[i..]));
    }
  }

  // ---- What fits ----------------------------------------------------------------------

  function Length(c: seq<Candidate>): nat { LinesLength(LinesOf(c)) }

  // The last `k` candidates fit both limits.
  predicate SuffixFits(c: seq<Candidate>, k: nat, maxItems: nat, maxBytes: nat) {
    k <= |c| && k <= maxItems && Length(c[|c| - k..]) <= maxBytes
  }

  lemma LengthStep(x: Candidate, c: seq<Candidate>)
    ensures Length([x] + c) == ByteLen(Line(x)) + (if c == [] then 0 else 1) + Length(c)
  {
    assert LinesOf([x] + c) == [Line(x)] + LinesOf(c);
  }

  // What is shorter than a suffix that fits, fits.
  lemma {:induction false} ShorterFits(c: seq<Candidate>, k: nat, j: nat, maxItems: nat, maxBytes: nat)
    requires SuffixFits(c, k, maxItems, maxBytes) && j <= k
    ensures SuffixFits(c, j, maxItems, maxBytes)
  {
    if j < k {
      LengthStep(c[|c| - k], c[|c| - k + 1..]);
      assert [c[|c| - k]] + c[|c| - k + 1..] == c[|c| - k..];
      ShorterFits(c, k - 1, j, maxItems, maxBytes);
    }
  }

  // Exactly the longest suffix that fits.
  ghost predicate LongestSuffix(r: seq<Candidate>, c: seq<Candidate>, maxItems: nat, maxBytes: nat) {
    |r| <= |c| && r == c[|c| - |r|..]
    && forall k: nat :: SuffixFits(c, k, maxItems, maxBytes) <==> k <= |r|
  }

  lemma StopsAtLongest(r: seq<Candidate>, c: seq<Candidate>, maxItems: nat, maxBytes: nat)
    requires SuffixFits(c, |r|, maxItems, maxBytes) && r == c[|c| - |r|..]
    requires !SuffixFits(c, |r| + 1, maxItems, maxBytes)
    ensures LongestSuffix(r, c, maxItems, maxBytes)
  {
    forall k: nat
      ensures SuffixFits(c, k, maxItems, maxBytes) <==> k <= |r|
    {
      if k <= |r| {
        ShorterFits(c, |r|, k, maxItems, maxBytes);
      } else if SuffixFits(c, k, maxItems, maxBytes) {
        ShorterFits(c, k, |r| + 1, maxItems, maxBytes);
      }
    }
  }

  // The walk from the bottom: indices into the sorted candidates, newest first.
  method SelectRecent(c: seq<Candidate>, maxItems: nat, maxBytes: nat)
    returns (selected: seq<nat>, ghost chosen: seq<Candidate>)
    ensures Picked(selected, chosen, c)
    ensures LongestSuffix(chosen, Newest(c), maxItems, maxBytes)
  {
    hide *;
    var seen: set<(Alignment, string)> := {};
    var bytes := 0;
    selected, chosen := [], [];
    assert c[|c|..] == [];
    NothingChosen(c);
    for i := |c| downto 0
      invariant chosen == Newest(c[i..]) && Remembers(seen, c[i..]) && Picked(selected, chosen, c)
      invariant |selected| == |chosen| <= maxItems && bytes == Length(chosen) <= maxBytes
    {
      var x := c[i];
      assert c[i..] == [x] + c[i + 1..];
      NewestStep(x, c[i + 1..], seen);
      if (x.alignment, x.text) !in seen {
        seen := seen + {(x.alignment, x.text)};
        LengthStep(x, chosen);
        LineLength(x);
        var separator := if selected == [] then 0 else 1;
        var next := bytes + separator + ByteLen(PrefixOf(x.alignment)) + ByteLen(x.text);
        if |selected| >= maxItems || next > maxBytes {
          StopHere(c, i, chosen, maxItems, maxBytes);
          return;
        }
        PickedStep(selected, chosen, c, i);
        bytes := next;
        selected := selected + [i];
        chosen := [x] + chosen;
      }
    }
    assert c[0..] == c;
    AllFits(chosen, maxItems, maxBytes);
  }

  // The lines seen so far.
  ghost predicate Remembers(seen: set<(Alignment, string)>, c: seq<Candidate>) {
    forall x: Candidate :: (x.alignment, x.text) in seen <==> Repeated(x, c)
  }

  // The chosen candidates by their indices, newest first.
  ghost predicate Picked(selected: seq<nat>, chosen: seq<Candidate>, c: seq<Candidate>) {
    |selected| == |chosen|
    && forall i :: 0 <= i < |selected| ==> selected[i] < |c| && chosen[|chosen| - 1 - i] == c[selected[i]]
  }

  lemma NothingChosen(c: seq<Candidate>)
    ensures Length([]) == 0 && Newest([]) == [] && Remembers({}, []) && Picked([], [], c)
  {
  }

  lemma NewestStep(x: Candidate, rest: seq<Candidate>, seen: set<(Alignment, string)>)
    requires Remembers(seen, rest)
    ensures (x.alignment, x.text) in seen <==> Repeated(x, rest)
    ensures Newest([x] + rest) == if Repeated(x, rest) then Newest(rest) else [x] + Newest(rest)
    ensures Remembers(seen + {(x.alignment, x.text)}, [x] + rest)
    ensures Repeated(x, rest) ==> Remembers(seen, [x] + rest)
  {
    hide *;
    NewestUnfolds(x, rest);
    RemembersStep(x, rest, seen);
  }

  lemma NewestUnfolds(x: Candidate, rest: seq<Candidate>)
    ensures Newest([x] + rest) == if Repeated(x, rest) then Newest(rest) else [x] + Newest(rest)
  {
    hide Repeated;
    assert ([x] + rest)[1..] == rest;
  }

  lemma RemembersStep(x: Candidate, rest: seq<Candidate>, seen: set<(Alignment, string)>)
    requires Remembers(seen, rest)
    ensures (x.alignment, x.text) in seen <==> Repeated(x, rest)
    ensures Remembers(seen + {(x.alignment, x.text)}, [x] + rest)
    ensures Repeated(x, rest) ==> Remembers(seen, [x] + rest)
  {
    hide Repeated, SameLine;
    RepeatedStep(x, rest);
    assert Repeated(x, rest) ==> seen + {(x.alignment, x.text)} == seen;
  }

  lemma PickedStep(selected: seq<nat>, chosen: seq<Candidate>, c: seq<Candidate>, i: nat)
    requires Picked(selected, chosen, c) && i < |c|
    ensures Picked(selected + [i], [c[i]] + chosen, c)
  {
  }

  lemma LineLength(x: Candidate)
    ensures ByteLen(Line(x)) == ByteLen(PrefixOf(x.alignment)) + ByteLen(x.text)
  {
    ByteLenConcat(PrefixOf(x.alignment), x.text);
  }

  lemma RepeatedStep(x: Candidate, rest: seq<Candidate>)
    ensures forall y: Candidate :: Repeated(y, [x] + rest) <==> SameLine(y, x) || Repeated(y, rest)
    ensures forall y: Candidate :: SameLine(y, x) <==> (y.alignment, y.text) == (x.alignment, x.text)
    ensures SameLine(x, x)
  {
    var all := [x] + rest;
    assert forall i :: 0 <= i < |rest| ==> all[i + 1] == rest[i];
    assert all[0] == x;
  }

  lemma StopHere(c: seq<Candidate>, i: nat, chosen: seq<Candidate>, maxItems: nat, maxBytes: nat)
    requires i < |c| && chosen == Newest(c[i + 1..]) && !Repeated(c[i], c[i + 1..])
    requires |chosen| <= maxItems && Length(chosen) <= maxBytes
    requires |chosen| >= maxItems || Length([c[i]] + chosen) > maxBytes
    ensures LongestSuffix(chosen, Newest(c), maxItems, maxBytes)
  {
    hide *;
    assert c[i..] == [c[i]] + c[i + 1..];
    NewestUnfolds(c[i], c[i + 1..]);
    var before := NewestSuffix(c, i);
    LastOf(before, c[i], chosen, Newest(c));
    FitsByLength(Newest(c), |chosen|, chosen, maxItems, maxBytes);
    FitsByLength(Newest(c), |chosen| + 1, [c[i]] + chosen, maxItems, maxBytes);
    StopsAtLongest(chosen, Newest(c), maxItems, maxBytes);
  }

  lemma FitsByLength(c: seq<Candidate>, k: nat, last: seq<Candidate>, maxItems: nat, maxBytes: nat)
    requires k <= |c| && last == c[|c| - k..]
    ensures SuffixFits(c, k, maxItems, maxBytes) <==> k <= maxItems && Length(last) <= maxBytes
  {
  }

  lemma LastOf(before: seq<Candidate>, x: Candidate, chosen: seq<Candidate>, all: seq<Candidate>)
    requires all == before + ([x] + chosen)
    ensures |all| > |chosen| && all[|all| - |chosen|..] == chosen
    ensures all[|all| - (|chosen| + 1)..] == [x] + chosen
  {
  }

  lemma AllFits(chosen: seq<Candidate>, maxItems: nat, maxBytes: nat)
    requires |chosen| <= maxItems && Length(chosen) <= maxBytes
    ensures LongestSuffix(chosen, chosen, maxItems, maxBytes)
  {
    assert chosen[0..] == chosen;
    hide Length;
    StopsAtLongest(chosen, chosen, maxItems, maxBytes);
  }

  // ---- Finding the composer -------------------------------------------------------------

  // The paths to every focused editable element that no guarded element hides, in
  // the order of traversal.
  function Composers(node: Node): seq<seq<Node>>
    decreases node, |node.children| + 1
  {
    if node.Guarded() then []
    else (if node.focused && node.Editable() then [[node]] else []) + Below(node, ComposersIn(node, 0))
  }

  function ComposersIn(node: Node, from: nat): seq<seq<Node>>
    requires from <= |node.children|
    decreases node, |node.children| - from
  {
    if from == |node.children| then [] else Composers(node.children[from]) + ComposersIn(node, from + 1)
  }

  // The same paths, started one element higher.
  function Below(node: Node, paths: seq<seq<Node>>): (r: seq<seq<Node>>)
    ensures |r| == |paths| && forall i :: 0 <= i < |paths| ==> r[i] == [node] + paths[i]
  {
    if paths == [] then [] else [[node] + paths[0]] + Below(node, paths[1..])
  }

  // The search state after all `paths` below `path` were found.
  ghost predicate Seen(path: seq<Node>, paths: seq<seq<Node>>, before: Option<seq<Node>>,
                       found: Option<seq<Node>>, ambiguous: bool) {
    (ambiguous <==> (if before.Some? then 1 else 0) + |paths| >= 2)
    && (!ambiguous ==> found == if before.Some? then before else if paths != [] then Some(path + paths[0]) else None)
  }

  method FindComposerPath(node: Node, path: seq<Node>, before: Option<seq<Node>>)
    returns (found: Option<seq<Node>>, ambiguous: bool)
    ensures Seen(path, Composers(node), before, found, ambiguous)
    decreases node, |node.children| + 1
  {
    found, ambiguous := before, false;
    if node.Guarded() {
      return;
    }
    var here := path + [node];
    ghost var own: seq<seq<Node>> := [];
    if node.focused && node.Editable() {
      if found.Some? {
        ambiguous := true;
        return;
      }
      found := Some(here);
      own := [[node]];
    }
    ghost var all := ComposersIn(node, 0);
    ghost var done: seq<seq<Node>> := [];
    assert done + ComposersIn(node, 0) == all;
    for i := 0 to |node.children|
      invariant !ambiguous && all == done + ComposersIn(node, i)
      invariant Seen(path, own + Below(node, done), before, found, ambiguous)
    {
      ghost var paths := Composers(node.children[i]);
      var was := found;
      found, ambiguous := FindComposerPath(node.children[i], here, found);
      SeenMore(path, node, own, done, paths, before, was, found, ambiguous);
      Regroup(done, paths, ComposersIn(node, i + 1));
      done := done + paths;
      if ambiguous {
        assert |own + Below(node, all)| >= |own + Below(node, done)|;
        return;
      }
    }
    assert done == all;
  }

  lemma SeenMore(path: seq<Node>, node: Node, own: seq<seq<Node>>, done: seq<seq<Node>>, paths: seq<seq<Node>>,
                 before: Option<seq<Node>>, was: Option<seq<Node>>, found: Option<seq<Node>>, ambiguous: bool)
    requires Seen(path, own + Below(node, done), before, was, false)
    requires Seen(path + [node], paths, was, found, ambiguous)
    ensures Seen(path, own + Below(node, done + paths), before, found, ambiguous)
  {
    if paths != [] {
      Regroup(path, [node], paths[0]);
    }
  }

  // ---- The context ----------------------------------------------------------------------

  // The nearest proper ancestor below the root that holds context above the composer.
  predicate HoldsContext(ancestor: Node, composer: Rect) {
    ToAsciiLower(ancestor.role) != ToAsciiLower("AXWindow")
    && !ancestor.Guarded() && !ancestor.Editable()
    && ancestor.frame.Some? && ancestor.frame.value.ContainsWithContextAbove(composer)
  }

  function ContextRoot(path: seq<Node>, composer: Rect, from: nat): (r: Option<nat>)
    requires from <= |path|
    ensures r.Some? ==> 1 <= r.value < from
  {
    if from <= 1 then None
    else if HoldsContext(path[from - 1], composer) then Some(from - 1)
    else ContextRoot(path, composer, from - 1)
  }

  lemma {:induction false} ContextRootIsNearest(path: seq<Node>, composer: Rect, from: nat)
    requires from <= |path|
    ensures var r := ContextRoot(path, composer, from);
            (r.Some? ==> HoldsContext(path[r.value], composer)
                         && forall i :: r.value < i < from ==> !HoldsContext(path[i], composer))
            && (r.None? ==> forall i :: 1 <= i < from ==> !HoldsContext(path[i], composer))
  {
    hide HoldsContext;
    if from > 1 && !HoldsContext(path[from - 1], composer) {
      ContextRootIsNearest(path, composer, from - 1);
    }
  }

  datatype Frames = Frames(viewport: Rect, context: Rect, composer: Rect)

  predicate Shows(frame: Option<Rect>, f: Frames) {
    frame.Some? && frame.value.Intersects(f.viewport) && frame.value.Intersects(f.context)
    && frame.value.IsAboveWithHorizontalOverlap(f.composer)
  }

  function FieldCandidates(frame: Rect, texts: seq<string>, f: Frames, maxBytes: nat): seq<Candidate>
    requires frame.GetEdges().Some?
  {
    if texts == [] then []
    else
      (match NormalizeBounded(texts[0], maxBytes)
       case Some(text) =>
         if text == "" then []
         else [Candidate(frame.GetEdges().value.bottom, frame.AlignmentTo(f.composer), text)]
       case None => [])
      + FieldCandidates(frame, texts[1..], f, maxBytes)
  }

  function OwnCandidates(node: Node, f: Frames, maxBytes: nat): seq<Candidate> {
    if Shows(node.frame, f) then FieldCandidates(node.frame.value, node.FieldTexts(), f, maxBytes) else []
  }

  function Collect(node: Node, f: Frames, maxBytes: nat): seq<Candidate>
    decreases node, |node.children| + 1
  {
    if node.Guarded() || node.Editable() then []
    else OwnCandidates(node, f, maxBytes) + CollectIn(node, 0, f, maxBytes)
  }

  function CollectIn(node: Node, from: nat, f: Frames, maxBytes: nat): seq<Candidate>
    requires from <= |node.children|
    decreases node, |node.children| - from
  {
    if from == |node.children| then []
    else Collect(node.children[from], f, maxBytes) + CollectIn(node, from + 1, f, maxBytes)
  }

  lemma NoOwn(node: Node, f: Frames, maxBytes: nat)
    ensures !Shows(node.frame, f) ==> OwnCandidates(node, f, maxBytes) == []
    ensures Shows(node.frame, f) ==> node.frame.Some? && node.frame.value.GetEdges().Some?
  {
  }

  lemma FirstField(frame: Rect, text: string, rest: seq<string>, f: Frames, maxBytes: nat)
    requires frame.GetEdges().Some?
    ensures FieldCandidates(frame, [text] + rest, f, maxBytes) ==
            var others := FieldCandidates(frame, rest, f, maxBytes);
            match NormalizeBounded(text, maxBytes)
            case Some(t) =>
              if t == "" then others
              else [Candidate(frame.GetEdges().value.bottom, frame.AlignmentTo(f.composer), t)] + others
            case None => others
  {
    assert ([text] + rest)[1..] == rest;
    assert [] + FieldCandidates(frame, rest, f, maxBytes) == FieldCandidates(frame, rest, f, maxBytes);
    hide NormalizeBounded, Rect.GetEdges, Rect.AlignmentTo;
  }

  // The fields of one element that shows, each whole or not at all.
  method CollectFields(node: Node, f: Frames, maxBytes: nat, candidates: seq<Candidate>) returns (r: seq<Candidate>)
    requires Shows(node.frame, f)
    ensures r == candidates + OwnCandidates(node, f, maxBytes)
  {
    NoOwn(node, f, maxBytes);
    assert OwnCandidates(node, f, maxBytes) == FieldCandidates(node.frame.value, node.FieldTexts(), f, maxBytes);
    hide OwnCandidates, FieldCandidates, Shows, NormalizeBounded, Rect.GetEdges, Rect.AlignmentTo, Node.FieldTexts;
    r := candidates;
    var frame, texts := node.frame.value, node.FieldTexts();
    assert texts[0..] == texts;
    for i := 0 to |texts|
      invariant r + FieldCandidates(frame, texts[i..], f, maxBytes)
             == candidates + FieldCandidates(frame, texts, f, maxBytes)
    {
      assert texts[i..] == [texts[i]] + texts[i + 1..];
      FirstField(frame, texts[i], texts[i + 1..], f, maxBytes);
      var normalized := NormalizeInto(texts[i], maxBytes);
      if normalized.Some? && normalized.value != "" {
        var here := [Candidate(frame.GetEdges().value.bottom, frame.AlignmentTo(f.composer), normalized.value)];
        Regroup(r, here, FieldCandidates(frame, texts[i + 1..], f, maxBytes));
        r := r + here;
      }
    }
    assert texts[|texts|..] == [];
    NoFieldsLeft(frame, f, maxBytes);
    assert r + [] == r;
  }

  lemma NoFieldsLeft(frame: Rect, f: Frames, maxBytes: nat)
    requires frame.GetEdges().Some?
    ensures FieldCandidates(frame, [], f, maxBytes) == []
  {
  }

  method CollectInto(node: Node, f: Frames, maxBytes: nat, candidates: seq<Candidate>) returns (r: seq<Candidate>)
    ensures r == candidates + Collect(node, f, maxBytes)
    decreases node, |node.children| + 1
  {
    hide FieldCandidates, OwnCandidates, Shows, Node.Guarded, Node.Editable, NormalizeBounded;
    r := candidates;
    if node.Guarded() || node.Editable() {
      return;
    }
    if Shows(node.frame, f) {
      r := CollectFields(node, f, maxBytes, r);
    }
    NoOwn(node, f, maxBytes);
    assert candidates + [] == candidates;
    ghost var own := candidates + OwnCandidates(node, f, maxBytes);
    assert r == own;
    for i := 0 to |node.children|
      invariant r + CollectIn(node, i, f, maxBytes) == own + CollectIn(node, 0, f, maxBytes)
    {
      Regroup(r, Collect(node.children[i], f, maxBytes), CollectIn(node, i + 1, f, maxBytes));
      r := CollectInto(node.children[i], f, maxBytes, r);
    }
    Regroup(candidates, OwnCandidates(node, f, maxBytes), CollectIn(node, 0, f, maxBytes));
  }
}
