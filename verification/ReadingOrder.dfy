// What is read from a tree, and in which order: every open element once, a parent
// before its children and the children from first to last.
module ReadingOrder {
  import opened Wrappers
  import opened Utf8Length
  import opened Fields
  import opened Accessibility
  import opened ContextSelector
  import opened RecentContext
  import opened VisibleText

  // A place in a tree: which child to take at each step down.
  type Place = seq<nat>

  function Way(node: Node, p: Place): seq<Node>
    decreases |p|
  {
    [node] + if p == [] || p[0] >= |node.children| then [] else Way(node.children[p[0]], p[1..])
  }

  // The place is there, every element on the way is `open` and the last one `wanted`.
  predicate Leads(node: Node, p: Place, open: Node -> bool, wanted: Node -> bool)
    decreases |p|
  {
    open(node)
    && if p == [] then wanted(node)
       else p[0] < |node.children| && Leads(node.children[p[0]], p[1..], open, wanted)
  }

  predicate Before(p: Place, q: Place)
    decreases |p|
  {
    q != [] && (p == [] || p[0] < q[0] || (p[0] == q[0] && Before(p[1..], q[1..])))
  }

  ghost predicate Increasing(at: seq<Place>) {
    forall i, j :: 0 <= i < j < |at| ==> Before(at[i], at[j])
  }

  // All ways to wanted elements, each once and in the order of reading.
  ghost predicate Lists(ways: seq<seq<Node>>, at: seq<Place>, node: Node, open: Node -> bool, wanted: Node -> bool) {
    |at| == |ways| && Increasing(at)
    && (forall k :: 0 <= k < |at| ==> Leads(node, at[k], open, wanted) && ways[k] == Way(node, at[k]))
    && forall p: Place :: Leads(node, p, open, wanted) ==> p in at
  }

  // The same from child number `from` on, without the element itself.
  predicate LeadsBelow(node: Node, from: nat, p: Place, open: Node -> bool, wanted: Node -> bool) {
    p != [] && from <= p[0] < |node.children| && Leads(node.children[p[0]], p[1..], open, wanted)
  }

  ghost predicate ListsBelow(ways: seq<seq<Node>>, at: seq<Place>, node: Node, from: nat, open: Node -> bool,
                             wanted: Node -> bool) {
    |at| == |ways| && Increasing(at)
    && (forall k :: 0 <= k < |at| ==>
          LeadsBelow(node, from, at[k], open, wanted) && ways[k] == Way(node.children[at[k][0]], at[k][1..]))
    && forall p: Place :: LeadsBelow(node, from, p, open, wanted) ==> p in at
  }

  function Ways(node: Node, open: Node -> bool, wanted: Node -> bool): (r: seq<seq<Node>>)
    ensures forall k :: 0 <= k < |r| ==> r[k] != []
    decreases node, |node.children| + 1
  {
    if !open(node) then []
    else (if wanted(node) then [[node]] else []) + Below(node, WaysIn(node, 0, open, wanted))
  }

  function WaysIn(node: Node, from: nat, open: Node -> bool, wanted: Node -> bool): (r: seq<seq<Node>>)
    requires from <= |node.children|
    ensures forall k :: 0 <= k < |r| ==> r[k] != []
    decreases node, |node.children| - from
  {
    if from == |node.children| then []
    else Ways(node.children[from], open, wanted) + WaysIn(node, from + 1, open, wanted)
  }

  function Under(i: nat, at: seq<Place>): (r: seq<Place>)
    ensures |r| == |at| && forall k :: 0 <= k < |at| ==> r[k] == [i] + at[k]
  {
    seq(|at|, k requires 0 <= k < |at| => [i] + at[k])
  }

  lemma UnderIncreases(i: nat, at: seq<Place>)
    requires Increasing(at)
    ensures Increasing(Under(i, at))
  {
    var under := Under(i, at);
    forall j, k | 0 <= j < k < |at| ensures Before(under[j], under[k]) {
      assert under[j][1..] == at[j] && under[k][1..] == at[k];
    }
  }

  lemma IncreasingJoin(a: seq<Place>, b: seq<Place>)
    requires Increasing(a) && Increasing(b)
    requires forall j, k :: 0 <= j < |a| && 0 <= k < |b| ==> Before(a[j], b[k])
    ensures Increasing(a + b)
  {
    hide Before;
  }

  // What is listed of one child and of the later ones is listed together.
  lemma ListsJoin(here: seq<seq<Node>>, at: seq<Place>, rest: seq<seq<Node>>, later: seq<Place>, node: Node, from: nat,
                  open: Node -> bool, wanted: Node -> bool)
    requires from < |node.children| && Lists(here, at, node.children[from], open, wanted)
    requires ListsBelow(rest, later, node, from + 1, open, wanted)
    ensures ListsBelow(here + rest, Under(from, at) + later, node, from, open, wanted)
  {
    hide Way, Leads;
    var under := Under(from, at);
    UnderIncreases(from, at);
    IncreasingJoin(under, later);
    forall k | 0 <= k < |at|
      ensures LeadsBelow(node, from, under[k], open, wanted)
      ensures here[k] == Way(node.children[under[k][0]], under[k][1..])
    {
      assert under[k][1..] == at[k];
    }
    forall p: Place | LeadsBelow(node, from, p, open, wanted)
      ensures p in under + later
    {
      if p[0] == from {
        var k :| 0 <= k < |at| && at[k] == p[1..];
        assert under[k] == p;
      } else {
        assert LeadsBelow(node, from + 1, p, open, wanted);
      }
    }
  }

  // What is listed below an element leads on from it.
  ghost predicate LeadsOn(ways: seq<seq<Node>>, at: seq<Place>, node: Node, open: Node -> bool, wanted: Node -> bool) {
    |at| == |ways| && Increasing(at)
    && (forall k :: 0 <= k < |at| ==>
          at[k] != [] && Leads(node, at[k], open, wanted) && ways[k] == Way(node, at[k]))
    && forall p: Place :: Leads(node, p, open, wanted) && p != [] ==> p in at
  }

  lemma BelowLeadsOn(below: seq<seq<Node>>, at: seq<Place>, node: Node, open: Node -> bool, wanted: Node -> bool)
    requires open(node) && ListsBelow(below, at, node, 0, open, wanted)
    ensures LeadsOn(Below(node, below), at, node, open, wanted)
  {
    hide Leads, LeadsBelow, Way, Increasing;
    forall k | 0 <= k < |at|
      ensures at[k] != [] && Leads(node, at[k], open, wanted) && Below(node, below)[k] == Way(node, at[k])
    {
      OneStepDown(node, at[k], open, wanted);
    }
    forall p: Place | Leads(node, p, open, wanted) && p != []
      ensures p in at
    {
      OneStepDown(node, p, open, wanted);
    }
  }

  lemma FirstIncreases(at: seq<Place>)
    requires Increasing(at) && forall k :: 0 <= k < |at| ==> at[k] != []
    ensures Increasing([[]] + at)
  {
    IncreasingJoin([[]], at);
  }

  // The element itself comes first, if it is wanted.
  lemma ListsAbove(ways: seq<seq<Node>>, at: seq<Place>, node: Node, open: Node -> bool, wanted: Node -> bool)
    requires open(node) && LeadsOn(ways, at, node, open, wanted)
    ensures !wanted(node) ==> Lists(ways, at, node, open, wanted)
    ensures wanted(node) ==> Lists([[node]] + ways, [[]] + at, node, open, wanted)
  {
    hide Leads, Way, Increasing;
    OneStepDown(node, [], open, wanted);
    FirstIncreases(at);
    var all, places := [[node]] + ways, [[]] + at;
    assert forall k :: 0 < k < |places| ==> places[k] == at[k - 1] && all[k] == ways[k - 1];
    assert forall p: Place :: p in at || p == [] ==> p in places;
  }

  lemma OneStepDown(node: Node, p: Place, open: Node -> bool, wanted: Node -> bool)
    ensures Leads(node, p, open, wanted) <==>
            open(node) && if p == [] then wanted(node) else LeadsBelow(node, 0, p, open, wanted)
    ensures LeadsBelow(node, 0, p, open, wanted) ==>
              p != [] && p[0] < |node.children| && Way(node, p) == [node] + Way(node.children[p[0]], p[1..])
    ensures Way(node, []) == [node]
  {
  }

  lemma {:induction false} WaysAreListed(node: Node, open: Node -> bool, wanted: Node -> bool) returns (at: seq<Place>)
    ensures Lists(Ways(node, open, wanted), at, node, open, wanted)
    decreases node, |node.children| + 1
  {
    if !open(node) {
      at := [];
    } else {
      var below := WaysInAreListed(node, 0, open, wanted);
      BelowLeadsOn(WaysIn(node, 0, open, wanted), below, node, open, wanted);
      ListsAbove(Below(node, WaysIn(node, 0, open, wanted)), below, node, open, wanted);
      at := if wanted(node) then [[]] + below else below;
      hide Lists, WaysIn, Below;
      assert [] + Below(node, WaysIn(node, 0, open, wanted)) == Below(node, WaysIn(node, 0, open, wanted));
    }
  }

  lemma {:induction false} WaysInAreListed(node: Node, from: nat, open: Node -> bool, wanted: Node -> bool)
    returns (at: seq<Place>)
    requires from <= |node.children|
    ensures ListsBelow(WaysIn(node, from, open, wanted), at, node, from, open, wanted)
    decreases node, |node.children| - from
  {
    if from == |node.children| {
      at := [];
    } else {
      var here := WaysAreListed(node.children[from], open, wanted);
      var rest := WaysInAreListed(node, from + 1, open, wanted);
      ListsJoin(Ways(node.children[from], open, wanted), here, WaysIn(node, from + 1, open, wanted), rest, node, from,
                open, wanted);
      at := Under(from, here) + rest;
    }
  }

  // ---- The composer -----------------------------------------------------------------------

  predicate Open(node: Node) { !node.Guarded() }

  predicate OpenPlain(node: Node) { !node.Guarded() && !node.Editable() }

  predicate IsComposer(node: Node) { node.focused && node.Editable() }

  predicate Any(node: Node) { true }

  // A guarded element is protected, or named like a password field in any case.
  lemma GuardedIff(node: Node)
    ensures var named := node.role + " " + if node.subrole.Some? then node.subrole.value else "";
            node.Guarded() <==> node.isProtected || Names(named, "securetextfield") || Names(named, "password")
                                || Names(named, "secure text")
  {
    hide Names, IsPasswordRole;
    PasswordRoleIff(node.role, node.subrole);
  }

  lemma {:induction false} ComposersAreWays(node: Node)
    ensures Composers(node) == Ways(node, Open, IsComposer)
    decreases node, |node.children| + 1
  {
    hide Node.Guarded, Node.Editable;
    if Open(node) {
      ComposersInAreWays(node, 0);
    }
  }

  lemma {:induction false} ComposersInAreWays(node: Node, from: nat)
    requires from <= |node.children|
    ensures ComposersIn(node, from) == WaysIn(node, from, Open, IsComposer)
    decreases node, |node.children| - from
  {
    hide Node.Guarded, Node.Editable, Composers, Ways;
    if from < |node.children| {
      ComposersAreWays(node.children[from]);
      ComposersInAreWays(node, from + 1);
    }
  }

  // Every focused editable element that no guarded one hides is found, once.
  lemma ComposersAreListed(node: Node) returns (at: seq<Place>)
    ensures Lists(Composers(node), at, node, Open, IsComposer)
  {
    hide Lists;
    ComposersAreWays(node);
    at := WaysAreListed(node, Open, IsComposer);
  }

  ghost predicate OnlyComposer(node: Node, p: Place) {
    Leads(node, p, Open, IsComposer) && forall q: Place :: Leads(node, q, Open, IsComposer) ==> q == p
  }

  lemma BeforeIsStrict(p: Place)
    ensures !Before(p, p)
    decreases |p|
  {
  }

  // There is one composer to the search exactly when there is one in the tree.
  lemma OneComposerIff(node: Node)
    ensures |Composers(node)| == 1 <==> exists p: Place :: OnlyComposer(node, p)
    ensures forall p: Place :: OnlyComposer(node, p) ==> Composers(node) == [Way(node, p)]
  {
    hide Composers, Leads, Before, Way;
    var at := ComposersAreListed(node);
    if |at| == 1 {
      assert OnlyComposer(node, at[0]);
    }
    forall p: Place | OnlyComposer(node, p)
      ensures Composers(node) == [Way(node, p)]
    {
      assert p in at && (|at| > 1 ==> Before(at[0], at[1]));
      BeforeIsStrict(p);
    }
  }

  // ---- The scope --------------------------------------------------------------------------

  // A context root is no window, shows what is above the composer and protects nothing.
  lemma HoldsContextIff(ancestor: Node, composer: Rect)
    ensures HoldsContext(ancestor, composer) <==>
            && !SameLetters(ancestor.role, "AXWindow")
            && OpenPlain(ancestor)
            && ancestor.frame.Some? && ancestor.frame.value.GetEdges().Some? && composer.GetEdges().Some?
            && var a := ancestor.frame.value;
               && a.x <= composer.x && composer.x + composer.width <= a.x + a.width
               && composer.y + composer.height <= a.y + a.height
               && 160 <= composer.y - a.y <= I64_MAX
               && (3 * composer.height <= composer.y - a.y || composer.y - a.y == I64_MAX)
  {
    LowerIffSame(ancestor.role, "AXWindow");
    hide ToAsciiLower, SameLetters, Node.Guarded, Node.Editable;
    if ancestor.frame.Some? && ancestor.frame.value.GetEdges().Some? && composer.GetEdges().Some? {
      ContextAboveIff(ancestor.frame.value, composer);
    }
  }

  // An element shows when it shares a point with the screen and with the context, and is
  // above the composer.
  lemma ShowsIff(frame: Option<Rect>, f: Frames)
    requires f.viewport.GetEdges().Some? && f.context.GetEdges().Some? && f.composer.GetEdges().Some?
    ensures Shows(frame, f) <==>
            && frame.Some? && frame.value.GetEdges().Some?
            && (exists px, py :: frame.value.Covers(px, py) && f.viewport.Covers(px, py))
            && (exists px, py :: frame.value.Covers(px, py) && f.context.Covers(px, py))
            && frame.value.y + frame.value.height <= f.composer.y
            && (exists px, py, qy :: frame.value.Covers(px, py) && f.composer.Covers(px, qy))
  {
    if frame.Some? && frame.value.GetEdges().Some? {
      IntersectsIffShared(frame.value, f.viewport);
      IntersectsIffShared(frame.value, f.context);
      IsAboveIff(frame.value, f.composer);
      hide Rect.GetEdges, Rect.Covers;
    }
  }

  ghost predicate IsContextRoot(path: seq<Node>, composer: Rect, i: int) {
    1 <= i < |path| - 1 && HoldsContext(path[i], composer)
  }

  lemma ScopeOnIff(path: seq<Node>, viewport: Rect)
    requires path != [] && OnScreen(Some(viewport))
    ensures var frame := path[|path| - 1].frame;
            ScopeOn(path, viewport).Some? <==>
            && OnScreen(frame)
            && (exists px, py :: viewport.Covers(px, py) && frame.value.Covers(px, py))
            && exists i :: IsContextRoot(path, frame.value, i)
    ensures ScopeOn(path, viewport).Some? ==>
              var scope := ScopeOn(path, viewport).value;
              && scope.path == path && path[|path| - 1].frame == Some(scope.frames.composer)
              && viewport == scope.frames.viewport
              && IsContextRoot(path, scope.frames.composer, scope.at)
              && path[scope.at].frame == Some(scope.frames.context)
              && forall i :: IsContextRoot(path, scope.frames.composer, i) ==> i <= scope.at
  {
    var frame := path[|path| - 1].frame;
    hide *;
    ScopeOnUnfolds(path, viewport);
    if OnScreen(frame) {
      OnScreenIntersects(frame.value, viewport);
      NearestContextRoot(path, frame.value);
    }
  }

  lemma OnScreenIntersects(frame: Rect, viewport: Rect)
    requires OnScreen(Some(frame)) && OnScreen(Some(viewport))
    ensures frame.Intersects(viewport) <==> exists px, py :: viewport.Covers(px, py) && frame.Covers(px, py)
  {
    hide Rect.Covers, Rect.Intersects;
    IntersectsIffShared(viewport, frame);
  }

  lemma NearestContextRoot(path: seq<Node>, composer: Rect)
    requires path != []
    ensures var r := ContextRoot(path, composer, |path| - 1);
            && (r.Some? <==> exists i :: IsContextRoot(path, composer, i))
            && (r.Some? ==> IsContextRoot(path, composer, r.value)
                            && forall i :: IsContextRoot(path, composer, i) ==> i <= r.value)
  {
    hide HoldsContext, ContextRoot;
    ContextRootIsNearest(path, composer, |path| - 1);
    var r := ContextRoot(path, composer, |path| - 1);
    if r.Some? {
      assert IsContextRoot(path, composer, r.value);
    }
  }

  lemma ScopeOnUnfolds(path: seq<Node>, viewport: Rect)
    requires path != []
    ensures var frame := path[|path| - 1].frame;
            if !OnScreen(frame) then ScopeOn(path, viewport).None?
            else if !frame.value.Intersects(viewport) then ScopeOn(path, viewport).None?
            else
              var r := ContextRoot(path, frame.value, |path| - 1);
              if r.None? then ScopeOn(path, viewport).None?
              else path[r.value].frame.Some?
                   && ScopeOn(path, viewport)
                   == Some(Scope(path, r.value, Frames(viewport, path[r.value].frame.value, frame.value)))
  {
    var frame := path[|path| - 1].frame;
    hide HoldsContext, ContextRoot, Rect.Intersects, Rect.GetEdges;
    if frame.Some? {
      HasFrame(path, frame.value, |path| - 1);
    }
  }

  // There is a scope exactly when the only composer is on the screen and one of its
  // ancestors below the root can be the context root; the nearest one is.
  lemma ScopeIff(root: Node, p: Place)
    requires OnlyComposer(root, p)
    ensures var path := Way(root, p);
            var frame := path[|path| - 1].frame;
            ScopeOf(root).Some? <==>
            && OnScreen(root.frame) && OnScreen(frame)
            && (exists px, py :: root.frame.value.Covers(px, py) && frame.value.Covers(px, py))
            && exists i :: IsContextRoot(path, frame.value, i)
    ensures ScopeOf(root).Some? ==>
              var scope, path := ScopeOf(root).value, Way(root, p);
              && scope.path == path && path[|path| - 1].frame == Some(scope.frames.composer)
              && root.frame == Some(scope.frames.viewport)
              && IsContextRoot(path, scope.frames.composer, scope.at)
              && path[scope.at].frame == Some(scope.frames.context)
              && forall i :: IsContextRoot(path, scope.frames.composer, i) ==> i <= scope.at
  {
    hide *;
    OneComposerIff(root);
    WayStarts(root, p);
    ScopeOfUnfolds(root, Way(root, p));
    if OnScreen(root.frame) {
      ScopeOnIff(Way(root, p), root.frame.value);
    }
  }

  lemma WayStarts(node: Node, p: Place)
    ensures Way(node, p) != []
  {
  }

  lemma ScopeOfUnfolds(root: Node, path: seq<Node>)
    requires Composers(root) == [path]
    ensures OnScreen(root.frame) ==> root.frame.Some? && ScopeOf(root) == ScopeOn(path, root.frame.value)
    ensures !OnScreen(root.frame) ==> ScopeOf(root).None?
  {
    hide ScopeOn, Composers, Rect.GetEdges;
  }

  lemma HasFrame(path: seq<Node>, composer: Rect, from: nat)
    requires from <= |path|
    ensures var r := ContextRoot(path, composer, from); r.Some? ==> path[r.value].frame.Some?
  {
    ContextRootIsNearest(path, composer, from);
    hide ContextRoot;
  }

  lemma NoScopeOtherwise(root: Node)
    requires !exists p: Place :: OnlyComposer(root, p)
    ensures ScopeOf(root).None?
  {
    hide ScopeOn, OnScreen, OnlyComposer;
    OneComposerIff(root);
  }

  // ---- The candidates ---------------------------------------------------------------------

  // A field is kept whole when it is neither blank nor too long by itself.
  function Kept(field: Option<string>, frame: Rect, f: Frames, maxBytes: nat): seq<Candidate>
    requires frame.GetEdges().Some?
  {
    if field.None? || Normalize(field.value) == "" || ByteLen(Normalize(field.value)) > maxBytes then []
    else [Candidate(frame.y + frame.height, frame.AlignmentTo(f.composer), Normalize(field.value))]
  }

  lemma FirstIsKept(field: Option<string>, frame: Rect, rest: seq<string>, f: Frames, maxBytes: nat)
    requires frame.GetEdges().Some?
    ensures FieldCandidates(frame, (if field.Some? then [field.value] else []) + rest, f, maxBytes)
         == Kept(field, frame, f, maxBytes) + FieldCandidates(frame, rest, f, maxBytes)
  {
    hide FieldCandidates, Normalize;
    var others := FieldCandidates(frame, rest, f, maxBytes);
    assert [] + rest == rest && [] + others == others;
    if field.Some? {
      FirstField(frame, field.value, rest, f, maxBytes);
    }
  }

  // An element gives its title, its value and its description, in this order.
  lemma OwnAreKept(node: Node, f: Frames, maxBytes: nat)
    requires Shows(node.frame, f)
    ensures node.frame.Some? && node.frame.value.GetEdges().Some?
    ensures OwnCandidates(node, f, maxBytes)
         == Kept(node.title, node.frame.value, f, maxBytes) + Kept(node.value, node.frame.value, f, maxBytes)
            + Kept(node.description, node.frame.value, f, maxBytes)
  {
    NoOwn(node, f, maxBytes);
    var frame := node.frame.value;
    var third := if node.description.Some? then [node.description.value] else [];
    var second := if node.value.Some? then [node.value.value] else [];
    var first := if node.title.Some? then [node.title.value] else [];
    assert node.FieldTexts() == first + (second + (third + []));
    NoFieldsLeft(frame, f, maxBytes);
    hide Shows, Kept, FieldCandidates, Rect.GetEdges, Node.FieldTexts;
    FirstIsKept(node.title, frame, second + (third + []), f, maxBytes);
    FirstIsKept(node.value, frame, third + [], f, maxBytes);
    FirstIsKept(node.description, frame, [], f, maxBytes);
    var k3 := Kept(node.description, frame, f, maxBytes);
    assert k3 + [] == k3;
    Regroup(Kept(node.title, frame, f, maxBytes), Kept(node.value, frame, f, maxBytes), k3);
  }

  function CandidatesOf(ways: seq<seq<Node>>, f: Frames, maxBytes: nat): seq<Candidate>
    requires forall k :: 0 <= k < |ways| ==> ways[k] != []
  {
    if ways == [] then []
    else OwnCandidates(ways[0][|ways[0]| - 1], f, maxBytes) + CandidatesOf(ways[1..], f, maxBytes)
  }

  lemma {:induction false} CandidatesJoin(a: seq<seq<Node>>, b: seq<seq<Node>>, f: Frames, maxBytes: nat)
    requires forall k :: 0 <= k < |a| ==> a[k] != []
    requires forall k :: 0 <= k < |b| ==> b[k] != []
    ensures CandidatesOf(a + b, f, maxBytes) == CandidatesOf(a, f, maxBytes) + CandidatesOf(b, f, maxBytes)
  {
    hide OwnCandidates;
    if a == [] {
      assert a + b == b;
    } else {
      assert (a + b)[1..] == a[1..] + b;
      CandidatesJoin(a[1..], b, f, maxBytes);
    }
  }

  lemma {:induction false} CandidatesBelow(node: Node, ways: seq<seq<Node>>, f: Frames, maxBytes: nat)
    requires forall k :: 0 <= k < |ways| ==> ways[k] != []
    ensures CandidatesOf(Below(node, ways), f, maxBytes) == CandidatesOf(ways, f, maxBytes)
  {
    hide OwnCandidates;
    if ways != [] {
      CandidatesBelow(node, ways[1..], f, maxBytes);
      assert Below(node, ways)[1..] == Below(node, ways[1..]);
    }
  }

  // Collected are the candidates of every element that neither is guarded or editable nor
  // has such an ancestor below the starting point, in the order of reading.
  lemma {:induction false} CollectReadsAll(node: Node, f: Frames, maxBytes: nat)
    ensures Collect(node, f, maxBytes) == CandidatesOf(Ways(node, OpenPlain, Any), f, maxBytes)
    decreases node, |node.children| + 1
  {
    hide OwnCandidates, Node.Guarded, Node.Editable;
    if OpenPlain(node) {
      var ways := WaysIn(node, 0, OpenPlain, Any);
      CollectInReadsAll(node, 0, f, maxBytes);
      CandidatesBelow(node, ways, f, maxBytes);
      CandidatesJoin([[node]], Below(node, ways), f, maxBytes);
      var own := OwnCandidates(node, f, maxBytes);
      assert own + [] == own && [[node]][1..] == [];
    }
  }

  lemma {:induction false} CollectInReadsAll(node: Node, from: nat, f: Frames, maxBytes: nat)
    requires from <= |node.children|
    ensures CollectIn(node, from, f, maxBytes) == CandidatesOf(WaysIn(node, from, OpenPlain, Any), f, maxBytes)
    decreases node, |node.children| - from
  {
    hide Collect, OwnCandidates, Ways;
    if from < |node.children| {
      CollectReadsAll(node.children[from], f, maxBytes);
      CollectInReadsAll(node, from + 1, f, maxBytes);
      CandidatesJoin(Ways(node.children[from], OpenPlain, Any), WaysIn(node, from + 1, OpenPlain, Any), f, maxBytes);
    }
  }

  // ---- What is eligible -------------------------------------------------------------------

  // The places of the candidates that no later one repeats, in order.
  ghost predicate LastPlaces(at: seq<nat>, c: seq<Candidate>) {
    (forall j, k :: 0 <= j < k < |at| ==> at[j] < at[k])
    && forall i :: 0 <= i < |c| ==> (i in at <==> !Repeated(c[i], c[i + 1..]))
  }

  ghost predicate TakenAt(r: seq<Candidate>, at: seq<nat>, c: seq<Candidate>) {
    |at| == |r| && forall k :: 0 <= k < |at| ==> at[k] < |c| && r[k] == c[at[k]]
  }

  // Of each line the last candidate is kept, and nothing else.
  lemma {:induction false} NewestAreLast(c: seq<Candidate>) returns (at: seq<nat>)
    ensures TakenAt(Newest(c), at, c) && LastPlaces(at, c)
  {
    hide Repeated;
    if c == [] {
      at := [];
    } else {
      hide LastPlaces, TakenAt;
      var rest := NewestAreLast(c[1..]);
      var later := seq(|rest|, k requires 0 <= k < |rest| => rest[k] + 1);
      at := if Repeated(c[0], c[1..]) then later else [0] + later;
      PlacesStep(c, rest, later);
      TakenStep(Newest(c[1..]), c, rest, later);
    }
  }

  lemma TakenStep(r: seq<Candidate>, c: seq<Candidate>, rest: seq<nat>, later: seq<nat>)
    requires c != [] && TakenAt(r, rest, c[1..])
    requires |later| == |rest| && forall k :: 0 <= k < |rest| ==> later[k] == rest[k] + 1
    ensures TakenAt(r, later, c) && TakenAt([c[0]] + r, [0] + later, c)
  {
    forall k | 0 <= k < |later| ensures later[k] < |c| && r[k] == c[later[k]] {
      assert c[1..][rest[k]] == c[later[k]];
    }
  }

  lemma PlacesStep(c: seq<Candidate>, rest: seq<nat>, later: seq<nat>)
    requires c != [] && LastPlaces(rest, c[1..])
    requires |later| == |rest| && forall k :: 0 <= k < |rest| ==> later[k] == rest[k] + 1
    ensures LastPlaces(if Repeated(c[0], c[1..]) then later else [0] + later, c)
  {
    hide Repeated;
    var at := if Repeated(c[0], c[1..]) then later else [0] + later;
    forall i | 0 <= i < |c| ensures i in at <==> !Repeated(c[i], c[i + 1..]) {
      if i > 0 {
        assert c[1..][i - 1] == c[i] && c[1..][i..] == c[i + 1..];
        LaterIn(rest, later, i);
      }
    }
  }

  lemma LaterIn(rest: seq<nat>, later: seq<nat>, i: nat)
    requires i > 0 && |later| == |rest| && forall k :: 0 <= k < |rest| ==> later[k] == rest[k] + 1
    ensures i in later <==> i - 1 in rest
  {
    if i - 1 in rest {
      var k :| 0 <= k < |rest| && rest[k] == i - 1;
      assert later[k] == i;
    }
  }

  lemma {:induction false} AtBottomIn(c: seq<Candidate>, x: Candidate)
    ensures x in AtBottom(c, x.bottom) <==> x in c
  {
    if c != [] {
      AtBottomIn(c[..|c| - 1], x);
      assert c == c[..|c| - 1] + [c[|c| - 1]];
    }
  }

  lemma SortedHasAll(c: seq<Candidate>, x: Candidate)
    ensures x in Sorted(c) <==> x in c
  {
    hide Sorted, AtBottom;
    SortIsStable(c, x.bottom);
    AtBottomIn(c, x);
    AtBottomIn(Sorted(c), x);
  }

  // No candidate with the same line is lower.
  ghost predicate Lowest(x: Candidate, c: seq<Candidate>) {
    x in c && forall y :: y in c && SameLine(x, y) ==> y.bottom <= x.bottom
  }

  // Eligible are the collected lines, each once, at the lowest place it was found and from
  // the highest to the lowest.
  lemma EligibleIff(scope: Scope, maxBytes: nat, x: Candidate)
    requires scope.at < |scope.path|
    ensures var collected := Collect(scope.path[scope.at], scope.frames, maxBytes);
            x in Eligible(scope, maxBytes) <==> Lowest(x, collected)
    ensures Ordered(Eligible(scope, maxBytes))
  {
    hide Collect, Newest, Sorted, Repeated;
    var collected := Collect(scope.path[scope.at], scope.frames, maxBytes);
    LastAreNewest(collected, x);
  }

  lemma LastAreNewest(c: seq<Candidate>, x: Candidate)
    ensures x in Newest(Sorted(c)) <==> Lowest(x, c)
    ensures Ordered(Newest(Sorted(c)))
  {
    hide Newest, Sorted, AtBottom, Repeated, SameLine;
    var sorted := Sorted(c);
    SortIsStable(c, 0);
    var at := NewestAreLast(sorted);
    forall y ensures y in sorted <==> y in c {
      SortedHasAll(c, y);
    }
    hide LastPlaces;
    if x in Newest(sorted) {
      var k :| 0 <= k < |at| && Newest(sorted)[k] == x;
      LastIsLowest(sorted, at, k);
    }
    if Lowest(x, c) {
      var i := LastPlace(sorted, x);
      LowestIsLast(sorted, at, x, i);
      var k :| 0 <= k < |at| && at[k] == i;
      assert Newest(sorted)[k] == x;
    }
    StillOrdered(sorted, Newest(sorted), at);
  }

  lemma StillOrdered(sorted: seq<Candidate>, r: seq<Candidate>, at: seq<nat>)
    requires Ordered(sorted) && TakenAt(r, at, sorted) && LastPlaces(at, sorted)
    ensures Ordered(r)
  {
    hide Repeated;
  }

  lemma LastIsLowest(sorted: seq<Candidate>, at: seq<nat>, k: nat)
    requires Ordered(sorted) && LastPlaces(at, sorted) && k < |at| && at[k] < |sorted|
    ensures Lowest(sorted[at[k]], sorted)
  {
    var i, x := at[k], sorted[at[k]];
    var rest := sorted[i + 1..];
    assert forall j :: i < j < |sorted| ==> rest[j - i - 1] == sorted[j];
    assert !Repeated(x, rest);
    hide LastPlaces, SameLine;
    forall y | y in sorted && SameLine(x, y) ensures y.bottom <= x.bottom {
      var j :| 0 <= j < |sorted| && sorted[j] == y;
    }
  }

  lemma NoneBelow(sorted: seq<Candidate>, x: Candidate, i: nat, j: nat)
    requires Ordered(sorted) && Lowest(x, sorted)
    requires i < |sorted| && sorted[i] == x && x !in sorted[i + 1..] && j < |sorted| - i - 1
    ensures !SameLine(x, sorted[i + 1..][j])
  {
    assert sorted[i + 1..][j] == sorted[i + 1 + j];
  }

  lemma LowestIsLast(sorted: seq<Candidate>, at: seq<nat>, x: Candidate, i: nat)
    requires Ordered(sorted) && LastPlaces(at, sorted) && Lowest(x, sorted)
    requires i < |sorted| && sorted[i] == x && x !in sorted[i + 1..]
    ensures i in at
  {
    var rest := sorted[i + 1..];
    hide SameLine;
    forall j | 0 <= j < |rest| ensures !SameLine(x, rest[j]) {
      NoneBelow(sorted, x, i, j);
    }
    assert i in at <==> !Repeated(sorted[i], rest);
  }

  lemma {:induction false} LastPlace(c: seq<Candidate>, x: Candidate) returns (i: nat)
    requires x in c
    ensures i < |c| && c[i] == x && x !in c[i + 1..]
  {
    if x in c[1..] {
      var j := LastPlace(c[1..], x);
      i := j + 1;
      assert c[1..][j + 1..] == c[i + 1..];
    } else {
      i := 0;
    }
  }

  // A line says in brackets where its element is, and then its text.
  lemma LineReads(c: Candidate)
    ensures Line(c) == (match c.alignment
                        case Left => "[left] "
                        case Center => "[center] "
                        case Right => "[right] ") + c.text
  {
  }

  // ---- The visible text -------------------------------------------------------------------

  function AddWays(lines: seq<string>, ways: seq<seq<Node>>): seq<string>
    requires forall k :: 0 <= k < |ways| ==> ways[k] != []
    decreases |ways|
  {
    if ways == [] then lines else AddWays(AddFields(lines, ways[0][|ways[0]| - 1].FieldTexts()), ways[1..])
  }

  lemma {:induction false} AddWaysJoin(lines: seq<string>, a: seq<seq<Node>>, b: seq<seq<Node>>)
    requires forall k :: 0 <= k < |a| ==> a[k] != []
    requires forall k :: 0 <= k < |b| ==> b[k] != []
    ensures AddWays(lines, a + b) == AddWays(AddWays(lines, a), b)
    decreases |a|
  {
    hide AddFields, Node.FieldTexts;
    if a == [] {
      assert a + b == b;
    } else {
      assert (a + b)[1..] == a[1..] + b;
      AddWaysJoin(AddFields(lines, a[0][|a[0]| - 1].FieldTexts()), a[1..], b);
    }
  }

  lemma {:induction false} AddWaysBelow(lines: seq<string>, node: Node, ways: seq<seq<Node>>)
    requires forall k :: 0 <= k < |ways| ==> ways[k] != []
    ensures AddWays(lines, Below(node, ways)) == AddWays(lines, ways)
    decreases |ways|
  {
    hide AddFields, Node.FieldTexts;
    if ways != [] {
      AddWaysBelow(AddFields(lines, ways[0][|ways[0]| - 1].FieldTexts()), node, ways[1..]);
      assert Below(node, ways)[1..] == Below(node, ways[1..]);
    }
  }

  // With room for everything, the text has the fields of every element that no guarded
  // one hides, in the order of reading.
  lemma {:induction false} AddAllReadsAll(node: Node, lines: seq<string>)
    ensures AddAll(node, lines) == AddWays(lines, Ways(node, Open, Any))
    decreases node, |node.children| + 1
  {
    hide AddFields, Node.FieldTexts, Node.Guarded;
    if Open(node) {
      var own, ways := AddFields(lines, node.FieldTexts()), WaysIn(node, 0, Open, Any);
      AddChildrenReadsAll(node, 0, own);
      AddWaysBelow(own, node, ways);
      AddWaysJoin(lines, [[node]], Below(node, ways));
      assert [[node]][1..] == [];
    }
  }

  lemma {:induction false} AddChildrenReadsAll(node: Node, from: nat, lines: seq<string>)
    requires from <= |node.children|
    ensures AddChildren(node, from, lines) == AddWays(lines, WaysIn(node, from, Open, Any))
    decreases node, |node.children| - from
  {
    hide AddAll, AddFields, Node.FieldTexts, Ways;
    if from < |node.children| {
      var child := node.children[from];
      AddAllReadsAll(child, lines);
      AddChildrenReadsAll(node, from + 1, AddAll(child, lines));
      AddWaysJoin(lines, Ways(child, Open, Any), WaysIn(node, from + 1, Open, Any));
    }
  }

  function AddOption(lines: seq<string>, field: Option<string>): seq<string> {
    if field.None? then lines else AddField(lines, Normalize(field.value))
  }

  // An element adds its title, its value and its description, in this order.
  lemma OwnFieldsAreAdded(node: Node, lines: seq<string>)
    ensures AddFields(lines, node.FieldTexts())
         == AddOption(AddOption(AddOption(lines, node.title), node.value), node.description)
  {
    var third := if node.description.Some? then [node.description.value] else [];
    var second := if node.value.Some? then [node.value.value] else [];
    var first := if node.title.Some? then [node.title.value] else [];
    assert node.FieldTexts() == first + (second + (third + []));
    hide AddFields, AddOption, Node.FieldTexts;
    AddFirst(lines, node.title, second + (third + []));
    AddFirst(AddOption(lines, node.title), node.value, third + []);
    var added := AddOption(AddOption(lines, node.title), node.value);
    AddFirst(added, node.description, []);
    NoTexts(AddOption(added, node.description));
  }

  lemma AddFirst(lines: seq<string>, field: Option<string>, rest: seq<string>)
    ensures AddFields(lines, (if field.Some? then [field.value] else []) + rest)
         == AddFields(AddOption(lines, field), rest)
  {
    hide AddFields, AddField, Normalize;
    assert [] + rest == rest;
    if field.Some? {
      AddStep(lines, field.value, rest);
    }
  }

  // A field that is not blank is then the last line, and nothing else is added.
  lemma AddFieldMeans(lines: seq<string>, text: string)
    requires NoAdjacentDuplicates(lines)
    ensures var r := AddField(lines, text);
            lines <= r && |r| <= |lines| + 1 && NoAdjacentDuplicates(r)
            && if text == "" then r == lines else r != [] && r[|r| - 1] == text
  {
    AddedField(lines, text);
  }

  // The fields that are not too long by themselves.
  function NotTooLong(texts: seq<string>, maximum: nat): seq<string> {
    if texts == [] then []
    else (if ByteLen(Normalize(texts[0])) <= maximum then [texts[0]] else []) + NotTooLong(texts[1..], maximum)
  }

  // In bounded room an element gives the first `k` of these, and is given up at the next
  // one exactly when that does not fit.
  lemma {:induction false} FitFieldsIs(lines: seq<string>, texts: seq<string>, maximum: nat) returns (k: nat)
    ensures k <= |NotTooLong(texts, maximum)|
    ensures var ((r, full), short) := (FitFields(lines, texts, maximum), NotTooLong(texts, maximum));
            && r == AddFields(lines, short[..k])
            && (full <==> k < |short|)
            && (full ==> LinesLength(AddField(r, Normalize(short[k]))) > maximum)
    ensures LinesLength(lines) <= maximum ==> LinesLength(FitFields(lines, texts, maximum).0) <= maximum
    decreases |texts|
  {
    hide *;
    if texts == [] {
      NoFields(lines, maximum);
      NoTexts(lines);
      NoneTooLong(maximum);
      k := 0;
    } else {
      var text, rest := texts[0], texts[1..];
      assert texts == [text] + rest;
      FitStep(lines, text, rest, maximum);
      TooLongStep(text, rest, maximum);
      var next, short := AddField(lines, Normalize(text)), NotTooLong(rest, maximum);
      AddedField(lines, Normalize(text));
      if ByteLen(Normalize(text)) > maximum {
        k := FitFieldsIs(lines, rest, maximum);
      } else if next == lines || LinesLength(next) <= maximum {
        var j := FitFieldsIs(next, rest, maximum);
        k := j + 1;
        FirstOf(text, short, j);
        AddStep(lines, text, short[..j]);
      } else {
        k := 0;
        assert ([text] + short)[..0] == [];
        NoTexts(lines);
      }
    }
  }

  lemma FirstOf(text: string, short: seq<string>, j: nat)
    requires j <= |short|
    ensures ([text] + short)[..j + 1] == [text] + short[..j]
    ensures j < |short| ==> ([text] + short)[j + 1] == short[j]
  {
  }

  lemma NoneTooLong(maximum: nat)
    ensures NotTooLong([], maximum) == []
  {
  }

  lemma TooLongStep(text: string, rest: seq<string>, maximum: nat)
    ensures NotTooLong([text] + rest, maximum)
         == if ByteLen(Normalize(text)) <= maximum then [text] + NotTooLong(rest, maximum)
            else NotTooLong(rest, maximum)
    ensures NormalizeBounded(text, maximum)
         == if ByteLen(Normalize(text)) <= maximum then Some(Normalize(text)) else None
  {
    hide Normalize, ByteLen;
    assert ([text] + rest)[1..] == rest;
    assert [] + NotTooLong(rest, maximum) == NotTooLong(rest, maximum);
  }

  // An element that is given up gives nothing from below it.
  lemma GivenUpEnds(node: Node, lines: seq<string>, maximum: nat)
    requires LinesLength(lines) < maximum && !node.Guarded()
    ensures var (own, full) := FitFields(lines, node.FieldTexts(), maximum);
            && (full ==> FitAll(node, lines, maximum) == own)
            && (!full ==> FitAll(node, lines, maximum) == FitChildren(node, 0, own, maximum))
  {
  }
}
