// Accessibility trees: integer screen geometry, the roles that protect or edit
// text, and the tree itself.
module Accessibility {
  import opened Wrappers
  import opened Markers

  const I64_MIN := -0x8000_0000_0000_0000
  const I64_MAX := 0x7FFF_FFFF_FFFF_FFFF

  type i64 = x: int | I64_MIN <= x <= I64_MAX

  function Checked(x: int): Option<i64> {
    if I64_MIN <= x <= I64_MAX then Some(x) else None
  }

  function Max(a: int, b: int): int { if a < b then b else a }

  function Min(a: int, b: int): int { if a < b then a else b }

  datatype Edges = Edges(left: i64, top: i64, right: i64, bottom: i64)

  datatype Alignment = Left | Center | Right

  datatype Rect = Rect(x: i64, y: i64, width: i64, height: i64) {
    // None for an empty rectangle and for one that reaches past the last coordinate.
    function GetEdges(): Option<Edges> {
      if width <= 0 || height <= 0 then None
      else
        match (Checked(x + width), Checked(y + height))
        case (Some(right), Some(bottom)) => Some(Edges(x, y, right, bottom))
        case _ => None
    }

    predicate Intersects(other: Rect) {
      match (GetEdges(), other.GetEdges())
      case (Some(a), Some(b)) =>
        Max(a.left, b.left) < Min(a.right, b.right) && Max(a.top, b.top) < Min(a.bottom, b.bottom)
      case _ => false
    }

    predicate IsAboveWithHorizontalOverlap(other: Rect) {
      match (GetEdges(), other.GetEdges())
      case (Some(a), Some(b)) => a.bottom <= b.top && Max(a.left, b.left) < Min(a.right, b.right)
      case _ => false
    }

    // An ancestor with room above the composer: three composer rows and at least 160.
    predicate ContainsWithContextAbove(other: Rect) {
      match (GetEdges(), other.GetEdges())
      case (Some(a), Some(b)) =>
        (match (Checked(b.top - a.top), Checked(b.bottom - b.top))
         case (Some(contextHeight), Some(otherHeight)) =>
           var rows: int := otherHeight;
           a.left <= b.left && a.right >= b.right && a.bottom >= b.bottom
           && contextHeight >= Max(Min(rows * 3, I64_MAX), 160)
         case _ => false)
      case _ => false
    }

    function AlignmentTo(composer: Rect): Alignment {
      var deadZone := Max(composer.width, 0) / 5;
      var delta := (2 * x + width) - (2 * composer.x + composer.width);
      if delta < -deadZone then Left else if delta > deadZone then Right else Center
    }

    // A point is inside when it is between the edges.
    ghost predicate Covers(px: int, py: int) {
      x <= px < x + width && y <= py < y + height
    }
  }

  // Rectangles on the screen intersect exactly when they share a point.
  lemma IntersectsIffShared(a: Rect, b: Rect)
    requires a.GetEdges().Some? && b.GetEdges().Some?
    ensures a.Intersects(b) <==> exists px, py :: a.Covers(px, py) && b.Covers(px, py)
    ensures a.Intersects(b) == b.Intersects(a)
  {
    var px, py := Max(a.x, b.x), Max(a.y, b.y);
    if a.Intersects(b) {
      assert a.Covers(px, py) && b.Covers(px, py);
    }
  }

  // A rectangle has edges exactly when it holds a point and does not reach past the last
  // coordinate.
  lemma EdgesIff(r: Rect)
    ensures r.GetEdges().Some? <==>
            (exists px, py :: r.Covers(px, py)) && r.x + r.width <= I64_MAX && r.y + r.height <= I64_MAX
    ensures r.GetEdges().Some? ==> r.GetEdges().value == Edges(r.x, r.y, r.x + r.width, r.y + r.height)
  {
    if r.width > 0 && r.height > 0 {
      assert r.Covers(r.x, r.y);
    }
  }

  // Above is: no point of it at or below the other's top, and a column in common.
  lemma IsAboveIff(a: Rect, b: Rect)
    requires a.GetEdges().Some? && b.GetEdges().Some?
    ensures a.IsAboveWithHorizontalOverlap(b) <==>
            a.y + a.height <= b.y
            && exists px, py, qy :: a.Covers(px, py) && b.Covers(px, qy)
  {
    var px := Max(a.x, b.x);
    if a.IsAboveWithHorizontalOverlap(b) {
      assert a.Covers(px, a.y) && b.Covers(px, b.y);
    }
  }

  // Room above is 160 units and three times the height of the composer, as far as that can
  // be counted; the composer does not stick out to the left, to the right or below.
  lemma ContextAboveIff(a: Rect, b: Rect)
    requires a.GetEdges().Some? && b.GetEdges().Some?
    ensures a.ContainsWithContextAbove(b) <==>
            a.x <= b.x && b.x + b.width <= a.x + a.width && b.y + b.height <= a.y + a.height
            && 160 <= b.y - a.y <= I64_MAX && (3 * b.height <= b.y - a.y || b.y - a.y == I64_MAX)
  {
  }

  // Left and right are told by the centers, beyond a tenth of the composer's width.
  lemma AlignmentIff(r: Rect, composer: Rect)
    requires 0 <= composer.width
    ensures r.AlignmentTo(composer).Left? <==>
            (2 * r.x + r.width) + composer.width / 5 < 2 * composer.x + composer.width
    ensures r.AlignmentTo(composer).Right? <==>
            2 * composer.x + composer.width + composer.width / 5 < 2 * r.x + r.width
  {
  }

  // ---- Roles ------------------------------------------------------------------------

  function LowerChar(c: char): char {
    if 'A' <= c <= 'Z' then (c as int + 32) as char else c
  }

  function ToAsciiLower(s: string): string {
    if s == "" then "" else [LowerChar(s[0])] + ToAsciiLower(s[1..])
  }

  predicate IsPasswordRole(role: string, subrole: Option<string>) {
    var combined := ToAsciiLower(role + " " + if subrole.Some? then subrole.value else "");
    Contains(combined, "securetextfield") || Contains(combined, "password") || Contains(combined, "secure text")
  }

  predicate IsEditableRole(role: string, subrole: Option<string>) {
    ToAsciiLower(role) in {"axtextarea", "axtextfield", "axsearchfield", "axcombobox"}
    || (subrole.Some? && ToAsciiLower(subrole.value) == ToAsciiLower("AXTextEntryArea"))
  }

  // The same letters, in either case.
  ghost predicate SameLetters(a: string, b: string) {
    |a| == |b| && forall i :: 0 <= i < |a| ==> SameLetter(a[i], b[i])
  }

  predicate SameLetter(a: char, b: char) {
    a == b
    || ('A' <= a <= 'Z' && b as int - a as int == 'a' as int - 'A' as int)
    || ('A' <= b <= 'Z' && a as int - b as int == 'a' as int - 'A' as int)
  }

  lemma {:induction false} LowerIffSame(a: string, b: string)
    ensures ToAsciiLower(a) == ToAsciiLower(b) <==> SameLetters(a, b)
    ensures |ToAsciiLower(a)| == |a|
  {
    if a == "" || b == "" {
      LowerLength(a);
      LowerLength(b);
    } else {
      LowerIffSame(a[1..], b[1..]);
      LowerIffSameChar(a[0], b[0]);
      hide LowerChar, SameLetter;
      assert ToAsciiLower(a)[1..] == ToAsciiLower(a[1..]) && ToAsciiLower(b)[1..] == ToAsciiLower(b[1..]);
      if SameLetters(a[1..], b[1..]) && SameLetter(a[0], b[0]) {
        forall i | 0 <= i < |a| ensures SameLetter(a[i], b[i]) {
          assert i > 0 ==> a[i] == a[1..][i - 1] && b[i] == b[1..][i - 1];
        }
      }
      if SameLetters(a, b) {
        assert forall i :: 0 <= i < |a| - 1 ==> a[1..][i] == a[i + 1] && b[1..][i] == b[i + 1];
      }
    }
  }

  lemma {:induction false} LowerLength(s: string)
    ensures |ToAsciiLower(s)| == |s|
  {
    if s != "" {
      LowerLength(s[1..]);
    }
  }

  lemma LowerIffSameChar(a: char, b: char)
    ensures LowerChar(a) == LowerChar(b) <==> SameLetter(a, b)
  {
  }

  lemma LowerNames()
    ensures ToAsciiLower("AXTextArea") == "axtextarea" && ToAsciiLower("AXTextField") == "axtextfield"
    ensures ToAsciiLower("AXSearchField") == "axsearchfield" && ToAsciiLower("AXComboBox") == "axcombobox"
  {
    hide ToAsciiLower;
    LowerIs("AXTextArea", "axtextarea");
    LowerIs("AXTextField", "axtextfield");
    LowerIs("AXSearchField", "axsearchfield");
    LowerIs("AXComboBox", "axcombobox");
  }

  lemma {:induction false} LowerIs(s: string, t: string)
    requires |s| == |t| && forall i :: 0 <= i < |s| ==> LowerChar(s[i]) == t[i]
    ensures ToAsciiLower(s) == t
  {
    hide LowerChar;
    if s != "" {
      LowerIs(s[1..], t[1..]);
      assert [t[0]] + t[1..] == t;
    }
  }

  // An editable element is named so, in any case.
  lemma EditableRoleIff(role: string, subrole: Option<string>)
    ensures IsEditableRole(role, subrole) <==>
            SameLetters(role, "AXTextArea") || SameLetters(role, "AXTextField") || SameLetters(role, "AXSearchField")
            || SameLetters(role, "AXComboBox") || (subrole.Some? && SameLetters(subrole.value, "AXTextEntryArea"))
  {
    hide ToAsciiLower, SameLetters;
    LowerNames();
    LowerIffSame(role, "AXTextArea");
    LowerIffSame(role, "AXTextField");
    LowerIffSame(role, "AXSearchField");
    LowerIffSame(role, "AXComboBox");
    if subrole.Some? {
      LowerIffSame(subrole.value, "AXTextEntryArea");
    }
  }

  lemma {:induction false} LowerAt(s: string, i: nat)
    requires i < |s|
    ensures |ToAsciiLower(s)| == |s| && ToAsciiLower(s)[i] == LowerChar(s[i])
  {
    LowerLength(s);
    if i > 0 {
      LowerAt(s[1..], i - 1);
    }
  }

  lemma LowerSlice(s: string, from: nat, to: nat)
    requires from <= to <= |s|
    ensures |ToAsciiLower(s)| == |s| && ToAsciiLower(s)[from..to] == ToAsciiLower(s[from..to])
  {
    hide ToAsciiLower, LowerChar;
    LowerLength(s);
    LowerLength(s[from..to]);
    forall i | 0 <= i < to - from ensures ToAsciiLower(s)[from..to][i] == ToAsciiLower(s[from..to])[i] {
      LowerAt(s, from + i);
      LowerAt(s[from..to], i);
    }
  }

  ghost predicate NamedAt(s: string, name: string, p: int) {
    0 <= p && p + |name| <= |s| && SameLetters(s[p..p + |name|], name)
  }

  // The name occurs somewhere, in any case.
  ghost predicate Names(s: string, name: string) { exists p :: NamedAt(s, name, p) }

  lemma ContainsIffNames(s: string, name: string)
    requires ToAsciiLower(name) == name
    ensures Contains(ToAsciiLower(s), name) <==> Names(s, name)
  {
    hide ToAsciiLower, SameLetters;
    LowerLength(s);
    forall p ensures At(ToAsciiLower(s), name, p) <==> NamedAt(s, name, p) {
      if 0 <= p && p + |name| <= |s| {
        LowerSlice(s, p, p + |name|);
        LowerIffSame(s[p..p + |name|], name);
      }
    }
    hide At, NamedAt;
    if p :| NamedAt(s, name, p) {
      AtIsInside(ToAsciiLower(s), name, p);
    }
  }

  lemma AtIsInside(s: string, m: string, p: int)
    requires At(s, m, p)
    ensures Contains(s, m)
  {
    assert 0 <= p <= |s|;
  }

  lemma PasswordNames()
    ensures ToAsciiLower("securetextfield") == "securetextfield" && ToAsciiLower("password") == "password"
    ensures ToAsciiLower("secure text") == "secure text"
  {
    hide ToAsciiLower;
    LowerIs("securetextfield", "securetextfield");
    LowerIs("password", "password");
    LowerIs("secure text", "secure text");
  }

  // A password field says so in its role or subrole, in any case.
  lemma PasswordRoleIff(role: string, subrole: Option<string>)
    ensures var named := role + " " + if subrole.Some? then subrole.value else "";
            IsPasswordRole(role, subrole) <==>
            Names(named, "securetextfield") || Names(named, "password") || Names(named, "secure text")
  {
    hide ToAsciiLower, Names, Contains;
    var named := role + " " + if subrole.Some? then subrole.value else "";
    PasswordNames();
    ContainsIffNames(named, "securetextfield");
    ContainsIffNames(named, "password");
    ContainsIffNames(named, "secure text");
  }

  // ---- The tree ------------------------------------------------------------------------

  datatype Node = Node(role: string, subrole: Option<string>, frame: Option<Rect>,
                       title: Option<string>, value: Option<string>, description: Option<string>,
                       focused: bool, isProtected: bool, children: seq<Node>)
  {
    // Nothing is read from such a node or from below it.
    predicate Guarded() { isProtected || IsPasswordRole(role, subrole) }

    predicate Editable() { IsEditableRole(role, subrole) }

    function FieldTexts(): seq<string> {
      (if title.Some? then [title.value] else [])
      + (if value.Some? then [value.value] else [])
      + (if description.Some? then [description.value] else [])
    }
  }

  // A walk down the tree: each node a child of the one before.
  ghost predicate IsPath(path: seq<Node>) {
    path != [] && forall i :: 0 <= i < |path| - 1 ==> path[i + 1] in path[i].children
  }

  lemma PathJoin(a: seq<Node>, b: seq<Node>)
    requires IsPath(a) && IsPath(b) && b[0] in a[|a| - 1].children
    ensures IsPath(a + b)
  {
    var p := a + b;
    forall i | 0 <= i < |p| - 1
      ensures p[i + 1] in p[i].children
    {
      if i >= |a| {
        assert b[i - |a| + 1] in b[i - |a|].children;
      }
    }
  }
}
