// Searching and replacing in strings, and the bracketed markers for which
// searching is unambiguous: '[' only at the start and ']' only at the end, so
// two markers never overlap and putting one into a text makes no other appear.
module Markers {
  predicate At(s: string, m: string, p: int) {
    0 <= p && p + |m| <= |s| && s[p..p + |m|] == m
  }

  predicate Contains(s: string, m: string) {
    exists p | 0 <= p <= |s| :: At(s, m, p)
  }

  // The number of matches a left-to-right scan without overlaps finds.
  function Matches(s: string, m: string): nat
    requires m != ""
  {
    if |s| < |m| then 0
    else if s[..|m|] == m then 1 + Matches(s[|m|..], m)
    else Matches(s[1..], m)
  }

  function ReplaceFirst(s: string, m: string, value: string): string
    requires m != ""
  {
    if |s| < |m| then s
    else if s[..|m|] == m then value + s[|m|..]
    else [s[0]] + ReplaceFirst(s[1..], m, value)
  }

  predicate Plain(s: string) {
    forall i :: 0 <= i < |s| ==> s[i] != '[' && s[i] != ']'
  }

  ghost predicate Bracketed(m: string) {
    |m| >= 2 && m[0] == '[' && m[|m| - 1] == ']' && Plain(m[1..|m| - 1])
  }

  lemma BracketedAt(m: string, i: nat)
    requires Bracketed(m) && i < |m|
    ensures m[i] == '[' <==> i == 0
    ensures m[i] == ']' <==> i == |m| - 1
  {
    if 0 < i < |m| - 1 {
      assert m[i] == m[1..|m| - 1][i - 1];
    }
  }

  lemma AtIndex(s: string, m: string, p: int, i: nat)
    requires At(s, m, p) && i < |m|
    ensures s[p + i] == m[i]
  {
    assert s[p + i] == s[p..p + |m|][i];
  }

  // Two markers that share a position are one marker at one place.
  lemma MarkersMeet(s: string, m: string, p: int, n: string, q: int)
    requires Bracketed(m) && Bracketed(n)
    requires At(s, m, p) && At(s, n, q)
    requires p <= q < p + |m|
    ensures p == q && m == n
  {
    AtIndex(s, n, q, 0);
    AtIndex(s, m, p, q - p);
    BracketedAt(m, q - p);
    var last := if |m| < |n| then |m| - 1 else |n| - 1;
    AtIndex(s, m, p, last);
    AtIndex(s, n, q, last);
    BracketedAt(m, last);
    BracketedAt(n, last);
  }

  lemma {:induction false} MatchesIffContains(s: string, m: string)
    requires m != ""
    ensures 0 < Matches(s, m) <==> Contains(s, m)
  {
    if |s| < |m| {
    } else if s[..|m|] == m {
      assert At(s, m, 0);
    } else {
      MatchesIffContains(s[1..], m);
      if Contains(s, m) {
        var p :| 0 <= p <= |s| && At(s, m, p);
        assert p != 0;
        assert s[1..][p - 1..p - 1 + |m|] == s[p..p + |m|];
        assert At(s[1..], m, p - 1);
      }
      if Contains(s[1..], m) {
        var p :| 0 <= p <= |s[1..]| && At(s[1..], m, p);
        assert s[1..][p..p + |m|] == s[p + 1..p + 1 + |m|];
        assert At(s, m, p + 1);
      }
    }
  }

  lemma ContainsInside(a: string, s: string, b: string, m: string)
    requires Contains(s, m)
    ensures Contains(a + s + b, m)
  {
    var p :| 0 <= p <= |s| && At(s, m, p);
    assert (a + s + b)[|a| + p..|a| + p + |m|] == s[p..p + |m|];
    assert At(a + s + b, m, |a| + p);
  }

  lemma AbsentInside(a: string, s: string, b: string, m: string)
    requires m != "" && Matches(a + s + b, m) == 0
    ensures Matches(s, m) == 0
  {
    MatchesIffContains(s, m);
    MatchesIffContains(a + s + b, m);
    if Contains(s, m) {
      ContainsInside(a, s, b, m);
    }
  }

  // No match of `m` starts inside another marker.
  lemma {:induction false} NoMatchInside(n: string, b: string, m: string, k: nat)
    requires Bracketed(m) && Bracketed(n) && m != n && k <= |n|
    ensures Matches(n[k..] + b, m) == Matches(b, m)
    decreases |n| - k
  {
    assert m != "";
    hide Matches, Bracketed;
    var s := n[k..] + b;
    if k == |n| {
      assert s == b;
    } else {
      NoMatchInside(n, b, m, k + 1);
      assert s[1..] == n[k + 1..] + b;
      MatchesStep(s, m);
      MatchesStep(b, m);
      if |s| >= |m| && s[..|m|] == m {
        var whole := n + b;
        assert whole[..|n|] == n;
        assert whole[k..k + |m|] == s[..|m|];
        MarkersMeet(whole, n, 0, m, k);
      }
    }
  }

  lemma MatchesStep(s: string, m: string)
    requires m != ""
    ensures |s| < |m| ==> Matches(s, m) == 0
    ensures |s| >= |m| ==> Matches(s, m) == if s[..|m|] == m then 1 + Matches(s[|m|..], m) else Matches(s[1..], m)
  {
  }

  lemma NotEmpty(m: string)
    requires Bracketed(m)
    ensures m != ""
  {
  }

  // A marker does not reach into the marker after it.
  lemma NoOverlap(a: string, n: string, b: string, m: string)
    requires Bracketed(m) && Bracketed(n) && a != ""
    requires |a + n + b| >= |m| && (a + n + b)[..|m|] == m
    ensures |a| >= |m|
  {
    hide Bracketed;
    if |a| < |m| {
      assert (a + n + b)[|a|..|a| + |n|] == n;
      MarkersMeet(a + n + b, m, 0, n, |a|);
    }
  }

  lemma FrontOf(a: string, n: string, b: string, k: nat)
    requires k <= |a|
    ensures (a + n + b)[..k] == a[..k] && (a + n + b)[k..] == a[k..] + n + b
  {
  }

  // A marker between two texts adds itself to the matches and changes no other.
  lemma {:induction false} MatchesAround(a: string, n: string, b: string, m: string)
    requires Bracketed(m) && Bracketed(n)
    ensures Matches(a + n + b, m) == Matches(a, m) + (if n == m then 1 else 0) + Matches(b, m)
    decreases |a|
  {
    hide *;
    NotEmpty(m);
    var s := a + n + b;
    MatchesStep(s, m);
    MatchesStep(a, m);
    if a == "" {
      FirstMatch(n, b, m);
      assert s == n + b;
    } else if |s| < |m| {
      MatchesStep(b, m);
    } else if s[..|m|] == m {
      NoOverlap(a, n, b, m);
      FrontOf(a, n, b, |m|);
      MatchesAround(a[|m|..], n, b, m);
    } else {
      FrontOf(a, n, b, 1);
      MatchesAround(a[1..], n, b, m);
      MatchesStep(a[1..], m);
      if |a| >= |m| {
        FrontOf(a, n, b, |m|);
      }
    }
  }

  lemma FirstMatch(n: string, b: string, m: string)
    requires Bracketed(m) && Bracketed(n) && m != ""
    ensures Matches(n + b, m) == (if n == m then 1 else 0) + Matches(b, m)
  {
    hide Bracketed;
    if n == m {
      assert (n + b)[..|m|] == m && (n + b)[|m|..] == b;
    } else {
      hide Matches;
      NoMatchInside(n, b, m, 0);
      assert n[0..] + b == n + b;
    }
  }

  lemma {:induction false} ReplaceAround(a: string, m: string, b: string, value: string)
    requires Bracketed(m) && Matches(a, m) == 0
    ensures ReplaceFirst(a + m + b, m, value) == a + value + b
    decreases |a|
  {
    var s := a + m + b;
    if a == "" {
      assert s[..|m|] == m && s[|m|..] == b;
      assert a + value + b == value + b;
    } else {
      if |a| >= |m| {
        assert s[..|m|] == a[..|m|];
      } else if At(s, m, 0) {
        assert s[|a|..|a| + |m|] == m;
        MarkersMeet(s, m, 0, m, |a|);
      }
      assert s[1..] == a[1..] + m + b;
      assert [a[0]] + (a[1..] + value + b) == a + value + b;
      ReplaceAround(a[1..], m, b, value);
    }
  }
}
