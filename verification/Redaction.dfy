// Restorable redaction: passes replace private values by numbered markers, and
// `Restore` puts the values back into a text that kept every marker.
module Redaction {
  // A regular expression is an arbitrary choice of ascending spans of the current
  // text. A redaction is then a list of cuts, each replacing one span of the
  // current text by the next marker.

  import opened Wrappers
  import opened Markers

  datatype Kind = Credential | Email | Iban | SocialSecurityNumber | PaymentCard | CardSecurityCode | Phone

  function MarkerName(kind: Kind): string {
    match kind
    case Credential => "CREDENTIAL"
    case Email => "EMAIL"
    case Iban => "IBAN"
    case SocialSecurityNumber => "SSN"
    case PaymentCard => "CARD"
    case CardSecurityCode => "CVV"
    case Phone => "PHONE"
  }

  // What each pass of a restorable redaction looks for, in order.
  const PASS_COUNT := 13

  function PassKind(pass: nat): Kind
    requires pass < PASS_COUNT
  {
    if pass < 7 then Credential
    else if pass == 7 then Email
    else if pass == 8 then Iban
    else if pass == 9 then SocialSecurityNumber
    else if pass == 10 then PaymentCard
    else if pass == 11 then CardSecurityCode
    else Phone
  }

  lemma KindsInOrder()
    ensures seq(PASS_COUNT, i requires 0 <= i < PASS_COUNT => PassKind(i))
         == [Credential, Credential, Credential, Credential, Credential, Credential, Credential,
             Email, Iban, SocialSecurityNumber, PaymentCard, CardSecurityCode, Phone]
  {
  }

  function Decimal(n: nat): string {
    if n < 10 then [('0' as int + n) as char] else Decimal(n / 10) + [('0' as int + n % 10) as char]
  }

  function Prefix(nonce: string): string { "[WOOF_REDACTED_" + nonce + "_" }

  function Marker(nonce: string, kind: Kind, index: nat): string {
    Prefix(nonce) + MarkerName(kind) + "_" + Decimal(index) + "]"
  }

  datatype Slot = Slot(marker: string, value: string)

  datatype RestoreError = MissingPlaceholder | DuplicatedPlaceholder | UnexpectedPlaceholder

  // ---- Markers are distinct -------------------------------------------------

  lemma {:induction false} DecimalDigits(n: nat)
    ensures Decimal(n) != ""
    ensures forall i :: 0 <= i < |Decimal(n)| ==> '0' <= Decimal(n)[i] <= '9'
  {
    if n >= 10 {
      DecimalDigits(n / 10);
    }
  }

  lemma {:induction false} DecimalIsInjective(m: nat, n: nat)
    requires Decimal(m) == Decimal(n)
    ensures m == n
  {
    DecimalDigits(m / 10);
    DecimalDigits(n / 10);
    var d := Decimal(m);
    assert d[|d| - 1] == ('0' as int + m % 10) as char;
    assert d[|d| - 1] == ('0' as int + n % 10) as char;
    if m >= 10 && n >= 10 {
      assert d[..|d| - 1] == Decimal(m / 10);
      assert d[..|d| - 1] == Decimal(n / 10);
      DecimalIsInjective(m / 10, n / 10);
    }
  }

  lemma PlainDecimal(index: nat)
    ensures Plain(Decimal(index))
  {
    DecimalDigits(index);
  }

  lemma PlainConcat(a: string, b: string)
    requires Plain(a) && Plain(b)
    ensures Plain(a + b)
  {
  }

  lemma PrefixOpens(nonce: string)
    requires Plain(nonce)
    ensures Prefix(nonce)[0] == '[' && Plain(Prefix(nonce)[1..])
  {
    var p := Prefix(nonce);
    var word := "[WOOF_REDACTED_";
    assert Plain(word[1..]) && Plain("_");
    assert p[1..] == word[1..] + nonce + "_";
  }

  lemma BracketedBetween(head: string, tail: string)
    requires head != "" && head[0] == '[' && Plain(head[1..]) && Plain(tail)
    ensures Bracketed(head + tail + "]")
  {
    var m := head + tail + "]";
    PlainConcat(head[1..], tail);
    assert m[1..|m| - 1] == head[1..] + tail;
  }

  lemma MarkerIsBracketed(nonce: string, kind: Kind, index: nat)
    requires Plain(nonce)
    ensures Bracketed(Marker(nonce, kind, index))
    ensures Prefix(nonce) <= Marker(nonce, kind, index)
  {
    var head, name, digits := Prefix(nonce), MarkerName(kind), Decimal(index);
    assert Plain(name) && Plain("_");
    PlainDecimal(index);
    PrefixOpens(nonce);
    hide *;
    PlainConcat(name, "_");
    PlainConcat(name + "_", digits);
    BracketedBetween(head, name + "_" + digits);
    MarkerParts(nonce, kind, index);
  }

  lemma MarkerParts(nonce: string, kind: Kind, index: nat)
    ensures Marker(nonce, kind, index) == Prefix(nonce) + (MarkerName(kind) + "_" + Decimal(index)) + "]"
    ensures Marker(nonce, kind, index) == Prefix(nonce) + (MarkerName(kind) + "_" + (Decimal(index) + "]"))
  {
    hide Prefix, MarkerName, Decimal;
  }

  lemma NameHasNoSeparator(kind: Kind)
    ensures '_' !in MarkerName(kind)
  {
  }

  lemma {:induction false} SplitAtSeparator(a: string, r: string, b: string, t: string)
    requires a + "_" + r == b + "_" + t && '_' !in a && '_' !in b
    ensures r == t
  {
    var s := a + "_" + r;
    if a == "" || b == "" {
      assert a == "" <==> s[0] == '_';
      assert b == "" <==> s[0] == '_';
      assert r == s[1..] && t == s[1..];
    } else {
      assert s[1..] == a[1..] + "_" + r && s[1..] == b[1..] + "_" + t;
      SplitAtSeparator(a[1..], r, b[1..], t);
    }
  }

  lemma MarkersAreDistinct(nonce: string, k: Kind, i: nat, l: Kind, j: nat)
    requires Marker(nonce, k, i) == Marker(nonce, l, j)
    ensures i == j
  {
    NameHasNoSeparator(k);
    NameHasNoSeparator(l);
    hide Decimal, MarkerName, Prefix;
    var head, m := Prefix(nonce), Marker(nonce, k, i);
    var a, b := MarkerName(k) + "_" + (Decimal(i) + "]"), MarkerName(l) + "_" + (Decimal(j) + "]");
    MarkerParts(nonce, k, i);
    MarkerParts(nonce, l, j);
    assert a == m[|head|..] && b == m[|head|..];
    SplitAtSeparator(MarkerName(k), Decimal(i) + "]", MarkerName(l), Decimal(j) + "]");
    assert (Decimal(i) + "]")[..|Decimal(i)|] == Decimal(i);
    assert (Decimal(j) + "]")[..|Decimal(j)|] == Decimal(j);
    DecimalIsInjective(i, j);
  }

  // A marker tells its kind and its number.
  lemma MarkerTells(nonce: string, a: Kind, b: Kind, i: nat, j: nat)
    requires Marker(nonce, a, i) == Marker(nonce, b, j)
    ensures a == b && i == j
  {
    MarkersAreDistinct(nonce, a, i, b, j);
    var head, tail := Prefix(nonce), "_" + Decimal(i) + "]";
    hide Prefix, Decimal;
    assert Marker(nonce, a, i) == head + MarkerName(a) + tail;
    assert Marker(nonce, b, i) == head + MarkerName(b) + tail;
    SameMiddle(head, MarkerName(a), MarkerName(b), tail);
  }

  lemma SameMiddle(head: string, x: string, y: string, tail: string)
    requires head + x + tail == head + y + tail
    ensures x == y
  {
    assert |x| == |y|;
    assert (head + x + tail)[|head|..|head| + |x|] == x;
    assert (head + y + tail)[|head|..|head| + |y|] == y;
  }

  // A text without the prefix holds no marker.
  lemma NoPrefixNoMarker(s: string, nonce: string, m: string)
    requires Prefix(nonce) <= m && !Contains(s, Prefix(nonce))
    ensures Matches(s, m) == 0
  {
    MatchesIffContains(s, m);
    if Contains(s, m) {
      var p :| 0 <= p <= |s| && At(s, m, p);
      assert s[p..p + |m|][..|Prefix(nonce)|] == s[p..p + |Prefix(nonce)|];
      assert At(s, Prefix(nonce), p);
    }
  }

  // ---- Cuts -------------------------------------------------------------------

  datatype Cut = Cut(kind: Kind, start: int, end: int)

  // `size` is the length of the text the first cut is made in, `k` the number of
  // slots so far.
  predicate ValidCuts(size: int, nonce: string, k: nat, cuts: seq<Cut>)
    decreases |cuts|
  {
    cuts == [] ||
    var c := cuts[0];
    0 <= c.start <= c.end <= size
    && ValidCuts(size - (c.end - c.start) + |Marker(nonce, c.kind, k)|, nonce, k + 1, cuts[1..])
  }

  function Splice(text: string, start: int, end: int, marker: string): (r: string)
    requires 0 <= start <= end <= |text|
    ensures |r| == |text| - (end - start) + |marker|
  {
    text[..start] + marker + text[end..]
  }

  function CutText(text: string, nonce: string, k: nat, cuts: seq<Cut>): string
    requires ValidCuts(|text|, nonce, k, cuts)
    decreases |cuts|
  {
    if cuts == [] then text
    else
      var c := cuts[0];
      CutText(Splice(text, c.start, c.end, Marker(nonce, c.kind, k)), nonce, k + 1, cuts[1..])
  }

  function CutSlots(text: string, nonce: string, k: nat, cuts: seq<Cut>): (r: seq<Slot>)
    requires ValidCuts(|text|, nonce, k, cuts)
    ensures |r| == |cuts|
    ensures forall i :: 0 <= i < |r| ==> r[i].marker != ""
    decreases |cuts|
  {
    if cuts == [] then []
    else
      var c := cuts[0];
      var m := Marker(nonce, c.kind, k);
      [Slot(m, text[c.start..c.end])]
      + CutSlots(Splice(text, c.start, c.end, m), nonce, k + 1, cuts[1..])
  }

  predicate Restorable(slots: seq<Slot>) {
    forall i :: 0 <= i < |slots| ==> slots[i].marker != ""
  }

  // What restoring does to a text, slot by slot.
  function Restored(text: string, nonce: string, slots: seq<Slot>): Result<string, RestoreError>
    requires Restorable(slots)
    decreases |slots|
  {
    if slots == [] then
      if Contains(text, Prefix(nonce)) then Err(UnexpectedPlaceholder) else Ok(text)
    else
      var n := Matches(text, slots[0].marker);
      if n == 0 then Err(MissingPlaceholder)
      else if n == 1 then
        Restored(ReplaceFirst(text, slots[0].marker, slots[0].value), nonce, slots[1..])
      else Err(DuplicatedPlaceholder)
  }

  // ---- A marker between two texts, and what later cuts do to it ------------------

  // No cut takes in any of the `size` characters at `p`, or splits them.
  predicate Untouched(p: int, size: nat, nonce: string, k: nat, cuts: seq<Cut>)
    decreases |cuts|
  {
    cuts == [] ||
    var c := cuts[0];
    if c.end <= p then
      Untouched(p - (c.end - c.start) + |Marker(nonce, c.kind, k)|, size, nonce, k + 1, cuts[1..])
    else
      p + size <= c.start && Untouched(p, size, nonce, k + 1, cuts[1..])
  }

  // No cut touches the marker of an earlier one.
  predicate Undisturbed(nonce: string, k: nat, cuts: seq<Cut>)
    decreases |cuts|
  {
    cuts == [] ||
    (Untouched(cuts[0].start, |Marker(nonce, cuts[0].kind, k)|, nonce, k + 1, cuts[1..])
     && Undisturbed(nonce, k + 1, cuts[1..]))
  }

  // The same cuts when the place at `p` holds `other` characters instead of `size`.
  function Shift(p: int, size: nat, other: nat, nonce: string, k: nat, cuts: seq<Cut>): (r: seq<Cut>)
    ensures |r| == |cuts|
    decreases |cuts|
  {
    if cuts == [] then []
    else
      var c := cuts[0];
      if c.end <= p then
        var q := p - (c.end - c.start) + |Marker(nonce, c.kind, k)|;
        [c] + Shift(q, size, other, nonce, k + 1, cuts[1..])
      else
        [Cut(c.kind, c.start + other - size, c.end + other - size)]
        + Shift(p, size, other, nonce, k + 1, cuts[1..])
  }

  lemma SpliceLeft(a: string, x: string, b: string, i: int, j: int, marker: string)
    requires 0 <= i <= j <= |a|
    ensures Splice(a + x + b, i, j, marker) == Splice(a, i, j, marker) + x + b
    ensures (a + x + b)[i..j] == a[i..j]
  {
  }

  lemma SpliceRight(a: string, x: string, b: string, i: int, j: int, marker: string)
    requires 0 <= i <= j <= |b|
    ensures Splice(a + x + b, |a| + |x| + i, |a| + |x| + j, marker) == a + x + Splice(b, i, j, marker)
    ensures (a + x + b)[|a| + |x| + i..|a| + |x| + j] == b[i..j]
  {
  }

  // The first of some cuts, then the others.
  lemma FirstCut(text: string, nonce: string, k: nat, c: Cut, rest: seq<Cut>)
    requires 0 <= c.start <= c.end <= |text|
    requires ValidCuts(|Splice(text, c.start, c.end, Marker(nonce, c.kind, k))|, nonce, k + 1, rest)
    ensures ValidCuts(|text|, nonce, k, [c] + rest)
    ensures var next := Splice(text, c.start, c.end, Marker(nonce, c.kind, k));
            CutText(text, nonce, k, [c] + rest) == CutText(next, nonce, k + 1, rest)
            && CutSlots(text, nonce, k, [c] + rest)
            == [Slot(Marker(nonce, c.kind, k), text[c.start..c.end])] + CutSlots(next, nonce, k + 1, rest)
  {
    assert ([c] + rest)[1..] == rest;
  }

  // One cut beside an untouched place: `p1` is where the place moves to, and `d`
  // the same cut when the place holds `other` characters.
  lemma PlaceBeside(total: int, p: int, size: nat, other: nat, nonce: string, k: nat, c: Cut, rest: seq<Cut>)
    returns (p1: int, d: Cut)
    requires 0 < size
    requires ValidCuts(total, nonce, k, [c] + rest)
    requires Untouched(p, size, nonce, k, [c] + rest)
    ensures var inserted := |Marker(nonce, c.kind, k)| - (c.end - c.start);
            0 <= c.start <= c.end <= total
            && (if c.end <= p then p1 == p + inserted && d == c
                else p1 == p && p + size <= c.start
                     && d == Cut(c.kind, c.start + other - size, c.end + other - size))
            && ValidCuts(total + inserted, nonce, k + 1, rest)
    ensures Untouched(p1, size, nonce, k + 1, rest)
    ensures Shift(p, size, other, nonce, k, [c] + rest) == [d] + Shift(p1, size, other, nonce, k + 1, rest)
  {
    assert ([c] + rest)[1..] == rest;
    hide Marker;
    if c.end <= p {
      p1, d := p + |Marker(nonce, c.kind, k)| - (c.end - c.start), c;
    } else {
      p1, d := p, Cut(c.kind, c.start + other - size, c.end + other - size);
    }
  }

  lemma CutBeside(a: string, m: string, v: string, b: string, nonce: string, k: nat, c: Cut, rest: seq<Cut>)
    returns (a1: string, b1: string, d: Cut)
    requires m != ""
    requires ValidCuts(|a + m + b|, nonce, k, [c] + rest)
    requires Untouched(|a|, |m|, nonce, k, [c] + rest)
    ensures 0 <= c.start <= c.end <= |a + m + b| && 0 <= d.start <= d.end <= |a + v + b| && c.kind == d.kind
    ensures Splice(a + m + b, c.start, c.end, Marker(nonce, c.kind, k)) == a1 + m + b1
    ensures Splice(a + v + b, d.start, d.end, Marker(nonce, c.kind, k)) == a1 + v + b1
    ensures (a + m + b)[c.start..c.end] == (a + v + b)[d.start..d.end]
    ensures ValidCuts(|a1 + m + b1|, nonce, k + 1, rest)
    ensures Untouched(|a1|, |m|, nonce, k + 1, rest)
    ensures Shift(|a|, |m|, |v|, nonce, k, [c] + rest) == [d] + Shift(|a1|, |m|, |v|, nonce, k + 1, rest)
  {
    hide *;
    var p1;
    p1, d := PlaceBeside(|a + m + b|, |a|, |m|, |v|, nonce, k, c, rest);
    var marker := Marker(nonce, c.kind, k);
    if c.end <= |a| {
      SpliceLeft(a, m, b, c.start, c.end, marker);
      SpliceLeft(a, v, b, c.start, c.end, marker);
      a1, b1 := Splice(a, c.start, c.end, marker), b;
    } else {
      var i, j := c.start - |a| - |m|, c.end - |a| - |m|;
      SpliceRight(a, m, b, i, j, marker);
      SpliceRight(a, v, b, i, j, marker);
      a1, b1 := a, Splice(b, i, j, marker);
    }
    assert |a1| == p1;
  }

  // Replacing an untouched place commutes with the cuts around it.
  lemma {:induction false} CutsAround(a: string, m: string, v: string, b: string,
                                      nonce: string, k: nat, cuts: seq<Cut>)
    returns (a': string, b': string)
    requires m != ""
    requires ValidCuts(|a + m + b|, nonce, k, cuts)
    requires Untouched(|a|, |m|, nonce, k, cuts)
    ensures ValidCuts(|a + v + b|, nonce, k, Shift(|a|, |m|, |v|, nonce, k, cuts))
    ensures CutText(a + m + b, nonce, k, cuts) == a' + m + b'
    ensures CutText(a + v + b, nonce, k, Shift(|a|, |m|, |v|, nonce, k, cuts)) == a' + v + b'
    ensures CutSlots(a + m + b, nonce, k, cuts)
         == CutSlots(a + v + b, nonce, k, Shift(|a|, |m|, |v|, nonce, k, cuts))
    decreases |cuts|
  {
    if cuts == [] {
      a', b' := a, b;
    } else {
      hide *;
      var c, rest := cuts[0], cuts[1..];
      assert [c] + rest == cuts;
      var a1, b1, d := CutBeside(a, m, v, b, nonce, k, c, rest);
      a', b' := CutsAround(a1, m, v, b1, nonce, k + 1, rest);
      FirstCut(a + m + b, nonce, k, c, rest);
      FirstCut(a + v + b, nonce, k, d, Shift(|a1|, |m|, |v|, nonce, k + 1, rest));
    }
  }

  // ---- How often a marker occurs after later cuts ------------------------------

  lemma PartsLackMarker(text: string, start: int, end: int, m: string)
    requires m != "" && Matches(text, m) == 0 && 0 <= start <= end <= |text|
    ensures Matches(text[..start], m) == 0 && Matches(text[end..], m) == 0
  {
    hide *;
    assert text == "" + text[..start] + text[start..];
    assert text == text[..end] + text[end..] + "";
    AbsentInside("", text[..start], text[start..], m);
    AbsentInside(text[..end], text[end..], "", m);
  }

  lemma SpliceAbsent(text: string, start: int, end: int, n: string, m: string)
    requires 0 <= start <= end <= |text| && Bracketed(m) && Bracketed(n) && m != n
    requires Matches(text, m) == 0
    ensures Matches(Splice(text, start, end, n), m) == 0
  {
    PartsLackMarker(text, start, end, m);
    MatchesAround(text[..start], n, text[end..], m);
  }

  lemma HeadCut(size: int, nonce: string, k: nat, c: Cut, rest: seq<Cut>)
    requires ValidCuts(size, nonce, k, [c] + rest)
    ensures 0 <= c.start <= c.end <= size
    ensures ValidCuts(size - (c.end - c.start) + |Marker(nonce, c.kind, k)|, nonce, k + 1, rest)
  {
    assert ([c] + rest)[1..] == rest;
  }

  // The marker of a slot, as other markers of the redaction see it.
  lemma MarkerApart(nonce: string, kind: Kind, i: nat, other: Kind, k: nat)
    requires Plain(nonce) && i != k
    ensures Bracketed(Marker(nonce, kind, i)) && Bracketed(Marker(nonce, other, k))
    ensures Marker(nonce, kind, i) != Marker(nonce, other, k)
  {
    MarkerIsBracketed(nonce, kind, i);
    MarkerIsBracketed(nonce, other, k);
    if Marker(nonce, kind, i) == Marker(nonce, other, k) {
      MarkersAreDistinct(nonce, kind, i, other, k);
    }
  }

  lemma NothingCut(text: string, nonce: string, k: nat)
    ensures ValidCuts(|text|, nonce, k, []) && CutText(text, nonce, k, []) == text
  {
  }

  lemma {:induction false} CutsAddNoOther(text: string, nonce: string, k: nat, cuts: seq<Cut>, kind: Kind, i: nat)
    requires Plain(nonce) && i < k && ValidCuts(|text|, nonce, k, cuts)
    requires Matches(text, Marker(nonce, kind, i)) == 0
    ensures Matches(CutText(text, nonce, k, cuts), Marker(nonce, kind, i)) == 0
    decreases |cuts|
  {
    hide *;
    if cuts == [] {
      NothingCut(text, nonce, k);
    } else {
      var c, rest := cuts[0], cuts[1..];
      assert cuts == [c] + rest;
      var n := Marker(nonce, c.kind, k);
      HeadCut(|text|, nonce, k, c, rest);
      MarkerApart(nonce, kind, i, c.kind, k);
      SpliceAbsent(text, c.start, c.end, n, Marker(nonce, kind, i));
      FirstCut(text, nonce, k, c, rest);
      CutsAddNoOther(Splice(text, c.start, c.end, n), nonce, k + 1, rest, kind, i);
    }
  }

  lemma StaysLost(text: string, nonce: string, k: nat, cuts: seq<Cut>, m: string, kind: Kind, i: nat)
    requires Plain(nonce) && i < k && m == Marker(nonce, kind, i)
    requires ValidCuts(|text|, nonce, k, cuts)
    requires Matches(text, m) == 0
    ensures Matches(CutText(text, nonce, k, cuts), m) == 0
  {
    hide *;
    CutsAddNoOther(text, nonce, k, cuts, kind, i);
  }

  lemma OnlyMatch(a: string, m: string, b: string, p: int)
    requires Bracketed(m) && Matches(a, m) == 0 && Matches(b, m) == 0
    requires At(a + m + b, m, p)
    ensures p == |a|
  {
    var s := a + m + b;
    assert At(s, m, |a|);
    if p + |m| <= |a| {
      assert a[p..p + |m|] == s[p..p + |m|];
      assert At(a, m, p);
      MatchesIffContains(a, m);
    } else if |a| + |m| <= p {
      var q := p - |a| - |m|;
      assert b[q..q + |m|] == s[p..p + |m|];
      assert At(b, m, q);
      MatchesIffContains(b, m);
    } else if p <= |a| {
      MarkersMeet(s, m, p, m, |a|);
    } else {
      MarkersMeet(s, m, |a|, m, p);
    }
  }

  lemma NoMatchBefore(a: string, m: string, b: string, start: nat)
    requires Bracketed(m) && Matches(a, m) == 0 && Matches(b, m) == 0
    requires start <= |a + m + b| && start < |a| + |m|
    ensures Matches((a + m + b)[..start], m) == 0
  {
    assert m != "";
    hide Matches, Bracketed;
    var left := (a + m + b)[..start];
    MatchesIffContains(left, m);
    if Contains(left, m) {
      var p :| 0 <= p <= |left| && At(left, m, p);
      assert (a + m + b)[p..p + |m|] == left[p..p + |m|];
      OnlyMatch(a, m, b, p);
    }
  }

  lemma NoMatchAfter(a: string, m: string, b: string, end: nat)
    requires Bracketed(m) && Matches(a, m) == 0 && Matches(b, m) == 0
    requires |a| < end <= |a + m + b|
    ensures Matches((a + m + b)[end..], m) == 0
  {
    assert m != "";
    hide Matches, Bracketed;
    var right := (a + m + b)[end..];
    MatchesIffContains(right, m);
    if Contains(right, m) {
      var p :| 0 <= p <= |right| && At(right, m, p);
      assert (a + m + b)[end + p..end + p + |m|] == right[p..p + |m|];
      OnlyMatch(a, m, b, end + p);
    }
  }

  // A cut that takes in part of the only match leaves none.
  lemma TouchedIsLost(a: string, m: string, b: string, start: int, end: int, n: string)
    requires Bracketed(m) && Bracketed(n) && m != n && Matches(a, m) == 0 && Matches(b, m) == 0
    requires 0 <= start <= end <= |a + m + b| && |a| < end && start < |a| + |m|
    ensures Matches(Splice(a + m + b, start, end, n), m) == 0
  {
    hide Matches, Bracketed;
    NoMatchBefore(a, m, b, start);
    NoMatchAfter(a, m, b, end);
    MatchesAround((a + m + b)[..start], n, (a + m + b)[end..], m);
  }

  lemma UntouchedStep(p: int, size: nat, nonce: string, k: nat, c: Cut, rest: seq<Cut>)
    ensures Untouched(p, size, nonce, k, [c] + rest) <==>
            if c.end <= p then
              Untouched(p - (c.end - c.start) + |Marker(nonce, c.kind, k)|, size, nonce, k + 1, rest)
            else p + size <= c.start && Untouched(p, size, nonce, k + 1, rest)
  {
    assert ([c] + rest)[1..] == rest;
  }

  lemma UndisturbedStep(nonce: string, k: nat, c: Cut, rest: seq<Cut>)
    ensures Undisturbed(nonce, k, [c] + rest) <==>
            Untouched(c.start, |Marker(nonce, c.kind, k)|, nonce, k + 1, rest) && Undisturbed(nonce, k + 1, rest)
  {
    assert ([c] + rest)[1..] == rest;
  }

  // Of a marker that occurs once, later cuts keep the one match or none.
  lemma {:induction false} LaterCutsCount(a: string, b: string, nonce: string, k: nat, cuts: seq<Cut>,
                                          m: string, kind: Kind, i: nat)
    requires Plain(nonce) && i < k && m == Marker(nonce, kind, i)
    requires ValidCuts(|a + m + b|, nonce, k, cuts)
    requires Matches(a, m) == 0 && Matches(b, m) == 0
    ensures Matches(CutText(a + m + b, nonce, k, cuts), m) == if Untouched(|a|, |m|, nonce, k, cuts) then 1 else 0
    decreases |cuts|
  {
    hide Matches, Marker, Splice, ValidCuts, CutSlots, Plain;
    if cuts == [] {
      MarkerIsBracketed(nonce, kind, i);
      MatchesAround(a, m, b, m);
    } else {
      hide *;
      var c, rest := cuts[0], cuts[1..];
      var n := Marker(nonce, c.kind, k);
      assert cuts == [c] + rest;
      HeadCut(|a + m + b|, nonce, k, c, rest);
      UntouchedStep(|a|, |m|, nonce, k, c, rest);
      MarkerApart(nonce, kind, i, c.kind, k);
      FirstCut(a + m + b, nonce, k, c, rest);
      if c.end <= |a| {
        SpliceLeft(a, m, b, c.start, c.end, n);
        SpliceAbsent(a, c.start, c.end, n, m);
        LaterCutsCount(Splice(a, c.start, c.end, n), b, nonce, k + 1, rest, m, kind, i);
      } else if |a| + |m| <= c.start {
        var p, q := c.start - |a| - |m|, c.end - |a| - |m|;
        SpliceRight(a, m, b, p, q, n);
        SpliceAbsent(b, p, q, n, m);
        LaterCutsCount(a, Splice(b, p, q, n), nonce, k + 1, rest, m, kind, i);
      } else {
        TouchedIsLost(a, m, b, c.start, c.end, n);
        StaysLost(Splice(a + m + b, c.start, c.end, n), nonce, k + 1, rest, m, kind, i);
      }
    }
  }

  // ---- The places of later markers when one marker is put back --------------------

  // The place at `q`, beside the place at `p`, when that holds `other` characters.
  function Beside(q: int, len: nat, p: int, size: nat, other: nat): int {
    if q + len <= p then q else q + other - size
  }

  // Where the places stand after a cut that ends at or before `q`.
  lemma PlacesAfterCut(q: int, len: nat, p: int, size: nat, other: nat, c: Cut, d: Cut, p1: int, grown: int)
    requires 0 < len && 0 < size && (q + len <= p || p + size <= q)
    requires c.start <= c.end && grown >= c.start - c.end
    requires if c.end <= p then p1 == p + grown && d == c
             else p1 == p && p + size <= c.start && d == Cut(c.kind, c.start + other - size, c.end + other - size)
    ensures d.end <= Beside(q, len, p, size, other) <==> c.end <= q
    ensures c.end > q ==> (Beside(q, len, p, size, other) + len <= d.start <==> q + len <= c.start)
    ensures c.end <= q ==>
              Beside(q + grown, len, p1, size, other) == Beside(q, len, p, size, other) + grown
              && (q + grown + len <= p1 || p1 + size <= q + grown)
    ensures c.end > q && q + len <= c.start ==>
              Beside(q, len, p1, size, other) == Beside(q, len, p, size, other)
              && (q + len <= p1 || p1 + size <= q)
  {
  }

  lemma {:induction false} ShiftKeepsUntouched(total: int, q: int, len: nat, p: int, size: nat, other: nat,
                                               nonce: string, k: nat, cuts: seq<Cut>)
    requires 0 < len && 0 < size && (q + len <= p || p + size <= q)
    requires ValidCuts(total, nonce, k, cuts) && Untouched(p, size, nonce, k, cuts)
    ensures Untouched(q, len, nonce, k, cuts)
       <==> Untouched(Beside(q, len, p, size, other), len, nonce, k, Shift(p, size, other, nonce, k, cuts))
    decreases |cuts|
  {
    hide *;
    if cuts == [] {
      NothingShifts(q, len, p, size, other, nonce, k);
    } else {
      var c, rest := cuts[0], cuts[1..];
      assert cuts == [c] + rest;
      var p1, d := PlaceBeside(total, p, size, other, nonce, k, c, rest);
      var grown := |Marker(nonce, c.kind, k)| - (c.end - c.start);
      PlacesAfterCut(q, len, p, size, other, c, d, p1, grown);
      UntouchedStep(q, len, nonce, k, c, rest);
      UntouchedStep(Beside(q, len, p, size, other), len, nonce, k, d, Shift(p1, size, other, nonce, k + 1, rest));
      if c.end <= q {
        ShiftKeepsUntouched(total + grown, q + grown, len, p1, size, other, nonce, k + 1, rest);
      } else if q + len <= c.start {
        ShiftKeepsUntouched(total + grown, q, len, p1, size, other, nonce, k + 1, rest);
      }
    }
  }

  lemma NothingShifts(q: int, len: nat, p: int, size: nat, other: nat, nonce: string, k: nat)
    ensures Untouched(q, len, nonce, k, [])
    ensures Untouched(Beside(q, len, p, size, other), len, nonce, k, Shift(p, size, other, nonce, k, []))
  {
  }

  // The marker of a cut stands where its shifted cut begins.
  lemma CutMoves(len: nat, p: int, size: nat, other: nat, c: Cut, d: Cut, p1: int)
    requires 0 < len && 0 < size && c.start <= c.end
    requires if c.end <= p then p1 == p + len - (c.end - c.start) && d == c
             else p1 == p && p + size <= c.start && d == Cut(c.kind, c.start + other - size, c.end + other - size)
    ensures d.start == Beside(c.start, len, p1, size, other)
    ensures c.start + len <= p1 || p1 + size <= c.start
  {
  }

  lemma MarkerNotEmpty(nonce: string, kind: Kind, k: nat)
    ensures |Marker(nonce, kind, k)| > 0
  {
  }

  lemma NothingIsDisturbed(p: int, size: nat, other: nat, nonce: string, k: nat)
    ensures Undisturbed(nonce, k, []) && Undisturbed(nonce, k, Shift(p, size, other, nonce, k, []))
  {
  }

  lemma {:induction false} ShiftKeepsUndisturbed(total: int, p: int, size: nat, other: nat,
                                                 nonce: string, k: nat, cuts: seq<Cut>)
    requires 0 < size && ValidCuts(total, nonce, k, cuts) && Untouched(p, size, nonce, k, cuts)
    ensures Undisturbed(nonce, k, cuts) <==> Undisturbed(nonce, k, Shift(p, size, other, nonce, k, cuts))
    decreases |cuts|
  {
    hide *;
    if cuts == [] {
      NothingIsDisturbed(p, size, other, nonce, k);
    } else {
      var c, rest := cuts[0], cuts[1..];
      var m := Marker(nonce, c.kind, k);
      assert cuts == [c] + rest;
      MarkerNotEmpty(nonce, c.kind, k);
      var p1, d := PlaceBeside(total, p, size, other, nonce, k, c, rest);
      var shifted := Shift(p1, size, other, nonce, k + 1, rest);
      UndisturbedStep(nonce, k, c, rest);
      UndisturbedStep(nonce, k, d, shifted);
      var next := total + |m| - (c.end - c.start);
      CutMoves(|m|, p, size, other, c, d, p1);
      ShiftKeepsUntouched(next, c.start, |m|, p1, size, other, nonce, k + 1, rest);
      ShiftKeepsUndisturbed(next, p1, size, other, nonce, k + 1, rest);
    }
  }

  // ---- The round trip ---------------------------------------------------------------

  lemma BracketedNotEmpty(m: string)
    requires Bracketed(m)
    ensures m != ""
  {
  }

  lemma SpliceParts(text: string, start: int, end: int, m: string)
    requires 0 <= start <= end <= |text|
    ensures Splice(text, start, end, m) == text[..start] + m + text[end..]
  {
  }

  // The first marker put into a text without markers, and its first restoration.
  lemma CutOnce(a: string, v: string, b: string, nonce: string, k: nat, kind: Kind, rest: seq<Cut>)
    requires Plain(nonce) && !Contains(a + v + b, Prefix(nonce))
    ensures Bracketed(Marker(nonce, kind, k)) && Marker(nonce, kind, k) != ""
    ensures Matches(a, Marker(nonce, kind, k)) == 0 && Matches(b, Marker(nonce, kind, k)) == 0
  {
    hide *;
    var m := Marker(nonce, kind, k);
    MarkerIsBracketed(nonce, kind, k);
    BracketedNotEmpty(m);
    NoPrefixNoMarker(a + v + b, nonce, m);
    assert a + v + b == "" + a + (v + b) == (a + v) + b + "";
    AbsentInside("", a, v + b, m);
    AbsentInside(a + v, b, "", m);
  }

  // With its marker untouched the first slot gives back the text cut without it;
  // with its marker touched it is missing.
  lemma RestoreFirst(a: string, v: string, b: string, nonce: string, k: nat, kind: Kind, rest: seq<Cut>)
    requires Plain(nonce) && Bracketed(Marker(nonce, kind, k))
    requires Matches(a, Marker(nonce, kind, k)) == 0 && Matches(b, Marker(nonce, kind, k)) == 0
    requires ValidCuts(|a + Marker(nonce, kind, k) + b|, nonce, k + 1, rest)
    ensures var m := Marker(nonce, kind, k);
            var out := CutText(a + m + b, nonce, k + 1, rest);
            var slots := [Slot(m, v)] + CutSlots(a + m + b, nonce, k + 1, rest);
            if Untouched(|a|, |m|, nonce, k + 1, rest) then
              var shifted := Shift(|a|, |m|, |v|, nonce, k + 1, rest);
              ValidCuts(|a + v + b|, nonce, k + 1, shifted)
              && Restored(out, nonce, slots)
              == Restored(CutText(a + v + b, nonce, k + 1, shifted), nonce, CutSlots(a + v + b, nonce, k + 1, shifted))
            else Restored(out, nonce, slots) == Err(MissingPlaceholder)
  {
    hide Marker, Matches, ValidCuts, CutText, CutSlots, Untouched, Shift, Plain, ReplaceFirst, Contains;
    var m := Marker(nonce, kind, k);
    var t := a + m + b;
    var out, tail := CutText(t, nonce, k + 1, rest), CutSlots(t, nonce, k + 1, rest);
    LaterCutsCount(a, b, nonce, k + 1, rest, m, kind, k);
    assert ([Slot(m, v)] + tail)[1..] == tail;
    if Untouched(|a|, |m|, nonce, k + 1, rest) {
      var a', b' := CutsAround(a, m, v, b, nonce, k + 1, rest);
      MatchesAround(a', m, b', m);
      ReplaceAround(a', m, b', v);
    }
  }

  lemma NoCuts(input: string, nonce: string, k: nat)
    requires !Contains(input, Prefix(nonce))
    ensures ValidCuts(|input|, nonce, k, []) && Undisturbed(nonce, k, [])
    ensures Restored(CutText(input, nonce, k, []), nonce, CutSlots(input, nonce, k, [])) == Ok(input)
  {
  }

  // Restoring a redacted text gives the input back exactly when no cut touched an
  // earlier marker; otherwise the marker is reported missing.
  lemma {:induction false} RoundTrip(input: string, nonce: string, k: nat, cuts: seq<Cut>)
    requires Plain(nonce) && !Contains(input, Prefix(nonce))
    requires ValidCuts(|input|, nonce, k, cuts)
    ensures Restored(CutText(input, nonce, k, cuts), nonce, CutSlots(input, nonce, k, cuts))
         == if Undisturbed(nonce, k, cuts) then Ok(input) else Err(MissingPlaceholder)
    decreases |cuts|
  {
    hide *;
    if cuts == [] {
      NoCuts(input, nonce, k);
    } else {
      var c, rest := cuts[0], cuts[1..];
      assert cuts == [c] + rest;
      UndisturbedStep(nonce, k, c, rest);
      HeadCut(|input|, nonce, k, c, rest);
      var m, v := Marker(nonce, c.kind, k), input[c.start..c.end];
      var a, b := input[..c.start], input[c.end..];
      assert input == a + v + b;
      SpliceParts(input, c.start, c.end, m);
      FirstCut(input, nonce, k, c, rest);
      CutOnce(a, v, b, nonce, k, c.kind, rest);
      RestoreFirst(a, v, b, nonce, k, c.kind, rest);
      if Untouched(|a|, |m|, nonce, k + 1, rest) {
        var shifted := Shift(|a|, |m|, |v|, nonce, k + 1, rest);
        RoundTrip(input, nonce, k + 1, shifted);
        ShiftKeepsUndisturbed(|a + m + b|, |a|, |m|, |v|, nonce, k + 1, rest);
      }
    }
  }

  // The text has none of the markers still to come.
  ghost predicate NoneToCome(text: string, nonce: string, k: nat) {
    forall kind: Kind, i: nat | k <= i :: Marker(nonce, kind, i) != "" && Matches(text, Marker(nonce, kind, i)) == 0
  }

  // The same verdict can be read off the redacted text: no cut touched an earlier
  // marker exactly when the text shows the marker of every slot, each then once.
  lemma MarkersTellIfUndisturbed(input: string, nonce: string, k: nat, cuts: seq<Cut>)
    requires Plain(nonce) && !Contains(input, Prefix(nonce))
    requires ValidCuts(|input|, nonce, k, cuts)
    ensures Undisturbed(nonce, k, cuts) <==>
            forall i :: 0 <= i < |cuts| ==>
              Matches(CutText(input, nonce, k, cuts), CutSlots(input, nonce, k, cuts)[i].marker) == 1
  {
    hide *;
    FreshHasNoneToCome(input, nonce, k);
    MarkersTell(input, nonce, k, cuts);
  }

  // A fresh nonce has marked nothing yet.
  lemma FreshHasNoneToCome(text: string, nonce: string, k: nat)
    requires Plain(nonce) && !Contains(text, Prefix(nonce))
    ensures NoneToCome(text, nonce, k)
  {
    hide Marker, Matches, Plain, Prefix, Contains, Bracketed;
    forall kind: Kind, i: nat | k <= i
      ensures Marker(nonce, kind, i) != "" && Matches(text, Marker(nonce, kind, i)) == 0
    {
      MarkerIsBracketed(nonce, kind, i);
      BracketedNotEmpty(Marker(nonce, kind, i));
      NoPrefixNoMarker(text, nonce, Marker(nonce, kind, i));
    }
  }

  lemma {:induction false} MarkersTell(text: string, nonce: string, k: nat, cuts: seq<Cut>)
    requires Plain(nonce) && ValidCuts(|text|, nonce, k, cuts) && NoneToCome(text, nonce, k)
    ensures Undisturbed(nonce, k, cuts) <==>
            forall i :: 0 <= i < |cuts| ==>
              Matches(CutText(text, nonce, k, cuts), CutSlots(text, nonce, k, cuts)[i].marker) == 1
    decreases |cuts|
  {
    hide *;
    if cuts == [] {
      NothingIsDisturbed(0, 0, 0, nonce, k);
    } else {
      var c, rest := cuts[0], cuts[1..];
      assert cuts == [c] + rest;
      UndisturbedStep(nonce, k, c, rest);
      HeadCut(|text|, nonce, k, c, rest);
      var m, a, b := Marker(nonce, c.kind, k), text[..c.start], text[c.end..];
      var next := Splice(text, c.start, c.end, m);
      SpliceParts(text, c.start, c.end, m);
      FirstCut(text, nonce, k, c, rest);
      SpliceLeavesNone(text, nonce, k, c);
      LaterCutsCount(a, b, nonce, k + 1, rest, m, c.kind, k);
      MarkersTell(next, nonce, k + 1, rest);
      var slots, tail := CutSlots(text, nonce, k, cuts), CutSlots(next, nonce, k + 1, rest);
      assert slots[0].marker == m;
      assert forall i :: 0 <= i < |rest| ==> slots[i + 1] == tail[i];
    }
  }

  lemma SpliceLeavesNone(text: string, nonce: string, k: nat, c: Cut)
    requires Plain(nonce) && NoneToCome(text, nonce, k) && 0 <= c.start <= c.end <= |text|
    ensures var m := Marker(nonce, c.kind, k);
            m != "" && Matches(text[..c.start], m) == 0 && Matches(text[c.end..], m) == 0
    ensures NoneToCome(Splice(text, c.start, c.end, Marker(nonce, c.kind, k)), nonce, k + 1)
  {
    hide Matches, Splice, Marker, Plain, Bracketed;
    var m := Marker(nonce, c.kind, k);
    assert m != "" && Matches(text, m) == 0;
    PartsLackMarker(text, c.start, c.end, m);
    forall kind: Kind, i: nat | k + 1 <= i
      ensures Marker(nonce, kind, i) != "" && Matches(Splice(text, c.start, c.end, m), Marker(nonce, kind, i)) == 0
    {
      MarkerApart(nonce, kind, i, c.kind, k);
      SpliceAbsent(text, c.start, c.end, m, Marker(nonce, kind, i));
    }
  }

  // A cut over the whole text takes in every earlier marker.
  lemma SwallowingDisturbs(size: nat, nonce: string, first: Cut, kind: Kind)
    requires 0 <= first.start <= first.end <= size
    ensures var whole := Cut(kind, 0, size - (first.end - first.start) + |Marker(nonce, first.kind, 0)|);
            ValidCuts(size, nonce, 0, [first, whole]) && !Undisturbed(nonce, 0, [first, whole])
  {
    var m := Marker(nonce, first.kind, 0);
    assert |m| > 0;
    var whole := Cut(kind, 0, size - (first.end - first.start) + |m|);
    assert [first, whole][1..] == [whole];
    hide Marker;
    assert !Untouched(first.start, |m|, nonce, 1, [whole]);
    assert ValidCuts(size - (first.end - first.start) + |m|, nonce, 1, [whole]);
  }

  // So the round trip can fail: redact a part, then the whole.
  lemma SwallowedMarkerIsMissing(input: string, nonce: string, first: Cut, kind: Kind)
    requires Plain(nonce) && !Contains(input, Prefix(nonce))
    requires 0 <= first.start <= first.end <= |input|
    ensures var cuts := [first, Cut(kind, 0, |input| - (first.end - first.start) + |Marker(nonce, first.kind, 0)|)];
            ValidCuts(|input|, nonce, 0, cuts)
            && Restored(CutText(input, nonce, 0, cuts), nonce, CutSlots(input, nonce, 0, cuts))
            == Err(MissingPlaceholder)
  {
    hide *;
    SwallowingDisturbs(|input|, nonce, first, kind);
    RoundTrip(input, nonce, 0,
              [first, Cut(kind, 0, |input| - (first.end - first.start) + |Marker(nonce, first.kind, 0)|)]);
  }
}
