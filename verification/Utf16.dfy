// Editing a text in UTF-16 coordinates (section 2 of RFC 2781).
//
// A text is a string of characters, and ranges count its units. Every place that
// splits no surrogate pair is a place between two characters, so slices,
// replacements and chunks of units are shown to be those of characters.
module Utf16 {
  import opened Wrappers

  type unit = u: int | 0 <= u < 0x1_0000
  type Units = seq<unit>

  const USIZE_MAX := 0xFFFF_FFFF_FFFF_FFFF

  datatype Range = Range(location: nat, length: nat)

  predicate IsHigh(u: unit) { 0xD800 <= u <= 0xDBFF }

  predicate IsLow(u: unit) { 0xDC00 <= u <= 0xDFFF }

  function CharUnits(c: char): Units {
    var code := c as int;
    if code < 0x1_0000 then [code]
    else [0xD800 + (code - 0x1_0000) / 0x400, 0xDC00 + (code - 0x1_0000) % 0x400]
  }

  function Encode(s: string): Units {
    if s == "" then [] else CharUnits(s[0]) + Encode(s[1..])
  }

  // The text of some units; None when a surrogate stands alone.
  function Decode(u: Units): Option<string> {
    if u == [] then Some("")
    else if IsLow(u[0]) then None
    else if !IsHigh(u[0]) then
      var code: int := u[0];
      (match Decode(u[1..])
       case None => None
       case Some(rest) => Some([code as char] + rest))
    else if |u| < 2 || !IsLow(u[1]) then None
    else
      var high: int, low: int := u[0], u[1];
      match Decode(u[2..])
      case None => None
      case Some(rest) => Some([(0x1_0000 + (high - 0xD800) * 0x400 + (low - 0xDC00)) as char] + rest)
  }

  lemma CharShape(c: char)
    ensures |CharUnits(c)| == 1 ==> !IsHigh(CharUnits(c)[0]) && !IsLow(CharUnits(c)[0]) && CharUnits(c) == [c as int]
    ensures |CharUnits(c)| == 2 ==> IsHigh(CharUnits(c)[0]) && IsLow(CharUnits(c)[1])
    ensures |CharUnits(c)| == 2 ==>
              var high: int, low: int := CharUnits(c)[0], CharUnits(c)[1];
              0x1_0000 + (high - 0xD800) * 0x400 + (low - 0xDC00) == c as int
    ensures |CharUnits(c)| == 1 || |CharUnits(c)| == 2
  {
  }

  lemma DecodeFirst(c: char, u: Units)
    ensures Decode(CharUnits(c) + u) == match Decode(u)
                                        case None => None
                                        case Some(rest) => Some([c] + rest)
  {
    var first := CharUnits(c);
    CharShape(c);
    hide CharUnits;
    assert (first + u)[|first|..] == u;
    assert (first + u)[0] == first[0] && (|first| == 2 ==> (first + u)[1] == first[1]);
  }

  // Encoding loses nothing.
  lemma {:induction false} DecodesEncoding(s: string)
    ensures Decode(Encode(s)) == Some(s)
  {
    hide Decode, CharUnits;
    if s == "" {
      NothingDecodes();
    } else {
      DecodesEncoding(s[1..]);
      DecodeFirst(s[0], Encode(s[1..]));
      assert [s[0]] + s[1..] == s;
    }
  }

  lemma NothingDecodes()
    ensures Decode([]) == Some("")
  {
  }

  // And what decodes is the encoding of its text.
  lemma {:induction false} EncodesDecoding(u: Units)
    requires Decode(u).Some?
    ensures Encode(Decode(u).value) == u
  {
    if u != [] {
      var s := Decode(u).value;
      if IsHigh(u[0]) {
        EncodesDecoding(u[2..]);
        assert s[1..] == Decode(u[2..]).value;
        PairUnits(u[0], u[1]);
        assert u == [u[0], u[1]] + u[2..];
      } else {
        EncodesDecoding(u[1..]);
        assert s[1..] == Decode(u[1..]).value;
        assert u == [u[0]] + u[1..];
      }
      hide CharUnits;
    }
  }

  lemma PairUnits(high: unit, low: unit)
    requires IsHigh(high) && IsLow(low)
    ensures var h: int, l: int := high, low;
            CharUnits((0x1_0000 + (h - 0xD800) * 0x400 + (l - 0xDC00)) as char) == [high, low]
  {
  }

  lemma {:induction false} EncodeConcat(a: string, b: string)
    ensures Encode(a + b) == Encode(a) + Encode(b)
  {
    if a == "" {
      assert a + b == b;
    } else {
      assert (a + b)[1..] == a[1..] + b;
      EncodeConcat(a[1..], b);
      Regroup(CharUnits(a[0]), Encode(a[1..]), Encode(b));
    }
  }

  // ---- Places in a text ----------------------------------------------------------------

  predicate SplitsPair(u: Units, index: nat) {
    0 < index < |u| && IsHigh(u[index - 1]) && IsLow(u[index])
  }

  // A place after the first character is a place of the rest.
  lemma PlaceAfterFirst(first: Units, rest: Units, index: nat)
    requires |first| == 1 || (|first| == 2 && IsHigh(first[0]) && IsLow(first[1]))
    requires 0 < index <= |first + rest| && !SplitsPair(first + rest, index)
    ensures index >= |first| && !SplitsPair(rest, index - |first|)
    ensures (first + rest)[..index] == first + rest[..index - |first|]
    ensures (first + rest)[index..] == rest[index - |first|..]
  {
    FirstIsWhole(first, rest, index);
    PairStaysSplit(first, rest, index - |first|);
    hide *;
    CutAfter(first, rest, index - |first|);
  }

  lemma FirstIsWhole(first: Units, rest: Units, index: nat)
    requires |first| == 1 || (|first| == 2 && IsHigh(first[0]) && IsLow(first[1]))
    requires 0 < index <= |first + rest| && !SplitsPair(first + rest, index)
    ensures index >= |first|
  {
    if |first| == 2 {
      assert (first + rest)[0] == first[0] && (first + rest)[1] == first[1];
    }
  }

  lemma PairStaysSplit(first: Units, rest: Units, k: nat)
    ensures SplitsPair(rest, k) ==> SplitsPair(first + rest, |first| + k)
  {
    hide IsHigh, IsLow;
    if SplitsPair(rest, k) {
      assert (first + rest)[|first| + k - 1] == rest[k - 1] && (first + rest)[|first| + k] == rest[k];
    }
  }

  lemma CutAfter(first: Units, rest: Units, k: nat)
    requires k <= |rest|
    ensures (first + rest)[..|first| + k] == first + rest[..k]
    ensures (first + rest)[|first| + k..] == rest[k..]
  {
  }

  // Every other place is between two characters.
  lemma {:induction false} PlaceIsBetweenChars(s: string, index: nat) returns (k: nat)
    requires index <= |Encode(s)| && !SplitsPair(Encode(s), index)
    ensures k <= |s| && Encode(s)[..index] == Encode(s[..k]) && Encode(s)[index..] == Encode(s[k..])
  {
    hide CharUnits, SplitsPair, IsHigh, IsLow;
    if index == 0 {
      k := 0;
    } else {
      var first, rest := CharUnits(s[0]), Encode(s[1..]);
      CharShape(s[0]);
      PlaceAfterFirst(first, rest, index);
      var j := PlaceIsBetweenChars(s[1..], index - |first|);
      k := j + 1;
      assert s[..k][1..] == s[1..][..j] && s[k..] == s[1..][j..];
    }
  }

  // And a place between two characters splits no pair.
  lemma {:induction false} BetweenCharsSplitsNothing(a: string, b: string)
    ensures !SplitsPair(Encode(a) + Encode(b), |Encode(a)|)
  {
    if b != "" {
      CharShape(b[0]);
      assert (Encode(a) + Encode(b))[|Encode(a)|] == CharUnits(b[0])[0];
      hide CharUnits, Encode;
    }
  }

  function ValidateRange(u: Units, r: Range): Option<nat> {
    var end := r.location + r.length;
    if end > USIZE_MAX || end > |u| || SplitsPair(u, r.location) || SplitsPair(u, end) then None else Some(end)
  }

  lemma LaterPlaces(u: Units, a: nat, b: nat)
    requires a <= b <= |u|
    ensures u[a..][..b - a] == u[a..b] && u[a..][b - a..] == u[b..]
    ensures SplitsPair(u[a..], b - a) ==> SplitsPair(u, b)
  {
  }

  // A run of units between two places is a run of characters.
  lemma RunIsChars(s: string, start: nat, end: nat) returns (i: nat, j: nat)
    requires start <= end <= |Encode(s)| && !SplitsPair(Encode(s), start) && !SplitsPair(Encode(s), end)
    ensures i <= j <= |s|
    ensures Encode(s[..i]) == Encode(s)[..start]
    ensures Encode(s[i..j]) == Encode(s)[start..end]
    ensures Encode(s[j..]) == Encode(s)[end..]
  {
    hide Encode, SplitsPair;
    i := PlaceIsBetweenChars(s, start);
    LaterPlaces(Encode(s), start, end);
    var k := PlaceIsBetweenChars(s[i..], end - start);
    j := i + k;
    assert s[i..][..k] == s[i..j] && s[i..][k..] == s[j..];
  }

  // ---- Slicing and replacing --------------------------------------------------------------

  function Slice(s: string, r: Range): Option<string> {
    match ValidateRange(Encode(s), r)
    case None => None
    case Some(end) => Decode(Encode(s)[r.location..end])
  }

  function Replace(s: string, r: Range, replacement: string): Option<string> {
    match ValidateRange(Encode(s), r)
    case None => None
    case Some(end) => Decode(Encode(s)[..r.location] + Encode(replacement) + Encode(s)[end..])
  }

  // Splicing the units of one vector.
  method ReplaceInPlace(s: string, r: Range, replacement: string) returns (t: Option<string>)
    ensures t == Replace(s, r, replacement)
  {
    var encoded := Encode(s);
    var end := ValidateRange(encoded, r);
    if end.None? {
      return None;
    }
    var units := encoded[..r.location];
    units := units + Encode(replacement);
    units := units + encoded[end.value..];
    t := Decode(units);
  }

  // An accepted range slices out its characters.
  lemma SliceIsChars(s: string, r: Range) returns (i: nat, j: nat)
    requires ValidateRange(Encode(s), r).Some?
    ensures i <= j <= |s| && Slice(s, r) == Some(s[i..j])
    ensures Encode(s[..i]) == Encode(s)[..r.location]
    ensures Encode(s[j..]) == Encode(s)[r.location + r.length..]
  {
    hide Encode, Decode;
    i, j := RunIsChars(s, r.location, r.location + r.length);
    DecodesEncoding(s[i..j]);
  }

  // An accepted replacement always gives a text: the characters around the range and
  // the replacement between them.
  lemma ReplaceIsChars(s: string, r: Range, replacement: string) returns (i: nat, j: nat)
    requires ValidateRange(Encode(s), r).Some?
    ensures i <= j <= |s| && Slice(s, r) == Some(s[i..j])
    ensures Replace(s, r, replacement) == Some(s[..i] + replacement + s[j..])
    ensures Encode(s[..i]) == Encode(s)[..r.location]
  {
    hide Encode, Decode;
    i, j := SliceIsChars(s, r);
    EncodeConcat(s[..i], replacement);
    EncodeConcat(s[..i] + replacement, s[j..]);
    DecodesEncoding(s[..i] + replacement + s[j..]);
  }

  // Both fail exactly on a range that is not valid.
  lemma FailsOnlyOnBadRange(s: string, r: Range, replacement: string)
    ensures Slice(s, r).None? <==> ValidateRange(Encode(s), r).None?
    ensures Replace(s, r, replacement).None? <==> ValidateRange(Encode(s), r).None?
  {
    hide Encode, Decode, ValidateRange;
    if ValidateRange(Encode(s), r).Some? {
      var i, j := ReplaceIsChars(s, r, replacement);
    }
  }

  // So many units end between two characters.
  ghost predicate BetweenChars(s: string, units: nat) {
    exists i: nat :: i <= |s| && |Encode(s[..i])| == units
  }

  // A range is accepted exactly when it begins and ends between characters.
  lemma RangeIsValidIff(s: string, r: Range)
    ensures ValidateRange(Encode(s), r)
         == if r.location + r.length <= 0xFFFF_FFFF_FFFF_FFFF && BetweenChars(s, r.location)
               && BetweenChars(s, r.location + r.length)
            then Some(r.location + r.length) else None
  {
    hide Encode, Decode, SplitsPair;
    var end := r.location + r.length;
    if ValidateRange(Encode(s), r).Some? {
      var i, j := SliceIsChars(s, r);
      LengthBefore(s, j);
      assert |Encode(s[..i])| == r.location && |Encode(s[..j])| == end;
    }
    if BetweenChars(s, r.location) && BetweenChars(s, end) {
      NoSplitBetween(s, r.location);
      NoSplitBetween(s, end);
    }
  }

  lemma LengthBefore(s: string, j: nat)
    requires j <= |s|
    ensures |Encode(s[..j])| + |Encode(s[j..])| == |Encode(s)|
  {
    hide Encode;
    EncodeConcat(s[..j], s[j..]);
    assert s[..j] + s[j..] == s;
  }

  lemma NoSplitBetween(s: string, units: nat)
    requires BetweenChars(s, units)
    ensures units <= |Encode(s)| && !SplitsPair(Encode(s), units)
  {
    hide Encode, SplitsPair;
    var i: nat :| i <= |s| && |Encode(s[..i])| == units;
    LengthBefore(s, i);
    EncodeConcat(s[..i], s[i..]);
    assert s[..i] + s[i..] == s;
    BetweenCharsSplitsNothing(s[..i], s[i..]);
  }

  // Replacing a range by what it holds changes nothing.
  lemma ReplaceByOwnSlice(s: string, r: Range)
    requires Slice(s, r).Some?
    ensures Replace(s, r, Slice(s, r).value) == Some(s)
  {
    hide Encode, Decode;
    FailsOnlyOnBadRange(s, r, "");
    var i, j := ReplaceIsChars(s, r, Slice(s, r).value);
    assert s[..i] + s[i..j] + s[j..] == s;
  }

  // The replaced range holds the replacement.
  lemma SliceOfReplaced(s: string, r: Range, replacement: string)
    requires Replace(s, r, replacement).Some?
    requires |Encode(Replace(s, r, replacement).value)| <= USIZE_MAX
    ensures Slice(Replace(s, r, replacement).value, Range(r.location, |Encode(replacement)|)) == Some(replacement)
  {
    FailsOnlyOnBadRange(s, r, replacement);
    hide Encode, Decode;
    var i, j := ReplaceIsChars(s, r, replacement);
    var t := Replace(s, r, replacement).value;
    var a, b := s[..i], s[j..];
    EncodeConcat(a, replacement);
    EncodeConcat(a + replacement, b);
    EncodeConcat(replacement, b);
    Regroup(a, replacement, b);
    EncodeConcat(a, replacement + b);
    BetweenCharsSplitsNothing(a, replacement + b);
    BetweenCharsSplitsNothing(a + replacement, b);
    var u := Encode(t);
    assert u == Encode(a) + Encode(replacement) + Encode(b);
    assert |Encode(a)| == r.location;
    assert u[r.location..r.location + |Encode(replacement)|] == Encode(replacement);
    DecodesEncoding(replacement);
  }

  // ---- Chunks ----------------------------------------------------------------------------

  function Concat(chunks: seq<Units>): Units {
    if chunks == [] then [] else Concat(chunks[..|chunks| - 1]) + chunks[|chunks| - 1]
  }

  ghost predicate NoPairs(u: Units) {
    forall i: nat :: !SplitsPair(u, i)
  }

  // A chunk is full, or one short because the next one starts with a surrogate pair.
  predicate Full(chunk: Units, next: Units, maximum: nat) {
    |chunk| == maximum || (|chunk| + 1 == maximum && SplitsPair(next, 1))
  }

  // Chunks of at most `maximum` units that are texts and make up the whole, as few as
  // there can be. There are such chunks exactly when two units fit or no character needs
  // two.
  method Chunks(s: string, maximum: nat) returns (r: Option<seq<Units>>)
    ensures r.Some? <==> maximum >= 2 || (maximum == 1 && NoPairs(Encode(s)))
    ensures r.Some? ==> Concat(r.value) == Encode(s)
    ensures r.Some? ==> forall i :: 0 <= i < |r.value| ==>
                          0 < |r.value[i]| <= maximum && Decode(r.value[i]).Some?
    ensures r.Some? ==> forall i :: 0 <= i < |r.value| - 1 ==> Full(r.value[i], r.value[i + 1], maximum)
  {
    hide Encode, Decode, SplitsPair, Concat;
    if maximum == 0 {
      return None;
    }
    var units := Encode(s);
    var chunks := [];
    var start := 0;
    NoChunks(units);
    while start < |units|
      invariant 0 <= start <= |units| && !SplitsPair(units, start)
      invariant Concat(chunks) == units[..start]
      invariant forall i :: 0 <= i < |chunks| ==> 0 < |chunks[i]| <= maximum && Decode(chunks[i]).Some?
      invariant maximum == 1 ==> forall i: nat :: i <= start ==> !SplitsPair(units, i)
      invariant forall i :: 0 <= i < |chunks| - 1 ==> Full(chunks[i], chunks[i + 1], maximum)
      invariant chunks != [] && start < |units| ==> Full(chunks[|chunks| - 1], units[start..], maximum)
    {
      ghost var next := ChunkEnd(units, start, maximum);
      var end := if start + maximum < |units| then start + maximum else |units|;
      if end < |units| && SplitsPair(units, end) {
        end := end - 1;
      }
      if end == start {
        return None;
      }
      NextChunk(s, chunks, start, end);
      if chunks != [] {
        StillFull(chunks[|chunks| - 1], units, start, end, maximum);
      }
      LastIsFull(units, start, end, maximum);
      chunks := chunks + [units[start..end]];
      start := end;
    }
    assert units[..start] == units;
    NoPairsPast(units);
    r := Some(chunks);
  }

  lemma StillFull(chunk: Units, u: Units, start: nat, end: nat, maximum: nat)
    requires start < end <= |u| && !SplitsPair(u, end) && Full(chunk, u[start..], maximum)
    ensures Full(chunk, u[start..end], maximum)
  {
    if SplitsPair(u[start..], 1) {
      assert u[start..][0] == u[start] && u[start..][1] == u[start + 1];
      assert u[start..end][0] == u[start];
    }
  }

  lemma LastIsFull(u: Units, start: nat, end: nat, maximum: nat)
    requires start < end <= |u|
    requires end < |u| ==> end == start + maximum || (end + 1 == start + maximum && SplitsPair(u, end + 1))
    ensures end < |u| ==> Full(u[start..end], u[end..], maximum)
  {
    if end < |u| && SplitsPair(u, end + 1) {
      assert u[end..][0] == u[end] && u[end..][1] == u[end + 1];
    }
  }

  lemma NoChunks(u: Units)
    ensures Concat([]) == u[..0] && !SplitsPair(u, 0)
  {
  }

  lemma NoPairsPast(u: Units)
    ensures forall i: nat :: i >= |u| ==> !SplitsPair(u, i)
  {
  }

  // One chunk more.
  lemma NextChunk(s: string, chunks: seq<Units>, start: nat, end: nat)
    requires start <= end <= |Encode(s)| && !SplitsPair(Encode(s), start) && !SplitsPair(Encode(s), end)
    requires Concat(chunks) == Encode(s)[..start]
    ensures Decode(Encode(s)[start..end]).Some?
    ensures Concat(chunks + [Encode(s)[start..end]]) == Encode(s)[..end]
  {
    var u := Encode(s);
    assert (chunks + [u[start..end]])[..|chunks|] == chunks;
    assert u[..start] + u[start..end] == u[..end];
    hide Encode, Decode, SplitsPair;
    var i, j := RunIsChars(s, start, end);
    DecodesEncoding(s[i..j]);
  }

  // Where a chunk that starts at `start` ends; `start` itself when nothing fits.
  lemma ChunkEnd(u: Units, start: nat, maximum: nat) returns (end: nat)
    requires start < |u| && maximum > 0 && !SplitsPair(u, start)
    ensures var full := if start + maximum < |u| then start + maximum else |u|;
            end == (if full < |u| && SplitsPair(u, full) then full - 1 else full)
    ensures start <= end <= |u| && end <= start + maximum && !SplitsPair(u, end)
    ensures end == start <==> maximum == 1 && SplitsPair(u, start + 1)
  {
    var full := if start + maximum < |u| then start + maximum else |u|;
    end := if full < |u| && SplitsPair(u, full) then full - 1 else full;
  }
}
