// The redactor itself: passes rewrite the text in one sweep and push slots, and
// `Restore` replaces the markers in a loop. Each pass is proved to make the cuts
// of its spans, so the results about cuts apply to what is stored.
module Redactor {
  import opened Wrappers
  import opened Markers
  import opened Redaction

  datatype Span = Span(start: int, end: int)

  // The matches of one regular expression, as a left-to-right search gives them.
  predicate Ascending(spans: seq<Span>, from: int, size: int)
    decreases |spans|
  {
    if spans == [] then from <= size
    else from <= spans[0].start <= spans[0].end <= size && Ascending(spans[1..], spans[0].end, size)
  }

  // The cuts of a pass; `shift` is how much longer the text has become before them.
  function PassCuts(kind: Kind, spans: seq<Span>, nonce: string, k: nat, shift: int): (r: seq<Cut>)
    ensures |r| == |spans|
    decreases |spans|
  {
    if spans == [] then []
    else
      var s := spans[0];
      [Cut(kind, s.start + shift, s.end + shift)]
      + PassCuts(kind, spans[1..], nonce, k + 1, shift + |Marker(nonce, kind, k)| - (s.end - s.start))
  }

  lemma {:induction false} PassIsValid(kind: Kind, spans: seq<Span>, nonce: string, k: nat, shift: int,
                                       from: int, size: int)
    requires Ascending(spans, from, size) && 0 <= from + shift
    ensures ValidCuts(size + shift, nonce, k, PassCuts(kind, spans, nonce, k, shift))
    decreases |spans|
  {
    hide Marker;
    if spans != [] {
      var s := spans[0];
      var next := shift + |Marker(nonce, kind, k)| - (s.end - s.start);
      PassIsValid(kind, spans[1..], nonce, k + 1, next, s.end, size);
    }
  }

  lemma {:induction false} PassMovesOn(kind: Kind, spans: seq<Span>, nonce: string, k: nat, shift: int,
                                       from: int, size: int, p: int, len: nat)
    requires 0 < len && Ascending(spans, from, size) && p + len <= from + shift
    ensures Untouched(p, len, nonce, k, PassCuts(kind, spans, nonce, k, shift))
    decreases |spans|
  {
    hide Marker;
    if spans != [] {
      var s := spans[0];
      var next := shift + |Marker(nonce, kind, k)| - (s.end - s.start);
      PassMovesOn(kind, spans[1..], nonce, k + 1, next, s.end, size, p, len);
    }
  }

  // The cuts of one pass never touch each other's markers.
  lemma {:induction false} OnePassIsUndisturbed(kind: Kind, spans: seq<Span>, nonce: string, k: nat, shift: int,
                                                from: int, size: int)
    requires Ascending(spans, from, size)
    ensures Undisturbed(nonce, k, PassCuts(kind, spans, nonce, k, shift))
    decreases |spans|
  {
    if spans != [] {
      var s := spans[0];
      var m := Marker(nonce, kind, k);
      assert |m| > 0;
      hide Marker;
      var next := shift + |m| - (s.end - s.start);
      PassMovesOn(kind, spans[1..], nonce, k + 1, next, s.end, size, s.start + shift, |m|);
      OnePassIsUndisturbed(kind, spans[1..], nonce, k + 1, next, s.end, size);
    }
  }

  lemma {:induction false} CutsConcat(text: string, nonce: string, k: nat, x: seq<Cut>, y: seq<Cut>)
    requires ValidCuts(|text|, nonce, k, x)
    requires ValidCuts(|CutText(text, nonce, k, x)|, nonce, k + |x|, y)
    ensures ValidCuts(|text|, nonce, k, x + y)
    ensures CutText(text, nonce, k, x + y) == CutText(CutText(text, nonce, k, x), nonce, k + |x|, y)
    ensures CutSlots(text, nonce, k, x + y)
         == CutSlots(text, nonce, k, x) + CutSlots(CutText(text, nonce, k, x), nonce, k + |x|, y)
    decreases |x|
  {
    hide Marker, Splice;
    if x == [] {
      assert x + y == y;
    } else {
      var c, rest := x[0], x[1..];
      assert x == [c] + rest && x + y == [c] + (rest + y);
      HeadCut(|text|, nonce, k, c, rest);
      var next := Splice(text, c.start, c.end, Marker(nonce, c.kind, k));
      FirstCut(text, nonce, k, c, rest);
      hide *;
      CutsConcat(next, nonce, k + 1, rest, y);
      FirstCut(text, nonce, k, c, rest + y);
    }
  }

  lemma PassCutsStep(kind: Kind, s: Span, todo: seq<Span>, nonce: string, k: nat, shift: int)
    ensures PassCuts(kind, [s] + todo, nonce, k, shift)
         == [Cut(kind, s.start + shift, s.end + shift)]
            + PassCuts(kind, todo, nonce, k + 1, shift + |Marker(nonce, kind, k)| - (s.end - s.start))
  {
    assert ([s] + todo)[1..] == todo;
    hide Marker;
  }

  // The cuts still to make lead from here to the text and slots the pass leads to.
  ghost predicate LeadsTo(current: string, kind: Kind, todo: seq<Span>, nonce: string, k: nat, shift: int,
                          slots: seq<Slot>, result: string, resulting: seq<Slot>) {
    var rest := PassCuts(kind, todo, nonce, k, shift);
    ValidCuts(|current|, nonce, k, rest)
    && result == CutText(current, nonce, k, rest)
    && resulting == slots + CutSlots(current, nonce, k, rest)
  }

  lemma AscendingStep(s: Span, rest: seq<Span>, from: int, size: int)
    requires Ascending([s] + rest, from, size)
    ensures from <= s.start <= s.end <= size && Ascending(rest, s.end, size)
  {
    assert ([s] + rest)[1..] == rest;
  }

  lemma SweepStarts(text: string, kind: Kind, spans: seq<Span>, nonce: string, k: nat, slots: seq<Slot>)
    requires ValidCuts(|text|, nonce, k, PassCuts(kind, spans, nonce, k, 0))
    ensures var all := PassCuts(kind, spans, nonce, k, 0);
            LeadsTo("" + text[0..], kind, spans, nonce, k, 0, slots,
                    CutText(text, nonce, k, all), slots + CutSlots(text, nonce, k, all))
  {
    assert "" + text[0..] == text;
    hide PassCuts, ValidCuts, CutText, CutSlots;
  }

  lemma SweepStep(current: string, kind: Kind, s: Span, todo: seq<Span>, nonce: string, k: nat, shift: int,
                  slots: seq<Slot>, result: string, resulting: seq<Slot>)
    requires LeadsTo(current, kind, [s] + todo, nonce, k, shift, slots, result, resulting)
    ensures 0 <= s.start + shift <= s.end + shift <= |current|
    ensures var m := Marker(nonce, kind, k);
            LeadsTo(Splice(current, s.start + shift, s.end + shift, m), kind, todo, nonce, k + 1,
                    shift + |m| - (s.end - s.start),
                    slots + [Slot(m, current[s.start + shift..s.end + shift])], result, resulting)
  {
    hide PassCuts, ValidCuts, CutText, CutSlots, Splice, Marker;
    var m, c := Marker(nonce, kind, k), Cut(kind, s.start + shift, s.end + shift);
    var tail := PassCuts(kind, todo, nonce, k + 1, shift + |m| - (s.end - s.start));
    PassCutsStep(kind, s, todo, nonce, k, shift);
    HeadCut(|current|, nonce, k, c, tail);
    FirstCut(current, nonce, k, c, tail);
    var next := CutSlots(Splice(current, c.start, c.end, m), nonce, k + 1, tail);
    Regroup(slots, [Slot(m, current[c.start..c.end])], next);
  }

  lemma SweepEnds(current: string, kind: Kind, todo: seq<Span>, nonce: string, k: nat, shift: int,
                  slots: seq<Slot>, result: string, resulting: seq<Slot>)
    requires todo == [] && LeadsTo(current, kind, todo, nonce, k, shift, slots, result, resulting)
    ensures result == current && resulting == slots
  {
  }

  lemma SweepCut(out: string, text: string, last: nat, start: nat, end: nat, m: string)
    requires last <= start <= end <= |text|
    ensures var shift := |out| - last;
            Splice(out + text[last..], start + shift, end + shift, m) == out + text[last..start] + m + text[end..]
            && (out + text[last..])[start + shift..end + shift] == text[start..end]
  {
    var t, shift := out + text[last..], |out| - last;
    assert t[..start + shift] == out + text[last..start];
    assert t[end + shift..] == text[end..];
  }

  // One span of a sweep that has copied the text before `last` to `out`.
  lemma SweepSpan(text: string, out: string, last: int, out': string, kind: Kind, s: Span, todo: seq<Span>,
                  nonce: string, k: nat, slots: seq<Slot>, slots': seq<Slot>, result: string, resulting: seq<Slot>)
    requires 0 <= last <= s.start <= s.end <= |text|
    requires LeadsTo(out + text[last..], kind, [s] + todo, nonce, k, |out| - last, slots, result, resulting)
    requires out' == out + text[last..s.start] + Marker(nonce, kind, k)
    requires slots' == slots + [Slot(Marker(nonce, kind, k), text[s.start..s.end])]
    ensures LeadsTo(out' + text[s.end..], kind, todo, nonce, k + 1, |out'| - s.end, slots', result, resulting)
  {
    hide *;
    SweepStep(out + text[last..], kind, s, todo, nonce, k, |out| - last, slots, result, resulting);
    SweepCut(out, text, last, s.start, s.end, Marker(nonce, kind, k));
  }

  // What a pass makes of a text from `last` on: the text between the spans as it is, and a
  // marker for every span.
  function Swept(text: string, last: int, kind: Kind, spans: seq<Span>, nonce: string, k: nat): string
    requires 0 <= last && Ascending(spans, last, |text|)
    decreases |spans|
  {
    if spans == [] then text[last..]
    else
      text[last..spans[0].start] + Marker(nonce, kind, k)
      + Swept(text, spans[0].end, kind, spans[1..], nonce, k + 1)
  }

  lemma SweptStep(text: string, last: int, kind: Kind, s: Span, rest: seq<Span>, nonce: string, k: nat)
    requires 0 <= last && Ascending([s] + rest, last, |text|)
    ensures last <= s.start <= s.end <= |text| && Ascending(rest, s.end, |text|)
    ensures Swept(text, last, kind, [s] + rest, nonce, k)
         == text[last..s.start] + Marker(nonce, kind, k) + Swept(text, s.end, kind, rest, nonce, k + 1)
  {
    AscendingStep(s, rest, last, |text|);
    assert ([s] + rest)[1..] == rest;
    hide Marker;
  }

  lemma SweptEnds(text: string, out: string, last: int, kind: Kind, nonce: string, k: nat)
    requires 0 <= last && Ascending([], last, |text|)
    ensures last <= |text|
    ensures CutText(out + text[last..], nonce, k, PassCuts(kind, [], nonce, k, |out| - last))
         == out + Swept(text, last, kind, [], nonce, k)
  {
  }

  lemma {:induction false} SweptIsCut(text: string, out: string, last: int, kind: Kind, spans: seq<Span>,
                                      nonce: string, k: nat)
    requires 0 <= last <= |text| && Ascending(spans, last, |text|)
    requires ValidCuts(|out + text[last..]|, nonce, k, PassCuts(kind, spans, nonce, k, |out| - last))
    ensures CutText(out + text[last..], nonce, k, PassCuts(kind, spans, nonce, k, |out| - last))
         == out + Swept(text, last, kind, spans, nonce, k)
    decreases |spans|
  {
    hide *;
    if spans == [] {
      SweptEnds(text, out, last, kind, nonce, k);
    } else {
      var s, rest, m, shift := spans[0], spans[1..], Marker(nonce, kind, k), |out| - last;
      assert spans == [s] + rest;
      SweptStep(text, last, kind, s, rest, nonce, k);
      PassCutsStep(kind, s, rest, nonce, k, shift);
      var out', c := out + text[last..s.start] + m, Cut(kind, s.start + shift, s.end + shift);
      var cuts := PassCuts(kind, rest, nonce, k + 1, shift + |m| - (s.end - s.start));
      HeadCut(|out + text[last..]|, nonce, k, c, cuts);
      SweepCut(out, text, last, s.start, s.end, m);
      assert shift + |m| - (s.end - s.start) == |out'| - s.end;
      FirstCut(out + text[last..], nonce, k, c, cuts);
      SweptIsCut(text, out', s.end, kind, rest, nonce, k + 1);
      var tail := Swept(text, s.end, kind, rest, nonce, k + 1);
      Regroup(out, text[last..s.start] + m, tail);
      Regroup(out, text[last..s.start], m);
    }
  }

  // One pass leaves the text outside its spans alone and puts one marker for each.
  lemma PassRewrites(text: string, kind: Kind, spans: seq<Span>, nonce: string, k: nat)
    requires Ascending(spans, 0, |text|) && ValidCuts(|text|, nonce, k, PassCuts(kind, spans, nonce, k, 0))
    ensures CutText(text, nonce, k, PassCuts(kind, spans, nonce, k, 0)) == Swept(text, 0, kind, spans, nonce, k)
  {
    hide PassCuts, CutText, Swept, ValidCuts, Ascending;
    assert "" + text[0..] == text;
    SweptIsCut(text, "", 0, kind, spans, nonce, k);
    assert "" + Swept(text, 0, kind, spans, nonce, k) == Swept(text, 0, kind, spans, nonce, k);
  }

  // The length of a text of `size` characters after some cuts.
  function CutSize(size: int, nonce: string, k: nat, cuts: seq<Cut>): int
    decreases |cuts|
  {
    if cuts == [] then size
    else
      var c := cuts[0];
      CutSize(size - (c.end - c.start) + |Marker(nonce, c.kind, k)|, nonce, k + 1, cuts[1..])
  }

  lemma {:induction false} CutTextSize(text: string, nonce: string, k: nat, cuts: seq<Cut>)
    requires ValidCuts(|text|, nonce, k, cuts)
    ensures |CutText(text, nonce, k, cuts)| == CutSize(|text|, nonce, k, cuts)
    decreases |cuts|
  {
    hide Marker, Splice;
    if cuts != [] {
      var c := cuts[0];
      CutTextSize(Splice(text, c.start, c.end, Marker(nonce, c.kind, k)), nonce, k + 1, cuts[1..]);
    }
  }

  // The spans that the passes from `from` on find, each in the text the last one
  // left; `size` is the length of the first of these texts.
  predicate Found(plan: seq<seq<Span>>, size: int, nonce: string, k: nat, from: nat)
    requires from <= |plan| == PASS_COUNT
    decreases |plan| - from
  {
    from == |plan| ||
    var here := PassCuts(PassKind(from), plan[from], nonce, k, 0);
    Ascending(plan[from], 0, size) && Found(plan, CutSize(size, nonce, k, here), nonce, k + |here|, from + 1)
  }

  function PlanCuts(plan: seq<seq<Span>>, nonce: string, k: nat, from: nat): seq<Cut>
    requires from <= |plan| == PASS_COUNT
    decreases |plan| - from
  {
    if from == |plan| then []
    else
      var here := PassCuts(PassKind(from), plan[from], nonce, k, 0);
      here + PlanCuts(plan, nonce, k + |here|, from + 1)
  }

  lemma PlanStep(plan: seq<seq<Span>>, text: string, nonce: string, k: nat, i: nat)
    requires i < |plan| == PASS_COUNT && Found(plan, |text|, nonce, k, i)
    ensures Ascending(plan[i], 0, |text|)
    ensures var here := PassCuts(PassKind(i), plan[i], nonce, k, 0);
            PlanCuts(plan, nonce, k, i) == here + PlanCuts(plan, nonce, k + |here|, i + 1)
            && ValidCuts(|text|, nonce, k, here)
            && Found(plan, |CutText(text, nonce, k, here)|, nonce, k + |here|, i + 1)
  {
    var here := PassCuts(PassKind(i), plan[i], nonce, k, 0);
    PassIsValid(PassKind(i), plan[i], nonce, k, 0, 0, |text|);
    CutTextSize(text, nonce, k, here);
    hide PassKind, PassCuts, CutText, CutSize, ValidCuts, Ascending, Marker;
  }

  lemma NoPlanLeft(plan: seq<seq<Span>>, nonce: string, k: nat)
    requires |plan| == PASS_COUNT
    ensures PlanCuts(plan, nonce, k, |plan|) == []
  {
  }

  class RestorableRedaction {
    const nonce: string
    var text: string
    var slots: seq<Slot>
    ghost const input: string
    ghost var cuts: seq<Cut>

    ghost predicate Valid()
      reads this
    {
      ValidCuts(|input|, nonce, 0, cuts)
      && text == CutText(input, nonce, 0, cuts)
      && slots == CutSlots(input, nonce, 0, cuts)
    }

    constructor (input: string, nonce: string)
      ensures Valid() && this.input == input && this.nonce == nonce
      ensures text == input && slots == [] && cuts == []
    {
      this.input, this.nonce := input, nonce;
      text, slots, cuts := input, [], [];
    }

    method PushSlot(kind: Kind, value: string) returns (marker: string)
      modifies this`slots
      ensures marker == Marker(nonce, kind, |old(slots)|)
      ensures slots == old(slots) + [Slot(marker, value)]
    {
      marker := Marker(nonce, kind, |slots|);
      slots := slots + [Slot(marker, value)];
    }

    // One sweep over the text: every span the validation let through is a marker
    // in the new text.
    method ReplaceAll(kind: Kind, spans: seq<Span>) returns (out: string)
      requires Ascending(spans, 0, |text|)
      requires ValidCuts(|text|, nonce, |slots|, PassCuts(kind, spans, nonce, |slots|, 0))
      modifies this`slots
      ensures var all := PassCuts(kind, spans, nonce, |old(slots)|, 0);
              out == CutText(text, nonce, |old(slots)|, all)
              && slots == old(slots) + CutSlots(text, nonce, |old(slots)|, all)
    {
      hide *;
      ghost var k, all := |slots|, PassCuts(kind, spans, nonce, |slots|, 0);
      ghost var result, resulting := CutText(text, nonce, k, all), slots + CutSlots(text, nonce, k, all);
      var last := 0;
      out := "";
      assert spans[0..] == spans;
      SweepStarts(text, kind, spans, nonce, k, slots);
      for i := 0 to |spans|
        invariant text == old(text) && |slots| == k + i
        invariant 0 <= last <= |text| && Ascending(spans[i..], last, |text|)
        invariant LeadsTo(out + text[last..], kind, spans[i..], nonce, k + i, |out| - last, slots, result, resulting)
      {
        var s := spans[i];
        assert spans[i..] == [s] + spans[i + 1..];
        AscendingStep(s, spans[i + 1..], last, |text|);
        ghost var before, out0, last0 := slots, out, last;
        var marker := PushSlot(kind, text[s.start..s.end]);
        out := out + text[last..s.start] + marker;
        last := s.end;
        SweepSpan(text, out0, last0, out, kind, s, spans[i + 1..], nonce, k + i, before, slots, result, resulting);
      }
      SweepEnds(out + text[last..], kind, spans[|spans|..], nonce, k + |spans|, |out| - last, slots, result, resulting);
      out := out + text[last..];
    }

    // One pass.
    method ReplaceRestorable(kind: Kind, spans: seq<Span>)
      requires Valid() && Ascending(spans, 0, |text|)
      modifies this`text, this`slots, this`cuts
      ensures Valid()
      ensures cuts == old(cuts) + PassCuts(kind, spans, nonce, |old(slots)|, 0)
      ensures ValidCuts(|old(text)|, nonce, |old(slots)|, PassCuts(kind, spans, nonce, |old(slots)|, 0))
      ensures text == CutText(old(text), nonce, |old(slots)|, PassCuts(kind, spans, nonce, |old(slots)|, 0))
      ensures text == Swept(old(text), 0, kind, spans, nonce, |old(slots)|)
      ensures |slots| == |old(slots)| + |spans|
    {
      hide PassCuts, ValidCuts, CutText, CutSlots, Ascending, Swept;
      PassIsValid(kind, spans, nonce, |slots|, 0, 0, |text|);
      PassRewrites(text, kind, spans, nonce, |slots|);
      CutsConcat(input, nonce, 0, cuts, PassCuts(kind, spans, nonce, |slots|, 0));
      cuts := cuts + PassCuts(kind, spans, nonce, |slots|, 0);
      text := ReplaceAll(kind, spans);
    }

    // All passes in their order, each searching the text the last one left.
    method RedactRestorable(plan: seq<seq<Span>>)
      requires Valid() && |plan| == PASS_COUNT && Found(plan, |text|, nonce, |slots|, 0)
      modifies this`text, this`slots, this`cuts
      ensures Valid()
      ensures cuts == old(cuts) + PlanCuts(plan, nonce, |old(slots)|, 0)
    {
      hide *;
      ghost var whole := cuts + PlanCuts(plan, nonce, |slots|, 0);
      for i := 0 to |plan|
        invariant Valid() && Found(plan, |text|, nonce, |slots|, i)
        invariant whole == cuts + PlanCuts(plan, nonce, |slots|, i)
      {
        PlanStep(plan, text, nonce, |slots|, i);
        ghost var here := PassCuts(PassKind(i), plan[i], nonce, |slots|, 0);
        ghost var rest := PlanCuts(plan, nonce, |slots| + |here|, i + 1);
        assert cuts + (here + rest) == (cuts + here) + rest;
        ReplaceRestorable(PassKind(i), plan[i]);
      }
      NoPlanLeft(plan, nonce, |slots|);
    }

    method Restore(output: string) returns (r: Result<string, RestoreError>)
      requires Restorable(slots)
      ensures r == Restored(output, nonce, slots)
    {
      var restored := output;
      for i := 0 to |slots|
        invariant Restorable(slots[i..])
        invariant Restored(output, nonce, slots) == Restored(restored, nonce, slots[i..])
      {
        assert slots[i..][1..] == slots[i + 1..];
        var n := Matches(restored, slots[i].marker);
        if n == 0 {
          return Err(MissingPlaceholder);
        } else if n == 1 {
          restored := ReplaceFirst(restored, slots[i].marker, slots[i].value);
        } else {
          return Err(DuplicatedPlaceholder);
        }
      }
      if Contains(restored, Prefix(nonce)) {
        return Err(UnexpectedPlaceholder);
      }
      r := Ok(restored);
    }

    // Restoring the redacted text itself.
    method RestoreOwnText() returns (r: Result<string, RestoreError>)
      requires Valid() && Plain(nonce) && !Contains(input, Prefix(nonce))
      ensures r == if Undisturbed(nonce, 0, cuts) then Ok(input) else Err(MissingPlaceholder)
    {
      hide Undisturbed, Restored, ValidCuts, CutText, CutSlots, Contains, Plain;
      RoundTrip(input, nonce, 0, cuts);
      r := Restore(text);
    }
  }
}
