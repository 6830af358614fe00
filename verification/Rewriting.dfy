// Restoring a text that an untrusted service has rewritten: pieces of text in
// any order, with any of the markers kept, dropped, repeated or forged.
module Rewriting {
  import opened Wrappers
  import opened Markers
  import opened Redaction

  datatype Piece = Text(c: char) | Kept(slot: nat) | Forged(body: string)

  ghost predicate ValidSlots(nonce: string, slots: seq<Slot>) {
    Plain(nonce)
    && (forall i :: 0 <= i < |slots| ==> Bracketed(slots[i].marker) && Prefix(nonce) <= slots[i].marker)
    && (forall i, j :: 0 <= i < j < |slots| ==> slots[i].marker != slots[j].marker)
  }

  // A forged marker has the prefix but is the marker of no slot.
  ghost predicate ValidPiece(p: Piece, nonce: string, slots: seq<Slot>) {
    match p
    case Text(_) => true
    case Kept(i) => i < |slots|
    case Forged(body) => Plain(body) && forall i :: 0 <= i < |slots| ==> slots[i].marker != Fake(nonce, body)
  }

  ghost predicate ValidPieces(pieces: seq<Piece>, nonce: string, slots: seq<Slot>) {
    forall i :: 0 <= i < |pieces| ==> ValidPiece(pieces[i], nonce, slots)
  }

  function Fake(nonce: string, body: string): string { Prefix(nonce) + body + "]" }

  // A piece when the slots before `done` have been put back.
  function Show(p: Piece, nonce: string, slots: seq<Slot>, done: nat): string {
    match p
    case Text(c) => [c]
    case Kept(i) => if i >= |slots| then "" else if i < done then slots[i].value else slots[i].marker
    case Forged(body) => Fake(nonce, body)
  }

  function Render(pieces: seq<Piece>, nonce: string, slots: seq<Slot>, done: nat): string {
    if pieces == [] then "" else Show(pieces[0], nonce, slots, done) + Render(pieces[1..], nonce, slots, done)
  }

  // A piece with its value in place. A forged marker leaves its last bracket, so
  // that the texts beside it do not run together.
  function Value(p: Piece, slots: seq<Slot>): string {
    match p
    case Text(c) => [c]
    case Kept(i) => if i < |slots| then slots[i].value else ""
    case Forged(_) => "]"
  }

  function Fill(pieces: seq<Piece>, slots: seq<Slot>): string {
    if pieces == [] then "" else Value(pieces[0], slots) + Fill(pieces[1..], slots)
  }

  function Count(pieces: seq<Piece>, slot: nat): nat {
    if pieces == [] then 0 else (if pieces[0] == Kept(slot) then 1 else 0) + Count(pieces[1..], slot)
  }

  predicate HasForged(pieces: seq<Piece>) {
    exists i :: 0 <= i < |pieces| && pieces[i].Forged?
  }

  // The promise of `Restore`: every marker kept exactly once and none forged.
  function Verdict(pieces: seq<Piece>, slots: seq<Slot>, from: nat): Result<string, RestoreError>
    requires from <= |slots|
    decreases |slots| - from
  {
    if from == |slots| then if HasForged(pieces) then Err(UnexpectedPlaceholder) else Ok(Fill(pieces, slots))
    else
      var n := Count(pieces, from);
      if n == 0 then Err(MissingPlaceholder)
      else if n == 1 then Verdict(pieces, slots, from + 1)
      else Err(DuplicatedPlaceholder)
  }

  lemma FakeIsBracketed(nonce: string, body: string)
    requires Plain(nonce) && Plain(body)
    ensures Bracketed(Fake(nonce, body))
  {
    PrefixOpens(nonce);
    hide Prefix, Plain, Bracketed;
    BracketedBetween(Prefix(nonce), body);
  }

  lemma AbsentSuffix(a: string, b: string, m: string)
    requires !Contains(a + b, m)
    ensures !Contains(a, m) && !Contains(b, m)
  {
    assert a + b == "" + a + b == a + b + "";
    if Contains(a, m) {
      ContainsInside("", a, b, m);
    }
    if Contains(b, m) {
      ContainsInside(a, b, "", m);
    }
  }

  predicate Literal(p: Piece, done: nat) { p.Text? || (p.Kept? && p.slot < done) }

  lemma ShownPiece(p: Piece, nonce: string, slots: seq<Slot>, k: nat)
    requires ValidSlots(nonce, slots) && ValidPiece(p, nonce, slots) && k < |slots|
    ensures if Literal(p, k) then Show(p, nonce, slots, k) == Value(p, slots) && p != Kept(k)
            else Bracketed(Show(p, nonce, slots, k))
                 && (Show(p, nonce, slots, k) == slots[k].marker <==> p == Kept(k))
  {
    hide Plain, Prefix, Bracketed, Fake;
    if p.Forged? {
      FakeIsBracketed(nonce, p.body);
    }
  }

  // The matches of a slot's marker, after literal text, are the pieces that keep it.
  lemma {:induction false} MatchesAreKept(a: string, pieces: seq<Piece>, nonce: string, slots: seq<Slot>, k: nat)
    requires ValidSlots(nonce, slots) && ValidPieces(pieces, nonce, slots) && k < |slots|
    requires !Contains(a + Fill(pieces, slots), Prefix(nonce))
    ensures Matches(a + Render(pieces, nonce, slots, k), slots[k].marker) == Count(pieces, k)
    decreases |pieces|
  {
    hide Contains, Matches, Plain, Prefix, Bracketed, ValidPiece, Show, Value, Literal;
    var m := slots[k].marker;
    AbsentSuffix(a, Fill(pieces, slots), Prefix(nonce));
    NoPrefixNoMarker(a, nonce, m);
    if pieces == [] {
      assert a + "" == a;
    } else {
      var p, rest := pieces[0], pieces[1..];
      assert ValidPiece(p, nonce, slots);
      assert ValidPieces(rest, nonce, slots);
      ShownPiece(p, nonce, slots, k);
      var shown, tail := Show(p, nonce, slots, k), Render(rest, nonce, slots, k);
      var value, left := Value(p, slots), Fill(rest, slots);
      assert a + (shown + tail) == a + shown + tail && a + (value + left) == (a + value) + left;
      if Literal(p, k) {
        MatchesAreKept(a + shown, rest, nonce, slots, k);
      } else {
        AbsentSuffix(a + value, left, Prefix(nonce));
        assert "" + tail == tail && "" + left == left;
        MatchesAreKept("", rest, nonce, slots, k);
        MatchesAround(a, shown, tail, m);
      }
    }
  }

  // ---- Putting one slot back ------------------------------------------------------

  // Without the marker of slot `k` there is nothing to put back.
  lemma {:induction false} NothingToReplace(pieces: seq<Piece>, nonce: string, slots: seq<Slot>, k: nat)
    requires Count(pieces, k) == 0
    ensures Render(pieces, nonce, slots, k) == Render(pieces, nonce, slots, k + 1)
  {
    if pieces != [] {
      NothingToReplace(pieces[1..], nonce, slots, k);
    }
  }

  // The one marker of slot `k`, between what is shown before and after it.
  lemma {:induction false} KeptBetween(pieces: seq<Piece>, nonce: string, slots: seq<Slot>, k: nat)
    returns (left: string, right: string)
    requires Count(pieces, k) == 1 && k < |slots|
    ensures Render(pieces, nonce, slots, k) == left + slots[k].marker + right
    ensures Render(pieces, nonce, slots, k + 1) == left + slots[k].value + right
  {
    var p, rest := pieces[0], pieces[1..];
    if p == Kept(k) {
      NothingToReplace(rest, nonce, slots, k);
      left, right := "", Render(rest, nonce, slots, k);
      assert left + slots[k].marker == slots[k].marker && left + slots[k].value == slots[k].value;
    } else {
      var shown := Show(p, nonce, slots, k);
      assert Render(pieces, nonce, slots, k) == shown + Render(rest, nonce, slots, k);
      assert Render(pieces, nonce, slots, k + 1) == shown + Render(rest, nonce, slots, k + 1);
      var tail;
      tail, right := KeptBetween(rest, nonce, slots, k);
      left := shown + tail;
      hide *;
      Regroup(shown, tail + slots[k].marker, right);
      Regroup(shown, tail, slots[k].marker);
      Regroup(shown, tail + slots[k].value, right);
      Regroup(shown, tail, slots[k].value);
    }
  }

  lemma ReplaceKept(pieces: seq<Piece>, nonce: string, slots: seq<Slot>, k: nat)
    requires ValidSlots(nonce, slots) && ValidPieces(pieces, nonce, slots) && k < |slots|
    requires !Contains(Fill(pieces, slots), Prefix(nonce)) && Count(pieces, k) == 1
    ensures slots[k].marker != ""
    ensures ReplaceFirst(Render(pieces, nonce, slots, k), slots[k].marker, slots[k].value)
         == Render(pieces, nonce, slots, k + 1)
  {
    var m, v := slots[k].marker, slots[k].value;
    assert Bracketed(m) && m != "";
    hide *;
    assert "" + Fill(pieces, slots) == Fill(pieces, slots);
    assert "" + Render(pieces, nonce, slots, k) == Render(pieces, nonce, slots, k);
    MatchesAreKept("", pieces, nonce, slots, k);
    var left, right := KeptBetween(pieces, nonce, slots, k);
    MatchesAround(left, m, right, m);
    ReplaceAround(left, m, right, v);
  }

  // ---- What is left when every slot is back -----------------------------------------

  lemma {:induction false} AllBack(pieces: seq<Piece>, nonce: string, slots: seq<Slot>)
    requires ValidPieces(pieces, nonce, slots) && !HasForged(pieces)
    ensures Render(pieces, nonce, slots, |slots|) == Fill(pieces, slots)
  {
    if pieces != [] {
      assert ValidPiece(pieces[0], nonce, slots);
      assert forall i :: 0 <= i < |pieces[1..]| ==> pieces[1..][i] == pieces[i + 1];
      AllBack(pieces[1..], nonce, slots);
    }
  }

  lemma {:induction false} ForgedShows(pieces: seq<Piece>, nonce: string, slots: seq<Slot>, done: nat)
    requires HasForged(pieces)
    ensures Contains(Render(pieces, nonce, slots, done), Prefix(nonce))
  {
    var p, rest := pieces[0], pieces[1..];
    var shown, tail := Show(p, nonce, slots, done), Render(rest, nonce, slots, done);
    if p.Forged? {
      assert (shown + tail)[..|Prefix(nonce)|] == Prefix(nonce);
      assert At(shown + tail, Prefix(nonce), 0);
    } else {
      var i :| 0 <= i < |pieces| && pieces[i].Forged?;
      assert rest[i - 1].Forged?;
      hide Prefix, Show;
      ForgedShows(rest, nonce, slots, done);
      ContainsInside(shown, tail, "", Prefix(nonce));
      assert shown + tail + "" == shown + tail;
    }
  }

  // Whatever a rewrite does with the markers, restoring tells: the first slot whose
  // marker is not kept exactly once decides the error, a forged marker is found at
  // the end, and otherwise every value is back in its place. The condition is that
  // the text around the values does not itself spell the prefix.
  lemma {:induction false} RestoreJudgesRewrite(pieces: seq<Piece>, nonce: string, slots: seq<Slot>, from: nat)
    requires ValidSlots(nonce, slots) && ValidPieces(pieces, nonce, slots) && from <= |slots|
    requires !Contains(Fill(pieces, slots), Prefix(nonce))
    ensures Restored(Render(pieces, nonce, slots, from), nonce, slots[from..]) == Verdict(pieces, slots, from)
    decreases |slots| - from
  {
    hide Contains, Matches, Plain, Prefix, ValidPieces, Fill, Count, ReplaceFirst, Render, HasForged;
    if from == |slots| {
      if HasForged(pieces) {
        ForgedShows(pieces, nonce, slots, from);
      } else {
        AllBack(pieces, nonce, slots);
      }
    } else {
      assert slots[from..][1..] == slots[from + 1..];
      assert "" + Fill(pieces, slots) == Fill(pieces, slots);
      assert "" + Render(pieces, nonce, slots, from) == Render(pieces, nonce, slots, from);
      MatchesAreKept("", pieces, nonce, slots, from);
      if Count(pieces, from) == 1 {
        ReplaceKept(pieces, nonce, slots, from);
        RestoreJudgesRewrite(pieces, nonce, slots, from + 1);
      }
    }
  }

  // The slots of every redaction qualify.
  lemma {:induction false} CutSlotsAreValid(text: string, nonce: string, k: nat, cuts: seq<Cut>)
    requires Plain(nonce) && ValidCuts(|text|, nonce, k, cuts)
    ensures ValidSlots(nonce, CutSlots(text, nonce, k, cuts))
    ensures forall i :: 0 <= i < |cuts| ==>
              CutSlots(text, nonce, k, cuts)[i].marker == Marker(nonce, cuts[i].kind, k + i)
    decreases |cuts|
  {
    hide *;
    if cuts == [] {
      NoSlots(text, nonce, k);
    } else {
      var c, rest := cuts[0], cuts[1..];
      var m := Marker(nonce, c.kind, k);
      assert cuts == [c] + rest;
      HeadCut(|text|, nonce, k, c, rest);
      SpliceParts(text, c.start, c.end, m);
      var next := Splice(text, c.start, c.end, m);
      FirstCut(text, nonce, k, c, rest);
      var tail := CutSlots(next, nonce, k + 1, rest);
      CutSlotsAreValid(next, nonce, k + 1, rest);
      MarkerIsBracketed(nonce, c.kind, k);
      forall i | 0 <= i < |tail|
        ensures tail[i].marker != m
      {
        MarkerApart(nonce, c.kind, k, rest[i].kind, k + 1 + i);
      }
      OneSlotMore(nonce, Slot(m, text[c.start..c.end]), tail);
    }
  }

  lemma NoSlots(text: string, nonce: string, k: nat)
    requires Plain(nonce)
    ensures ValidCuts(|text|, nonce, k, []) && CutSlots(text, nonce, k, []) == [] && ValidSlots(nonce, [])
  {
  }

  lemma OneSlotMore(nonce: string, first: Slot, slots: seq<Slot>)
    requires ValidSlots(nonce, slots) && Bracketed(first.marker) && Prefix(nonce) <= first.marker
    requires forall i :: 0 <= i < |slots| ==> slots[i].marker != first.marker
    ensures ValidSlots(nonce, [first] + slots)
  {
    hide Bracketed, Prefix, Plain;
  }
}
