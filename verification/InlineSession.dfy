// Delivering a replacement to the focused text: through Accessibility, else by
// pasting from a borrowed clipboard, else by typing.
module InlineSession {
  // What the target and the input injector answer is a script; `calls` records what
  // was asked of them, in order.

  import opened Wrappers
  import opened ByteStrings
  import opened Clipboard

  datatype Attempt = SelectedText | Value | ValueRange | Unavailable

  datatype Method =
    AccessibilitySelectedText | AccessibilityValue | AccessibilityValueRange | ClipboardPaste | UnicodeKeystrokes

  datatype Call =
    | Validated(ok: bool)
    | Replaced(attempt: Result<Attempt, Error>)
    | Prepared(ok: bool)
    | FallbackValidated(ok: bool)
    | Pasted(ok: bool)
    | Typed(ok: bool)
    | Confirmed(ok: bool)
    | Released

  // `fallback` is asked before the first attempt, before pasting and before typing.
  datatype Script =
    Script(validate: Result<(), Error>, replace: Result<Attempt, Error>, prepare: Result<(), Error>,
           fallbackFirst: Result<(), Error>, fallbackPaste: Result<(), Error>, fallbackType: Result<(), Error>,
           paste: Result<(), Error>, typing: Result<(), Error>, confirm: Result<(), Error>,
           snapshotFails: Option<Error>)

  const RELEASED := Other(0)

  function MethodOf(a: Attempt): Option<Method> {
    match a
    case SelectedText => Some(AccessibilitySelectedText)
    case Value => Some(AccessibilityValue)
    case ValueRange => Some(AccessibilityValueRange)
    case Unavailable => None
  }

  // The insertion a call has made, if any.
  function Insertion(c: Call): Option<Method> {
    match c
    case Replaced(Ok(attempt)) => MethodOf(attempt)
    case Pasted(true) => Some(ClipboardPaste)
    case Typed(true) => Some(UnicodeKeystrokes)
    case _ => None
  }

  function Insertions(calls: seq<Call>): seq<Method> {
    if calls == [] then []
    else
      var last := Insertion(calls[|calls| - 1]);
      Insertions(calls[..|calls| - 1]) + if last.Some? then [last.value] else []
  }

  // Every paste and every typing directly follows a successful validation.
  predicate Guarded(calls: seq<Call>) {
    forall i :: 0 <= i < |calls| && (calls[i].Pasted? || calls[i].Typed?) ==>
      i > 0 && calls[i - 1] == FallbackValidated(true)
  }

  lemma {:induction false} InsertionsConcat(a: seq<Call>, b: seq<Call>)
    ensures Insertions(a + b) == Insertions(a) + Insertions(b)
    decreases |b|
  {
    if b == [] {
      assert a + b == a;
    } else {
      assert (a + b)[..|a + b| - 1] == a + b[..|b| - 1];
      InsertionsConcat(a, b[..|b| - 1]);
    }
  }

  lemma OneCall(c: Call)
    ensures Insertions([c]) == if Insertion(c).Some? then [Insertion(c).value] else []
    ensures Guarded([c]) <==> !c.Pasted? && !c.Typed?
  {
    assert [c][..0] == [];
  }

  // A paste or a typing right after a successful validation.
  lemma GuardedPair(c: Call)
    ensures Guarded([FallbackValidated(true), c])
    ensures Insertions([FallbackValidated(true), c]) == if Insertion(c).Some? then [Insertion(c).value] else []
  {
    OneCall(FallbackValidated(true));
    OneCall(c);
    InsertionsConcat([FallbackValidated(true)], [c]);
    assert [FallbackValidated(true)] + [c] == [FallbackValidated(true), c];
  }

  lemma Joined(a: seq<Call>, b: seq<Call>)
    requires Guarded(a) && Guarded(b)
    ensures Guarded(a + b) && Insertions(a + b) == Insertions(a) + Insertions(b)
    ensures b != [] ==> (a + b)[|a + b| - 1] == b[|b| - 1]
  {
    hide Insertions;
    InsertionsConcat(a, b);
  }

  // ---- What a delivery does --------------------------------------------------------------

  // The calls of a step, in order, and its result.
  type Step = (seq<Call>, Result<Method, Error>)

  function Confirming(wholeDraft: bool, done: Method, confirm: Result<(), Error>): Step {
    if !wholeDraft then ([], Ok(done))
    else ([Confirmed(confirm.Ok?)], if confirm.Ok? then Ok(done) else Err(confirm.error))
  }

  function Typing(wholeDraft: bool, script: Script): Step {
    if script.fallbackType.Err? then ([FallbackValidated(false)], Err(script.fallbackType.error))
    else if script.typing.Err? then ([FallbackValidated(true), Typed(false)], Err(script.typing.error))
    else
      var (said, result) := Confirming(wholeDraft, UnicodeKeystrokes, script.confirm);
      ([FallbackValidated(true), Typed(true)] + said, result)
  }

  // What came of borrowing the clipboard, and whether the paste was tried.
  datatype Borrowing = Borrowing(result: Result<(), Error>, acted: bool)

  function PasteOf(script: Script): Result<(), Error> {
    if script.fallbackPaste.Err? then script.fallbackPaste else script.paste
  }

  function PasteCalls(script: Script): seq<Call> {
    if script.fallbackPaste.Err? then [FallbackValidated(false)]
    else [FallbackValidated(true), Pasted(script.paste.Ok?)]
  }

  // The errors after which the text may still be typed: nothing has been inserted.
  predicate TypesAfter(e: Error) {
    e in {ClipboardSnapshot, ClipboardLimit, ClipboardWrite, InputInjection}
  }

  function Pasting(wholeDraft: bool, script: Script, clip: Borrowing): Step {
    var tried := if clip.acted then PasteCalls(script) else [];
    match clip.result
    case Ok(_) =>
      var (said, result) := Confirming(wholeDraft, ClipboardPaste, script.confirm);
      (tried + said, result)
    case Err(e) =>
      if !TypesAfter(e) then (tried, Err(e))
      else
        var (said, result) := Typing(wholeDraft, script);
        (tried + said, result)
  }

  function Delivery(replacement: Bytes, wholeDraft: bool, script: Script, clip: Borrowing): Step {
    if script.validate.Err? then ([Validated(false)], Err(script.validate.error))
    else
      var start := [Validated(true), Replaced(script.replace)];
      match script.replace
      case Err(e) => (start, Err(e))
      case Ok(attempt) =>
        if attempt != Unavailable then
          var (said, result) := Confirming(wholeDraft, MethodOf(attempt).value, script.confirm);
          (start + said, result)
        else if script.prepare.Err? then (start + [Prepared(false)], Err(script.prepare.error))
        else if script.fallbackFirst.Err? then
          (start + [Prepared(true), FallbackValidated(false)], Err(script.fallbackFirst.error))
        else
          var (said, result) :=
            if replacement == [] then Typing(wholeDraft, script) else Pasting(wholeDraft, script, clip);
          (start + [Prepared(true), FallbackValidated(true)] + said, result)
  }

  // A released session delivers nothing.
  function DeliveryUnless(released: bool, replacement: Bytes, wholeDraft: bool, script: Script, clip: Borrowing): Step {
    if released then ([], Err(RELEASED)) else Delivery(replacement, wholeDraft, script, clip)
  }

  predicate NeedsClipboard(replacement: Bytes, script: Script) {
    script.validate.Ok? && script.replace == Ok(Unavailable) && script.prepare.Ok? && script.fallbackFirst.Ok?
    && replacement != []
  }

  // A borrowed clipboard reports the paste itself, or that it could not be given back.
  predicate Possible(script: Script, clip: Borrowing) {
    if !clip.acted then clip.result.Err?
    else
      clip.result == PasteOf(script)
      || (clip.result.Err? && clip.result.error in {ClipboardChanged, ClipboardRestore})
  }

  // When a delivery succeeds, and by which method: the first that is available, typing
  // also after a failed borrowing that has inserted nothing.
  lemma DeliverySucceedsIff(replacement: Bytes, wholeDraft: bool, script: Script, clip: Borrowing)
    ensures var r := Delivery(replacement, wholeDraft, script, clip).1;
            var confirmed := wholeDraft ==> script.confirm.Ok?;
            var fallback := script.validate.Ok? && script.replace == Ok(Unavailable) && script.prepare.Ok?
                            && script.fallbackFirst.Ok?;
            var untouched := clip.result.Err? && (clip.result.error == ClipboardSnapshot
                                                  || clip.result.error == ClipboardLimit
                                                  || clip.result.error == ClipboardWrite
                                                  || clip.result.error == InputInjection);
            && (r == Ok(AccessibilitySelectedText) <==>
                  script.validate.Ok? && script.replace == Ok(SelectedText) && confirmed)
            && (r == Ok(AccessibilityValue) <==> script.validate.Ok? && script.replace == Ok(Value) && confirmed)
            && (r == Ok(AccessibilityValueRange) <==>
                  script.validate.Ok? && script.replace == Ok(ValueRange) && confirmed)
            && (r == Ok(ClipboardPaste) <==> fallback && replacement != [] && clip.result.Ok? && confirmed)
            && (r == Ok(UnicodeKeystrokes) <==>
                  fallback && (replacement == [] || untouched) && script.fallbackType.Ok? && script.typing.Ok?
                  && confirmed)
  {
  }

  // A refused delivery returns the refusal that stopped it.
  lemma RefusalIsReturned(replacement: Bytes, wholeDraft: bool, script: Script, clip: Borrowing)
    requires Delivery(replacement, wholeDraft, script, clip).1.Err?
    ensures var e := Delivery(replacement, wholeDraft, script, clip).1.error;
            if script.validate.Err? then e == script.validate.error
            else if script.replace.Err? then e == script.replace.error
            else if script.replace.value != Unavailable then e == script.confirm.error
            else if script.prepare.Err? then e == script.prepare.error
            else if script.fallbackFirst.Err? then e == script.fallbackFirst.error
            else if replacement != [] && clip.result.Ok? then e == script.confirm.error
            else if replacement != [] && !TypesAfter(clip.result.error) then e == clip.result.error
            else if script.fallbackType.Err? then e == script.fallbackType.error
            else if script.typing.Err? then e == script.typing.error
            else e == script.confirm.error
  {
  }

  // At most one insertion, the one a success names, and a whole draft is confirmed last.
  ghost predicate Safe(step: Step, wholeDraft: bool) {
    var (calls, r) := step;
    Guarded(calls) && |Insertions(calls)| <= 1
    && (r.Ok? ==> Insertions(calls) == [r.value]
                  && (wholeDraft ==> calls != [] && calls[|calls| - 1] == Confirmed(true)))
  }

  // Nothing is inserted before, or nothing after it.
  lemma SafeAfter(before: seq<Call>, step: Step, wholeDraft: bool)
    requires Guarded(before) && Insertions(before) == [] && Safe(step, wholeDraft)
    ensures Safe((before + step.0, step.1), wholeDraft)
  {
    hide Insertions, Guarded;
    Joined(before, step.0);
  }

  lemma ConfirmedIsSafe(before: seq<Call>, wholeDraft: bool, done: Method, confirm: Result<(), Error>)
    requires Guarded(before) && Insertions(before) == [done]
    ensures var (said, r) := Confirming(wholeDraft, done, confirm); Safe((before + said, r), wholeDraft)
  {
    OneCall(Confirmed(confirm.Ok?));
    NoCalls();
    hide Insertions, Guarded;
    Joined(before, Confirming(wholeDraft, done, confirm).0);
  }

  lemma TypingIsSafe(wholeDraft: bool, script: Script)
    ensures Safe(Typing(wholeDraft, script), wholeDraft)
  {
    OneCall(FallbackValidated(false));
    GuardedPair(Typed(script.typing.Ok?));
    hide Insertions, Guarded;
    if script.fallbackType.Ok? && script.typing.Ok? {
      ConfirmedIsSafe([FallbackValidated(true), Typed(true)], wholeDraft, UnicodeKeystrokes, script.confirm);
    }
  }

  lemma TypingIsNotPasting(wholeDraft: bool, script: Script)
    ensures Typing(wholeDraft, script).1 != Ok(ClipboardPaste)
  {
  }

  lemma PastingIsSafe(wholeDraft: bool, script: Script, clip: Borrowing)
    requires Possible(script, clip)
    ensures Safe(Pasting(wholeDraft, script, clip), wholeDraft)
  {
    OneCall(FallbackValidated(false));
    GuardedPair(Pasted(script.paste.Ok?));
    NoCalls();
    TypingIsSafe(wholeDraft, script);
    var tried := if clip.acted then PasteCalls(script) else [];
    hide Insertions, Guarded, Typing;
    if clip.result.Ok? {
      ConfirmedIsSafe(tried, wholeDraft, ClipboardPaste, script.confirm);
    } else if TypesAfter(clip.result.error) {
      SafeAfter(tried, Typing(wholeDraft, script), wholeDraft);
    }
  }

  lemma StartIsGuarded(replace: Result<Attempt, Error>, more: seq<Call>)
    requires Guarded(more) && Insertions(more) == []
    ensures var start := [Validated(true), Replaced(replace)];
            Guarded(start + more) && Insertions(start + more) == if Insertion(Replaced(replace)).Some?
                                                                 then [Insertion(Replaced(replace)).value] else []
  {
    OneCall(Validated(true));
    OneCall(Replaced(replace));
    assert [Validated(true)] + [Replaced(replace)] == [Validated(true), Replaced(replace)];
    hide Insertions, Guarded, Insertion;
    Joined([Validated(true)], [Replaced(replace)]);
    Joined([Validated(true), Replaced(replace)], more);
  }

  lemma FallbackStarts(prepared: bool, fallback: bool)
    ensures Guarded([Prepared(prepared)]) && Insertions([Prepared(prepared)]) == []
    ensures Guarded([Prepared(prepared), FallbackValidated(fallback)])
    ensures Insertions([Prepared(prepared), FallbackValidated(fallback)]) == []
  {
    OneCall(Prepared(prepared));
    OneCall(FallbackValidated(fallback));
    assert [Prepared(prepared)] + [FallbackValidated(fallback)] == [Prepared(prepared), FallbackValidated(fallback)];
    hide Insertions, Guarded;
    Joined([Prepared(prepared)], [FallbackValidated(fallback)]);
  }

  // Whatever the target, the injector and the clipboard answer: every paste and every
  // typing directly follows a successful validation, at most one insertion is made,
  // and a success names the one that was.
  lemma DeliveryIsSafe(replacement: Bytes, wholeDraft: bool, script: Script, clip: Borrowing)
    requires Possible(script, clip)
    ensures Safe(Delivery(replacement, wholeDraft, script, clip), wholeDraft)
  {
    hide Insertions, Guarded, Typing, Pasting, Confirming, PasteCalls;
    OneCall(Validated(false));
    NoCalls();
    var start := [Validated(true), Replaced(script.replace)];
    assert start + [] == start;
    StartIsGuarded(script.replace, []);
    FallbackStarts(script.prepare.Ok?, script.fallbackFirst.Ok?);
    TypingIsSafe(wholeDraft, script);
    PastingIsSafe(wholeDraft, script, clip);
    if script.validate.Ok? && script.replace.Ok? {
      if script.replace.value != Unavailable {
        ConfirmedIsSafe(start, wholeDraft, MethodOf(script.replace.value).value, script.confirm);
      } else if script.prepare.Err? {
        StartIsGuarded(script.replace, [Prepared(false)]);
      } else {
        var more := [Prepared(true), FallbackValidated(script.fallbackFirst.Ok?)];
        StartIsGuarded(script.replace, more);
        SafeAfter(start + more,
                  if replacement == [] then Typing(wholeDraft, script) else Pasting(wholeDraft, script, clip),
                  wholeDraft);
      }
    }
  }

  class InlineSession {
    const pasteboard: Pasteboard
    var released: bool
    var calls: seq<Call>
    ghost var releases: nat

    // The target is released once at most.
    ghost predicate Valid()
      reads this, pasteboard
    {
      pasteboard.Valid() && !pasteboard.overwrote && releases == (if released then 1 else 0)
    }

    constructor (pasteboard: Pasteboard)
      requires pasteboard.Valid() && !pasteboard.overwrote
      ensures Valid() && this.pasteboard == pasteboard && !released && calls == []
    {
      this.pasteboard, released, calls, releases := pasteboard, false, [], 0;
    }

    // Delivers the replacement: one insertion at most over the whole call, and exactly
    // the one that a success names. No write of another program to the clipboard is
    // overwritten. `clip` is what came of borrowing the clipboard.
    method Deliver(replacement: Bytes, wholeDraft: bool, script: Script)
      returns (r: Result<Method, Error>, ghost clip: Borrowing)
      requires Valid()
      modifies this`calls, pasteboard
      ensures Valid()
      ensures var (said, result) := DeliveryUnless(released, replacement, wholeDraft, script, clip);
              calls == old(calls) + said && r == result && Safe((said, result), wholeDraft)
      ensures released ==> r == Err(RELEASED) && calls == old(calls)
      ensures !released ==> r == Delivery(replacement, wholeDraft, script, clip).1
      ensures released || replacement == [] || script.replace != Ok(Unavailable) ==>
                pasteboard.contents == old(pasteboard.contents) && pasteboard.revision == old(pasteboard.revision)
      ensures released || !NeedsClipboard(replacement, script) ==>
                pasteboard.contents == old(pasteboard.contents) && pasteboard.revision == old(pasteboard.revision)
      ensures r == Ok(ClipboardPaste) ==>
                pasteboard.contents == old(pasteboard.contents)
                && pasteboard.externalWrites == old(pasteboard.externalWrites)
      ensures !released && NeedsClipboard(replacement, script)
              && pasteboard.externalWrites == old(pasteboard.externalWrites)
              && pasteboard.failedRestores == old(pasteboard.failedRestores) ==>
                clip.result == old(Uninterrupted(pasteboard.contents, pasteboard.writeFails, script.snapshotFails,
                                                 PasteOf(script)))
    {
      hide Insertions, Guarded, Safe, Pasting, Typing, Confirming, Uninterrupted, WithinLimits;
      clip := Borrowing(Err(ClipboardSnapshot), false);
      DeliveryIsSafe(replacement, wholeDraft, script, clip);
      if released {
        NothingIsSafe(RELEASED, wholeDraft);
        return Err(RELEASED), clip;
      }
      calls := calls + [Validated(script.validate.Ok?)];
      if script.validate.Err? {
        return Err(script.validate.error), clip;
      }
      calls := calls + [Replaced(script.replace)];
      assert calls == old(calls) + [Validated(true), Replaced(script.replace)];
      if script.replace.Err? {
        return Err(script.replace.error), clip;
      }
      if MethodOf(script.replace.value).Some? {
        r := ConfirmDelivery(wholeDraft, MethodOf(script.replace.value).value, script.confirm);
        return;
      }
      calls := calls + [Prepared(script.prepare.Ok?)];
      if script.prepare.Err? {
        return Err(script.prepare.error), clip;
      }
      calls := calls + [FallbackValidated(script.fallbackFirst.Ok?)];
      assert calls == old(calls) + ([Validated(true), Replaced(script.replace)]
                                    + [Prepared(true), FallbackValidated(script.fallbackFirst.Ok?)]);
      if script.fallbackFirst.Err? {
        return Err(script.fallbackFirst.error), clip;
      }
      if replacement == [] {
        r := TypeInstead(wholeDraft, script);
        return;
      }
      r, clip := PasteOrType(replacement, wholeDraft, script);
      DeliveryIsSafe(replacement, wholeDraft, script, clip);
    }

    // Pasting, and typing when the clipboard or the paste refuses.
    method PasteOrType(replacement: Bytes, wholeDraft: bool, script: Script)
      returns (r: Result<Method, Error>, ghost clip: Borrowing)
      requires pasteboard.Valid() && !pasteboard.overwrote
      modifies this`calls, pasteboard
      ensures pasteboard.Valid() && !pasteboard.overwrote && Possible(script, clip)
      ensures var (said, result) := Pasting(wholeDraft, script, clip); calls == old(calls) + said && r == result
      ensures r == Ok(ClipboardPaste) ==>
                pasteboard.contents == old(pasteboard.contents)
                && pasteboard.externalWrites == old(pasteboard.externalWrites)
      ensures pasteboard.externalWrites == old(pasteboard.externalWrites)
              && pasteboard.failedRestores == old(pasteboard.failedRestores) ==>
                clip.result == old(Uninterrupted(pasteboard.contents, pasteboard.writeFails, script.snapshotFails,
                                                 PasteOf(script)))
    {
      TypingIsNotPasting(wholeDraft, script);
      hide WithinLimits, Uninterrupted, CanAct, Typing, Confirming, PasteCalls, PasteOf;
      var pasted;
      pasted, clip := Paste(replacement, script);
      if pasted.Ok? {
        r := ConfirmDelivery(wholeDraft, ClipboardPaste, script.confirm);
      } else if TypesAfter(pasted.error) {
        r := TypeInstead(wholeDraft, script);
      } else {
        r := Err(pasted.error);
      }
    }

    // The paste alone, under the borrowed clipboard.
    method Paste(replacement: Bytes, script: Script) returns (pasted: Result<(), Error>, ghost clip: Borrowing)
      requires pasteboard.Valid() && !pasteboard.overwrote
      modifies this`calls, pasteboard
      ensures pasteboard.Valid() && !pasteboard.overwrote && Possible(script, clip) && clip.result == pasted
      ensures calls == old(calls) + if clip.acted then PasteCalls(script) else []
      ensures pasted.Ok? ==> pasteboard.contents == old(pasteboard.contents)
                             && pasteboard.externalWrites == old(pasteboard.externalWrites)
      ensures pasteboard.externalWrites == old(pasteboard.externalWrites)
              && pasteboard.failedRestores == old(pasteboard.failedRestores) ==>
                pasted == old(Uninterrupted(pasteboard.contents, pasteboard.writeFails, script.snapshotFails,
                                            PasteOf(script)))
    {
      hide WithinLimits, Uninterrupted, CanAct;
      var acted;
      ghost var shown;
      pasted, acted, shown := WithTemporaryText(pasteboard, replacement, script.snapshotFails, PasteOf(script));
      clip := Borrowing(pasted, acted);
      if acted {
        calls := calls + [FallbackValidated(script.fallbackPaste.Ok?)];
        if script.fallbackPaste.Ok? {
          calls := calls + [Pasted(script.paste.Ok?)];
        }
      }
    }

    // The last way: typing, after one more validation.
    method TypeInstead(wholeDraft: bool, script: Script) returns (r: Result<Method, Error>)
      modifies this`calls
      ensures var (said, result) := Typing(wholeDraft, script); calls == old(calls) + said && r == result
    {
      calls := calls + [FallbackValidated(script.fallbackType.Ok?)];
      if script.fallbackType.Err? {
        return Err(script.fallbackType.error);
      }
      calls := calls + [Typed(script.typing.Ok?)];
      if script.typing.Err? {
        return Err(script.typing.error);
      }
      r := ConfirmDelivery(wholeDraft, UnicodeKeystrokes, script.confirm);
    }

    method ConfirmDelivery(wholeDraft: bool, done: Method, confirm: Result<(), Error>)
      returns (r: Result<Method, Error>)
      modifies this`calls
      ensures var (said, result) := Confirming(wholeDraft, done, confirm); calls == old(calls) + said && r == result
    {
      if wholeDraft {
        calls := calls + [Confirmed(confirm.Ok?)];
        if confirm.Err? {
          return Err(confirm.error);
        }
      }
      r := Ok(done);
    }

    // Cancelling, and dropping after it, releases the target once.
    method Cleanup()
      requires Valid()
      modifies this`released, this`releases, this`calls
      ensures Valid() && released && releases == 1
      ensures calls == if old(released) then old(calls) else old(calls) + [Released]
    {
      if released {
        return;
      }
      calls := calls + [Released];
      releases := releases + 1;
      released := true;
    }
  }

  lemma NoCalls()
    ensures Guarded([]) && Insertions([]) == []
  {
  }

  lemma NothingIsSafe(e: Error, wholeDraft: bool)
    ensures Safe(([], Err(e)), wholeDraft)
  {
  }
}
