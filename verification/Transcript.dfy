// The reconciler that turns server messages into transcript revisions, and the
// session as a whole: what the reconciler accepts never overruns the event queue.
module Transcript {
  import opened Wrappers
  import opened EventQueue
  import opened Transcription
  import opened Utf8Length

  const MAX_TRANSCRIPT_ITEMS := 128
  const MAX_ITEM_ID_BYTES := 512
  const MAX_TRANSCRIPT_ITEM_BYTES := 1024 * 1024
  const MAX_TRANSCRIPT_TOTAL_BYTES := 4 * 1024 * 1024
  const BACKEND_EVENT_CAPACITY := 256

  predicate ForbiddenControl(c: char) {
    var n := c as int;
    (n < 0x20 || 0x7F <= n <= 0x9F) && c != '\n' && c != '\r' && c != '\t'
  }

  predicate ValidId(item: string) {
    item != "" && ByteLen(item) <= MAX_ITEM_ID_BYTES
    && forall i :: 0 <= i < |item| ==> !ForbiddenControl(item[i])
  }

  // Bytes a map holds, summed over the items in their order.
  function StoredFor(order: seq<string>, texts: map<string, string>): nat {
    if order == [] then 0
    else (if order[0] in texts then ByteLen(texts[order[0]]) else 0) + StoredFor(order[1..], texts)
  }

  function SaturatingSub(a: nat, b: nat): nat { if b < a then a - b else 0 }

  function LenOf(texts: map<string, string>, item: string): nat {
    if item in texts then ByteLen(texts[item]) else 0
  }

  lemma {:induction false} StoredWith(order: seq<string>, texts: map<string, string>, item: string, text: string)
    requires NoDuplicates(order) && item in order
    ensures StoredFor(order, texts[item := text]) == StoredFor(order, texts) - LenOf(texts, item) + ByteLen(text)
    ensures StoredFor(order, texts - {item}) == StoredFor(order, texts) - LenOf(texts, item)
    ensures LenOf(texts, item) <= StoredFor(order, texts)
  {
    if order[0] == item {
      StoredWithout(order[1..], texts, item, text);
    } else {
      StoredWith(order[1..], texts, item, text);
    }
  }

  lemma {:induction false} StoredWithout(order: seq<string>, texts: map<string, string>, item: string, text: string)
    requires item !in order
    ensures StoredFor(order, texts[item := text]) == StoredFor(order, texts)
    ensures StoredFor(order, texts - {item}) == StoredFor(order, texts)
  {
    if order != [] {
      assert order[0] != item && item !in order[1..];
      StoredWithout(order[1..], texts, item, text);
    }
  }

  lemma {:induction false} StoredAppend(order: seq<string>, texts: map<string, string>, item: string)
    requires item !in texts
    ensures StoredFor(order + [item], texts) == StoredFor(order, texts)
  {
    if order == [] {
      assert order + [item] == [item];
    } else {
      assert (order + [item])[1..] == order[1..] + [item];
      StoredAppend(order[1..], texts, item);
    }
  }

  predicate NoDuplicates(order: seq<string>) {
    order == [] || (order[0] !in order[1..] && NoDuplicates(order[1..]))
  }

  lemma {:induction false} AppendNoDuplicates(order: seq<string>, item: string)
    requires NoDuplicates(order) && item !in order
    ensures NoDuplicates(order + [item])
  {
    if order == [] {
      assert order + [item] == [item];
    } else {
      assert (order + [item])[1..] == order[1..] + [item];
      assert item !in order[1..] && order[0] != item;
      AppendNoDuplicates(order[1..], item);
    }
  }

  // ---- The books of the reconciler --------------------------------------------------

  datatype Book = Book(order: seq<string>, partials: map<string, string>, finals: map<string, string>)

  function Stored(b: Book): nat { StoredFor(b.order, b.partials) + StoredFor(b.order, b.finals) }

  function Registered(b: Book, item: string): Option<Book> {
    if !ValidId(item) then None
    else if item in b.order then Some(b)
    else if |b.order| >= MAX_TRANSCRIPT_ITEMS then None
    else Some(b.(order := b.order + [item]))
  }

  function WithDelta(b: Book, item: string, delta: string): Option<(Book, string)> {
    match Registered(b, item)
    case None => None
    case Some(c) =>
      if item in c.finals
         || ByteLen(delta) > SaturatingSub(MAX_TRANSCRIPT_ITEM_BYTES, LenOf(c.partials, item))
         || ByteLen(delta) > SaturatingSub(MAX_TRANSCRIPT_TOTAL_BYTES, Stored(c)) then None
      else
        var text := (if item in c.partials then c.partials[item] else "") + delta;
        Some((c.(partials := c.partials[item := text]), text))
  }

  function WithFinal(b: Book, item: string, transcript: string): Option<(Book, string)> {
    match Registered(b, item)
    case None => None
    case Some(c) =>
      var retained := SaturatingSub(Stored(c), LenOf(c.partials, item) + LenOf(c.finals, item));
      if ByteLen(transcript) > MAX_TRANSCRIPT_ITEM_BYTES
         || ByteLen(transcript) > SaturatingSub(MAX_TRANSCRIPT_TOTAL_BYTES, retained) then None
      else Some((c.(partials := c.partials - {item}, finals := c.finals[item := transcript]), transcript))
  }

  // Items once each and few, an item either partial or final, and bounded texts.
  ghost predicate Valid(b: Book) {
    NoDuplicates(b.order) && |b.order| <= MAX_TRANSCRIPT_ITEMS
    && (forall item :: item in b.partials ==>
          (item in b.order && item !in b.finals && ByteLen(b.partials[item]) <= MAX_TRANSCRIPT_ITEM_BYTES))
    && (forall item :: item in b.finals ==>
          (item in b.order && ByteLen(b.finals[item]) <= MAX_TRANSCRIPT_ITEM_BYTES))
    && Stored(b) <= MAX_TRANSCRIPT_TOTAL_BYTES
  }

  lemma RegisteredIsValid(b: Book, item: string)
    requires Valid(b) && Registered(b, item).Some?
    ensures Valid(Registered(b, item).value) && item in Registered(b, item).value.order
    ensures Stored(Registered(b, item).value) == Stored(b)
  {
    if item !in b.order {
      AppendNoDuplicates(b.order, item);
      StoredAppend(b.order, b.partials, item);
      StoredAppend(b.order, b.finals, item);
    }
    hide NoDuplicates, StoredFor, ByteLen, ValidId;
  }

  lemma DeltaIsValid(b: Book, item: string, delta: string)
    requires Valid(b) && WithDelta(b, item, delta).Some?
    ensures Valid(WithDelta(b, item, delta).value.0)
  {
    hide NoDuplicates, StoredFor, ByteLen, ValidId;
    RegisteredIsValid(b, item);
    var c := Registered(b, item).value;
    var partial := if item in c.partials then c.partials[item] else "";
    ByteLenConcat(partial, delta);
    StoredWith(c.order, c.partials, item, partial + delta);
    NothingLong();
  }

  lemma NothingLong()
    ensures ByteLen("") == 0
  {
  }

  lemma FinalIsValid(b: Book, item: string, transcript: string)
    requires Valid(b) && WithFinal(b, item, transcript).Some?
    ensures Valid(WithFinal(b, item, transcript).value.0)
  {
    hide NoDuplicates, StoredFor, ByteLen, ValidId;
    RegisteredIsValid(b, item);
    var c := Registered(b, item).value;
    StoredWith(c.order, c.partials, item, "");
    StoredWith(c.order, c.finals, item, transcript);
  }

  predicate Admissible(b: Book, item: string) {
    item != "" && ByteLen(item) <= 512 && (item in b.order || |b.order| < 128)
    && forall i :: 0 <= i < |item| ==>
         var code := item[i] as int;
         (0x20 <= code < 0x7F) || 0xA0 <= code || code == 0x9 || code == 0xA || code == 0xD
  }

  function Entered(order: seq<string>, item: string): seq<string> {
    if item in order then order else order + [item]
  }

  lemma RegisteredIff(b: Book, item: string)
    ensures Registered(b, item) == if Admissible(b, item) then Some(b.(order := Entered(b.order, item))) else None
  {
    hide ByteLen;
  }

  // All texts of the books, item by item.
  function TextsOf(order: seq<string>, texts: map<string, string>): string {
    if order == [] then ""
    else (if order[0] in texts then texts[order[0]] else "") + TextsOf(order[1..], texts)
  }

  function Everything(b: Book): string { TextsOf(b.order, b.partials) + TextsOf(b.order, b.finals) }

  lemma {:induction false} TextsLength(order: seq<string>, texts: map<string, string>)
    ensures ByteLen(TextsOf(order, texts)) == StoredFor(order, texts)
  {
    if order != [] {
      TextsLength(order[1..], texts);
      ByteLenConcat(if order[0] in texts then texts[order[0]] else "", TextsOf(order[1..], texts));
      hide ByteLen;
      NothingLong();
    }
  }

  lemma StoredIsLength(b: Book)
    ensures Stored(b) == ByteLen(Everything(b))
  {
    TextsLength(b.order, b.partials);
    TextsLength(b.order, b.finals);
    ByteLenConcat(TextsOf(b.order, b.partials), TextsOf(b.order, b.finals));
    hide ByteLen, TextsOf;
  }

  // A delta is accepted exactly when its item is admitted and has no final and neither
  // limit is then passed. It extends the partial of its item and changes no other text.
  lemma DeltaExtends(b: Book, item: string, delta: string)
    requires Valid(b)
    ensures var partial := if item in b.partials then b.partials[item] else "";
            var next := Book(Entered(b.order, item), b.partials[item := partial + delta], b.finals);
            WithDelta(b, item, delta) ==
            if Admissible(b, item) && item !in b.finals && ByteLen(partial) + ByteLen(delta) <= 1024 * 1024
               && ByteLen(Everything(next)) <= 4 * 1024 * 1024
            then Some((next, partial + delta))
            else None
  {
    var partial := if item in b.partials then b.partials[item] else "";
    var next := Book(Entered(b.order, item), b.partials[item := partial + delta], b.finals);
    RegisteredIff(b, item);
    StoredIsLength(next);
    NothingLong();
    hide ByteLen, StoredFor, NoDuplicates, Admissible, Registered, Everything;
    if Registered(b, item).Some? {
      RegisteredIsValid(b, item);
      var c := Registered(b, item).value;
      ByteLenConcat(partial, delta);
      StoredWith(c.order, c.partials, item, partial + delta);
    }
  }

  // A final is accepted exactly when its item is admitted and neither limit is passed by
  // what is then stored. It is taken as it is, in place of partial and earlier final.
  lemma FinalReplaces(b: Book, item: string, transcript: string)
    requires Valid(b)
    ensures var next := Book(Entered(b.order, item), b.partials - {item}, b.finals[item := transcript]);
            WithFinal(b, item, transcript) ==
            if Admissible(b, item) && ByteLen(transcript) <= 1024 * 1024
               && ByteLen(Everything(next)) <= 4 * 1024 * 1024
            then Some((next, transcript))
            else None
  {
    var next := Book(Entered(b.order, item), b.partials - {item}, b.finals[item := transcript]);
    RegisteredIff(b, item);
    StoredIsLength(next);
    hide ByteLen, StoredFor, NoDuplicates, Admissible, Registered, Everything;
    if Registered(b, item).Some? {
      RegisteredIsValid(b, item);
      var c := Registered(b, item).value;
      StoredWith(c.order, c.partials, item, "");
      StoredWith(c.order, c.finals, item, transcript);
    }
  }

  class TranscriptReconciler {
    var order: seq<string>
    var partials: map<string, string>
    var finals: map<string, string>

    function Value(): Book
      reads this
    {
      Book(order, partials, finals)
    }

    constructor ()
      ensures Value() == Book([], map[], map[]) && Valid(Value())
    {
      order, partials, finals := [], map[], map[];
    }

    method Register(item: string) returns (ok: bool)
      requires Valid(Value())
      modifies this`order
      ensures Valid(Value())
      ensures ok <==> Registered(old(Value()), item).Some?
      ensures ok ==> Value() == Registered(old(Value()), item).value
    {
      hide Valid, ValidId;
      if !ValidId(item) {
        return false;
      }
      if item !in order {
        if |order| >= MAX_TRANSCRIPT_ITEMS {
          return false;
        }
        RegisteredIsValid(Value(), item);
        order := order + [item];
      }
      ok := true;
    }

    // The partial of the item, longer by the delta.
    method ApplyDelta(item: string, delta: string) returns (r: Option<string>)
      requires Valid(Value())
      modifies this`order, this`partials
      ensures Valid(Value())
      ensures var next := WithDelta(old(Value()), item, delta);
              if r.Some? then next == Some((Value(), r.value)) else next.None?
      ensures r.Some? ==>
                r.value == (if item in old(partials) then old(partials)[item] else "") + delta
                && partials == old(partials)[item := r.value] && finals == old(finals)
    {
      DeltaExtends(Value(), item, delta);
      hide Valid, ValidId, Registered, ByteLen, StoredFor;
      if WithDelta(Value(), item, delta).Some? {
        DeltaIsValid(Value(), item, delta);
      }
      var ok := Register(item);
      if !ok {
        return None;
      }
      var stored := StoredFor(order, partials) + StoredFor(order, finals);
      if item in finals
         || ByteLen(delta) > SaturatingSub(MAX_TRANSCRIPT_ITEM_BYTES, LenOf(partials, item))
         || ByteLen(delta) > SaturatingSub(MAX_TRANSCRIPT_TOTAL_BYTES, stored) {
        return None;
      }
      var partial := (if item in partials then partials[item] else "") + delta;
      partials := partials[item := partial];
      r := Some(partial);
    }

    // The final of the item; its partial and an earlier final are replaced.
    method Complete(item: string, transcript: string) returns (r: Option<string>)
      requires Valid(Value())
      modifies this
      ensures Valid(Value())
      ensures var next := WithFinal(old(Value()), item, transcript);
              if r.Some? then next == Some((Value(), r.value)) else next.None?
      ensures r.Some? ==>
                r.value == transcript && finals == old(finals)[item := transcript]
                && partials == old(partials) - {item}
    {
      FinalReplaces(Value(), item, transcript);
      hide Valid, ValidId, Registered, ByteLen, StoredFor;
      if WithFinal(Value(), item, transcript).Some? {
        FinalIsValid(Value(), item, transcript);
      }
      var ok := Register(item);
      if !ok {
        return None;
      }
      var stored := StoredFor(order, partials) + StoredFor(order, finals);
      var retained := SaturatingSub(stored, LenOf(partials, item) + LenOf(finals, item));
      if ByteLen(transcript) > MAX_TRANSCRIPT_ITEM_BYTES
         || ByteLen(transcript) > SaturatingSub(MAX_TRANSCRIPT_TOTAL_BYTES, retained) {
        return None;
      }
      partials := partials - {item};
      finals := finals[item := transcript];
      r := Some(transcript);
    }
  }

  // ---- The backend, and the session it feeds --------------------------------------------

  datatype Message =
    | ItemCreated(item: string)
    | DeltaOf(item: string, delta: string)
    | CompletedOf(item: string, transcript: string)

  // The events of the messages up to the first one the reconciler refuses.
  function Emit(b: Book, messages: seq<Message>): (Book, seq<Event>)
    decreases |messages|
  {
    if messages == [] then (b, [])
    else
      match messages[0]
      case ItemCreated(item) =>
        (match Registered(b, item)
         case None => (b, [])
         case Some(c) => Emit(c, messages[1..]))
      case DeltaOf(item, delta) =>
        (match WithDelta(b, item, delta)
         case None => (b, [])
         case Some((c, text)) =>
           var (last, events) := Emit(c, messages[1..]);
           (last, [Partial(item, text)] + events))
      case CompletedOf(item, transcript) =>
        match WithFinal(b, item, transcript)
        case None => (b, [])
        case Some((c, text)) =>
          var (last, events) := Emit(c, messages[1..]);
          (last, [Done(item, text)] + events)
  }

  // ---- What the messages say --------------------------------------------------------------

  // The deltas of an item, joined; its last final; and the items in the order in which
  // they are first named.
  function DeltasIn(messages: seq<Message>, item: string): string {
    if messages == [] then ""
    else
      var last := messages[|messages| - 1];
      DeltasIn(messages[..|messages| - 1], item) + if last.DeltaOf? && last.item == item then last.delta else ""
  }

  function FinalIn(messages: seq<Message>, item: string): Option<string> {
    if messages == [] then None
    else
      var last := messages[|messages| - 1];
      if last.CompletedOf? && last.item == item then Some(last.transcript)
      else FinalIn(messages[..|messages| - 1], item)
  }

  function NamedIn(messages: seq<Message>): seq<string> {
    if messages == [] then [] else Entered(NamedIn(messages[..|messages| - 1]), messages[|messages| - 1].item)
  }

  predicate HasDelta(messages: seq<Message>, item: string) {
    exists i :: 0 <= i < |messages| && messages[i].DeltaOf? && messages[i].item == item
  }

  ghost predicate ItemOf(b: Book, messages: seq<Message>, item: string) {
    && (item in b.finals <==> FinalIn(messages, item).Some?)
    && (item in b.finals ==> b.finals[item] == FinalIn(messages, item).value)
    && (item in b.partials <==> HasDelta(messages, item) && FinalIn(messages, item).None?)
    && (item in b.partials ==> b.partials[item] == DeltasIn(messages, item))
  }

  // The books after messages that were all accepted.
  ghost predicate BookOf(b: Book, messages: seq<Message>) {
    b.order == NamedIn(messages) && forall item: string :: ItemOf(b, messages, item)
  }

  // The event of a message, told from the messages before it.
  function EventOf(before: seq<Message>, m: Message): seq<Event> {
    match m
    case ItemCreated(_) => []
    case DeltaOf(item, delta) => [Partial(item, DeltasIn(before, item) + delta)]
    case CompletedOf(item, transcript) => [Done(item, transcript)]
  }

  function EventsOf(messages: seq<Message>): seq<Event> {
    if messages == [] then []
    else EventsOf(messages[..|messages| - 1]) + EventOf(messages[..|messages| - 1], messages[|messages| - 1])
  }

  lemma InOneMore(messages: seq<Message>, m: Message, item: string)
    ensures var more := messages + [m];
            DeltasIn(more, item) == DeltasIn(messages, item) + (if m.DeltaOf? && m.item == item then m.delta else "")
            && FinalIn(more, item)
               == (if m.CompletedOf? && m.item == item then Some(m.transcript) else FinalIn(messages, item))
            && NamedIn(more) == Entered(NamedIn(messages), m.item)
            && (HasDelta(more, item) <==> HasDelta(messages, item) || (m.DeltaOf? && m.item == item))
            && EventsOf(more) == EventsOf(messages) + EventOf(messages, m)
  {
    var more := messages + [m];
    assert more[..|more| - 1] == messages && more[|more| - 1] == m;
    hide Entered, EventOf;
    if HasDelta(messages, item) {
      var i :| 0 <= i < |messages| && messages[i].DeltaOf? && messages[i].item == item;
      assert more[i].DeltaOf? && more[i].item == item;
    }
    if m.DeltaOf? && m.item == item {
      assert more[|messages|].DeltaOf?;
    }
  }

  lemma {:induction false} NoDeltaNothing(messages: seq<Message>, item: string)
    requires !HasDelta(messages, item)
    ensures DeltasIn(messages, item) == ""
  {
    if messages != [] {
      var front, last := messages[..|messages| - 1], messages[|messages| - 1];
      assert front + [last] == messages;
      InOneMore(front, last, item);
      NoDeltaNothing(front, item);
    }
  }

  // The books and the event after one more accepted message.
  function After(b: Book, m: Message): Option<(Book, seq<Event>)> {
    match m
    case ItemCreated(item) => (match Registered(b, item) case None => None case Some(c) => Some((c, [])))
    case DeltaOf(item, delta) =>
      (match WithDelta(b, item, delta) case None => None case Some((c, text)) => Some((c, [Partial(item, text)])))
    case CompletedOf(item, transcript) =>
      match WithFinal(b, item, transcript) case None => None case Some((c, text)) => Some((c, [Done(item, text)]))
  }

  lemma EmitOne(b: Book, messages: seq<Message>)
    requires messages != []
    ensures Emit(b, messages) ==
            match After(b, messages[0])
            case None => (b, [])
            case Some((c, said)) => (Emit(c, messages[1..]).0, said + Emit(c, messages[1..]).1)
  {
    hide Registered, WithDelta, WithFinal;
    assert forall c: Book :: [] + Emit(c, messages[1..]).1 == Emit(c, messages[1..]).1;
  }

  function PartialOf(b: Book, item: string): string { if item in b.partials then b.partials[item] else "" }

  lemma AfterShape(b: Book, m: Message)
    requires Valid(b) && After(b, m).Some?
    ensures var (c, said) := After(b, m).value;
            Valid(c) && c.order == Entered(b.order, m.item)
            && match m
               case ItemCreated(_) => c.finals == b.finals && c.partials == b.partials && said == []
               case DeltaOf(item, delta) =>
                 item !in b.finals && c.finals == b.finals
                 && c.partials == b.partials[item := PartialOf(b, item) + delta]
                 && said == [Partial(item, PartialOf(b, item) + delta)]
               case CompletedOf(item, transcript) =>
                 c.finals == b.finals[item := transcript] && c.partials == b.partials - {item}
                 && said == [Done(item, transcript)]
  {
    hide Admissible, ByteLen, StoredFor, NoDuplicates, Registered, WithDelta, WithFinal, ValidId, Entered;
    match m
    case ItemCreated(item) =>
      RegisteredIff(b, item);
      RegisteredIsValid(b, item);
    case DeltaOf(item, delta) =>
      DeltaIsValid(b, item, delta);
      DeltaExtends(b, item, delta);
    case CompletedOf(item, transcript) =>
      FinalIsValid(b, item, transcript);
      FinalReplaces(b, item, transcript);
  }

  lemma PartialIsTold(b: Book, messages: seq<Message>, item: string)
    requires ItemOf(b, messages, item) && item !in b.finals
    ensures PartialOf(b, item) == DeltasIn(messages, item)
  {
    hide DeltasIn, HasDelta, FinalIn;
    if !HasDelta(messages, item) {
      NoDeltaNothing(messages, item);
    }
  }

  lemma AfterIsBookOf(b: Book, messages: seq<Message>, m: Message)
    requires Valid(b) && BookOf(b, messages) && After(b, m).Some?
    ensures var (c, said) := After(b, m).value;
            Valid(c) && BookOf(c, messages + [m]) && said == EventOf(messages, m)
  {
    hide Valid, After, PartialOf, DeltasIn, FinalIn, NamedIn, HasDelta, EventsOf, Entered;
    var (c, said) := After(b, m).value;
    AfterShape(b, m);
    assert ItemOf(b, messages, m.item);
    if m.DeltaOf? {
      PartialIsTold(b, messages, m.item);
    }
    InOneMore(messages, m, m.item);
    forall item: string ensures ItemOf(c, messages + [m], item) {
      assert ItemOf(b, messages, item);
      InOneMore(messages, m, item);
    }
  }

  lemma EmitNone(b: Book)
    ensures Emit(b, []) == (b, [])
  {
  }

  lemma OneThenRest(before: seq<Message>, messages: seq<Message>, k: nat)
    requires messages != [] && k < |messages|
    ensures before + [messages[0]] + messages[1..][..k] == before + messages[..k + 1]
  {
    hide *;
    assert [messages[0]] + messages[1..][..k] == messages[..k + 1];
    Regroup(before, [messages[0]], messages[1..][..k]);
  }

  // The backend takes the messages up to the first one that is refused, and what it
  // sends for each is told by the messages alone: a partial with all deltas of its item
  // so far, or the final as it came.
  lemma {:induction false} EmitIsTold(b: Book, before: seq<Message>, messages: seq<Message>) returns (k: nat)
    requires Valid(b) && BookOf(b, before)
    ensures k <= |messages|
    ensures var (last, events) := Emit(b, messages);
            BookOf(last, before + messages[..k]) && EventsOf(before) + events == EventsOf(before + messages[..k])
            && (k < |messages| ==> After(last, messages[k]).None?)
    decreases |messages|
  {
    hide *;
    k := 0;
    if messages == [] || After(b, messages[0]).None? {
      if messages == [] {
        EmitNone(b);
      } else {
        EmitOne(b, messages);
      }
      assert before + messages[..0] == before && EventsOf(before) + [] == EventsOf(before);
    } else {
      var m := messages[0];
      var (c, said) := After(b, m).value;
      EmitOne(b, messages);
      AfterIsBookOf(b, before, m);
      InOneMore(before, m, "");
      k := EmitIsTold(c, before + [m], messages[1..]);
      OneThenRest(before, messages, k);
      Regroup(EventsOf(before), said, Emit(c, messages[1..]).1);
      k := k + 1;
    }
  }

  // The events sent so far are those the book tells of.
  ghost predicate Tells(b: Book, sent: seq<Event>) {
    forall item :: TellsItem(b, sent, item)
  }

  ghost predicate TellsItem(b: Book, sent: seq<Event>, item: string) {
    var f := Latest(sent, item);
    (f.Some? && f.value.Done? <==> item in b.finals)
    && (item in b.finals ==> f == Some(Done(item, b.finals[item])))
  }

  lemma Sent(b: Book, sent: seq<Event>, c: Book, e: Event)
    requires Tells(b, sent) && Content(e) && (e.Partial? ==> c.finals == b.finals)
    requires e.Done? ==> c.finals == b.finals[e.item := e.text]
    ensures Tells(c, sent + [e])
  {
    hide Latest;
    forall item: string
      ensures TellsItem(c, sent + [e], item)
    {
      LatestStep(sent, e, item);
      assert TellsItem(b, sent, item);
    }
  }

  ghost predicate Within(sent: seq<Event>, order: seq<string>) {
    forall i :: 0 <= i < |sent| ==> Content(sent[i]) && sent[i].item in order
  }

  // Everything sent is about a registered item, and the finals sent are the finals kept.
  lemma {:induction false} EmitTells(b: Book, sent: seq<Event>, messages: seq<Message>)
    requires Valid(b) && Tells(b, sent) && Within(sent, b.order)
    ensures var (last, events) := Emit(b, messages);
            Valid(last) && Tells(last, sent + events) && Within(sent + events, last.order)
    decreases |messages|
  {
    hide Valid, Tells, Within, Registered, WithDelta, WithFinal;
    assert sent + [] == sent;
    if messages != [] {
      match messages[0] {
        case ItemCreated(item) =>
          if Registered(b, item).Some? {
            var c := Registered(b, item).value;
            RegisteredIsValid(b, item);
            Registering(b, sent, item);
            EmitTells(c, sent, messages[1..]);
          }
        case DeltaOf(item, delta) =>
          if WithDelta(b, item, delta).Some? {
            var (c, text) := WithDelta(b, item, delta).value;
            DeltaIsValid(b, item, delta);
            Revising(b, sent, item, delta);
            EmitTells(c, sent + [Partial(item, text)], messages[1..]);
            Regroup(sent, [Partial(item, text)], Emit(c, messages[1..]).1);
          }
        case CompletedOf(item, transcript) =>
          if WithFinal(b, item, transcript).Some? {
            var (c, text) := WithFinal(b, item, transcript).value;
            FinalIsValid(b, item, transcript);
            Finishing(b, sent, item, transcript);
            EmitTells(c, sent + [Done(item, text)], messages[1..]);
            Regroup(sent, [Done(item, text)], Emit(c, messages[1..]).1);
          }
      }
    }
  }

  lemma Registering(b: Book, sent: seq<Event>, item: string)
    requires Registered(b, item).Some? && Tells(b, sent) && Within(sent, b.order)
    ensures var c := Registered(b, item).value;
            Tells(c, sent) && Within(sent, c.order) && item in c.order && c.finals == b.finals
            && c.partials == b.partials
  {
    hide Latest, ValidId;
    assert forall i :: TellsItem(b, sent, i) ==> TellsItem(Registered(b, item).value, sent, i);
  }

  lemma Revising(b: Book, sent: seq<Event>, item: string, delta: string)
    requires WithDelta(b, item, delta).Some? && Tells(b, sent) && Within(sent, b.order)
    ensures var (c, text) := WithDelta(b, item, delta).value;
            Tells(c, sent + [Partial(item, text)]) && Within(sent + [Partial(item, text)], c.order)
  {
    hide Tells, Registered;
    Registering(b, sent, item);
    var (c, text) := WithDelta(b, item, delta).value;
    Sent(Registered(b, item).value, sent, c, Partial(item, text));
  }

  lemma Finishing(b: Book, sent: seq<Event>, item: string, transcript: string)
    requires WithFinal(b, item, transcript).Some? && Tells(b, sent) && Within(sent, b.order)
    ensures var (c, text) := WithFinal(b, item, transcript).value;
            Tells(c, sent + [Done(item, text)]) && Within(sent + [Done(item, text)], c.order)
  {
    hide Tells, Registered;
    Registering(b, sent, item);
    var (c, text) := WithFinal(b, item, transcript).value;
    Sent(Registered(b, item).value, sent, c, Done(item, text));
  }

  function Sends(schedule: seq<Action>): seq<Event> {
    if schedule == [] then []
    else (if schedule[0].Send? then [schedule[0].event] else []) + Sends(schedule[1..])
  }

  lemma {:induction false} PerformSends(r: Run, schedule: seq<Action>)
    ensures Perform(r, schedule).sent == r.sent + Sends(schedule)
    decreases |schedule|
  {
    hide Pushed, Published;
    if schedule == [] {
      assert r.sent + [] == r.sent;
    } else {
      PerformSends(Step(r, schedule[0]), schedule[1..]);
      var first := if schedule[0].Send? then [schedule[0].event] else [];
      Regroup(r.sent, first, Sends(schedule[1..]));
      assert r.sent + [] == r.sent;
    }
  }

  // The events of a history that are about an item.
  function ContentOf(events: seq<Event>): seq<Event> {
    if events == [] then []
    else ContentOf(events[..|events| - 1]) + if Content(events[|events| - 1]) then [events[|events| - 1]] else []
  }

  lemma {:induction false} ContentHas(events: seq<Event>, e: Event)
    requires e in events && Content(e)
    ensures e in ContentOf(events)
  {
    if e != events[|events| - 1] {
      ContentHas(events[..|events| - 1], e);
    }
  }

  // Started, levels and processing leave no trace in what is told of an item.
  lemma {:induction false} LatestContent(events: seq<Event>, item: string)
    ensures Latest(ContentOf(events), item) == Latest(events, item)
  {
    if events != [] {
      var front, last := events[..|events| - 1], events[|events| - 1];
      LatestContent(front, item);
      if Content(last) {
        LatestStep(ContentOf(front), last, item);
      } else {
        assert ContentOf(front) + [] == ContentOf(front);
      }
    }
  }

  lemma {:induction false} SendsAreSent(schedule: seq<Action>, i: nat)
    requires i < |schedule| && schedule[i].Send?
    ensures schedule[i].event in Sends(schedule)
  {
    if i > 0 {
      SendsAreSent(schedule[1..], i - 1);
    }
  }

  function ItemsOf(order: seq<string>): set<string> {
    set item | item in order
  }

  lemma {:induction false} FewItems(order: seq<string>)
    ensures |ItemsOf(order)| <= |order|
  {
    if order == [] {
      assert ItemsOf(order) == {};
    } else {
      FewItems(order[1..]);
      assert ItemsOf(order) == ItemsOf(order[1..]) + {order[0]};
    }
  }

  // A session whose backend reconciles any messages, and sends any status events
  // between, never overflows its queue, in whatever order events are sent and received,
  // and once drained it has published for every item exactly the final text the
  // transcript is built from.
  lemma SessionPublishesTranscript(messages: seq<Message>, schedule: seq<Action>, item: string)
    requires ContentOf(Sends(schedule)) == Emit(Book([], map[], map[]), messages).1
    ensures var book := Emit(Book([], map[], map[]), messages).0;
            var r := Perform(Begin(BACKEND_EVENT_CAPACITY), schedule);
            var t := Perform(r, Receives(|r.queue.events|));
            !r.queue.overflowed && t.queue.events == [] && NoDeltaAfterFinal(t.said)
            && FinalText(t.said, item) == if item in book.finals then Some(book.finals[item]) else None
  {
    var none := Book([], map[], map[]);
    var (book, events) := Emit(none, messages);
    var r := Perform(Begin(BACKEND_EVENT_CAPACITY), schedule);
    assert Valid(none) && Tells(none, []) && Within([], []);
    assert [] + events == events && Begin(BACKEND_EVENT_CAPACITY).sent + Sends(schedule) == Sends(schedule);
    hide *;
    EmitTells(none, [], messages);
    PerformSends(Begin(BACKEND_EVENT_CAPACITY), schedule);
    AdmittedByOrder(schedule, book, events);
    RoomyRunsAgree(BACKEND_EVENT_CAPACITY, schedule, ItemsOf(book.order), item);
    DrainedAgreesOnFinals(BACKEND_EVENT_CAPACITY, schedule, item);
    LosslessFinalText(Sends(schedule), item);
    LatestContent(Sends(schedule), item);
    ToldFinals(book, events, item);
  }

  // So what it publishes for an item is the last final that the server sent for it before
  // the first message that was refused.
  lemma SessionPublishesMessages(messages: seq<Message>, schedule: seq<Action>, item: string) returns (k: nat)
    requires ContentOf(Sends(schedule)) == Emit(Book([], map[], map[]), messages).1
    ensures k <= |messages| && ContentOf(Sends(schedule)) == EventsOf(messages[..k])
    ensures k < |messages| ==> After(Emit(Book([], map[], map[]), messages).0, messages[k]).None?
    ensures var r := Perform(Begin(BACKEND_EVENT_CAPACITY), schedule);
            FinalText(Perform(r, Receives(|r.queue.events|)).said, item) == FinalIn(messages[..k], item)
  {
    var none := Book([], map[], map[]);
    assert forall i: string :: ItemOf(none, [], i);
    assert Valid(none) && BookOf(none, []) && EventsOf([]) == [];
    k := EmitIsTold(none, [], messages);
    assert [] + messages[..k] == messages[..k] && [] + Emit(none, messages).1 == Emit(none, messages).1;
    SessionPublishesTranscript(messages, schedule, item);
    hide Emit, FinalIn, FinalText, Perform, EventsOf, After;
    assert ItemOf(Emit(none, messages).0, messages[..k], item);
  }

  lemma ToldFinals(b: Book, sent: seq<Event>, item: string)
    requires Tells(b, sent)
    ensures var f := Latest(sent, item);
            (f.Some? && f.value.Done? <==> item in b.finals)
            && (item in b.finals ==> f == Some(Done(item, b.finals[item])))
  {
    hide Latest;
    assert TellsItem(b, sent, item);
  }

  lemma AdmittedByOrder(schedule: seq<Action>, book: Book, events: seq<Event>)
    requires Valid(book) && Within(events, book.order) && ContentOf(Sends(schedule)) == events
    ensures var items := ItemsOf(book.order);
            |items| <= BACKEND_EVENT_CAPACITY && forall i :: 0 <= i < |schedule| ==> Admits(schedule[i], items)
  {
    hide NoDuplicates, Stored, ByteLen;
    FewItems(book.order);
    forall i | 0 <= i < |schedule|
      ensures Admits(schedule[i], ItemsOf(book.order))
    {
      if schedule[i].Send? && Content(schedule[i].event) {
        SendsAreSent(schedule, i);
        ContentHas(Sends(schedule), schedule[i].event);
      }
    }
  }
}
