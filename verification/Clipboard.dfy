// Borrowing the clipboard for a temporary text.
module Clipboard {
  // The pasteboard is shared: before each of our operations other programs may have
  // written to it (`externals`), which moves its revision on. An operation of ours
  // that is given an old revision refuses.

  import opened Wrappers
  import opened ByteStrings

  const MAX_CLIPBOARD_ITEMS := 64
  const MAX_CLIPBOARD_TYPES_PER_ITEM := 128
  const MAX_CLIPBOARD_TYPE_BYTES := 1024
  const MAX_CLIPBOARD_TOTAL_BYTES := 32 * 1024 * 1024

  datatype Representation = Representation(typeIdentifier: Bytes, data: Bytes)
  type Item = seq<Representation>
  type Contents = seq<Item>

  datatype Error =
    | ClipboardSnapshot | ClipboardLimit | ClipboardWrite | ClipboardChanged | ClipboardRestore
    | InputInjection | Other(code: nat)

  // "public.utf8-plain-text"
  const PLAIN_TEXT: Bytes :=
    [112, 117, 98, 108, 105, 99, 46, 117, 116, 102, 56, 45, 112, 108, 97, 105, 110, 45, 116, 101, 120, 116]

  // ---- The size of a snapshot ---------------------------------------------------------

  function ItemBytes(item: Item): nat {
    if item == [] then 0
    else |item[0].typeIdentifier| + |item[0].data| + ItemBytes(item[1..])
  }

  function TotalBytes(items: Contents): nat {
    if items == [] then 0 else ItemBytes(items[0]) + TotalBytes(items[1..])
  }

  ghost predicate WithinLimits(items: Contents) {
    |items| <= MAX_CLIPBOARD_ITEMS
    && (forall i :: 0 <= i < |items| ==>
          |items[i]| <= MAX_CLIPBOARD_TYPES_PER_ITEM
          && forall j :: 0 <= j < |items[i]| ==> |items[i][j].typeIdentifier| <= MAX_CLIPBOARD_TYPE_BYTES)
    && TotalBytes(items) <= MAX_CLIPBOARD_TOTAL_BYTES
  }

  lemma {:induction false} TotalSplit(a: Contents, b: Contents)
    ensures TotalBytes(a + b) == TotalBytes(a) + TotalBytes(b)
  {
    if a == [] {
      assert a + b == b;
    } else {
      assert (a + b)[1..] == a[1..] + b;
      TotalSplit(a[1..], b);
    }
  }

  lemma {:induction false} ItemSplit(a: Item, b: Item)
    ensures ItemBytes(a + b) == ItemBytes(a) + ItemBytes(b)
  {
    if a == [] {
      assert a + b == b;
    } else {
      assert (a + b)[1..] == a[1..] + b;
      ItemSplit(a[1..], b);
    }
  }

  // All bytes of a snapshot, one after another.
  function ItemData(item: Item): Bytes {
    if item == [] then [] else item[0].typeIdentifier + item[0].data + ItemData(item[1..])
  }

  function AllData(items: Contents): Bytes {
    if items == [] then [] else ItemData(items[0]) + AllData(items[1..])
  }

  lemma {:induction false} ItemDataLength(item: Item)
    ensures |ItemData(item)| == ItemBytes(item)
  {
    if item != [] {
      ItemDataLength(item[1..]);
    }
  }

  lemma {:induction false} AllDataLength(items: Contents)
    ensures |AllData(items)| == TotalBytes(items)
  {
    if items != [] {
      ItemDataLength(items[0]);
      AllDataLength(items[1..]);
    }
  }

  // One item of the accumulating check; None where a limit is passed.
  method AddItem(item: Item, total: nat) returns (r: Option<nat>)
    requires total <= MAX_CLIPBOARD_TOTAL_BYTES
    ensures r.Some? <==> (forall j :: 0 <= j < |item| ==> |item[j].typeIdentifier| <= MAX_CLIPBOARD_TYPE_BYTES)
                         && total + ItemBytes(item) <= MAX_CLIPBOARD_TOTAL_BYTES
    ensures r.Some? ==> r.value == total + ItemBytes(item)
  {
    var sum := total;
    for j := 0 to |item|
      invariant sum == total + ItemBytes(item[..j]) <= MAX_CLIPBOARD_TOTAL_BYTES
      invariant forall k :: 0 <= k < j ==> |item[k].typeIdentifier| <= MAX_CLIPBOARD_TYPE_BYTES
    {
      var one := item[j];
      ItemSplit(item[..j], [one]);
      assert item[..j] + [one] == item[..j + 1];
      assert ItemBytes([one]) == |one.typeIdentifier| + |one.data|;
      ItemSplit(item[..j + 1], item[j + 1..]);
      assert item == item[..j + 1] + item[j + 1..];
      if |one.typeIdentifier| > MAX_CLIPBOARD_TYPE_BYTES {
        return None;
      }
      sum := sum + |one.typeIdentifier| + |one.data|;
      if sum > MAX_CLIPBOARD_TOTAL_BYTES {
        return None;
      }
    }
    assert item[..|item|] == item;
    r := Some(sum);
  }

  // A snapshot is refused for more than 64 items, an item of more than 128 types, a type
  // identifier of more than a kilobyte or more than 32 megabytes in all.
  lemma LimitsIff(items: Contents)
    ensures !WithinLimits(items) <==>
            || 64 < |items|
            || (exists i :: 0 <= i < |items| && 128 < |items[i]|)
            || (exists i, j :: 0 <= i < |items| && 0 <= j < |items[i]| && 1024 < |items[i][j].typeIdentifier|)
            || 33_554_432 < |AllData(items)|
  {
    AllDataLength(items);
    hide TotalBytes, AllData;
  }

  method ValidateSnapshotLimits(items: Contents) returns (ok: bool)
    ensures ok <==> WithinLimits(items)
  {
    if |items| > MAX_CLIPBOARD_ITEMS {
      return false;
    }
    var total := 0;
    for i := 0 to |items|
      invariant total == TotalBytes(items[..i]) <= MAX_CLIPBOARD_TOTAL_BYTES
      invariant forall k :: 0 <= k < i ==>
                  |items[k]| <= MAX_CLIPBOARD_TYPES_PER_ITEM
                  && forall j :: 0 <= j < |items[k]| ==> |items[k][j].typeIdentifier| <= MAX_CLIPBOARD_TYPE_BYTES
    {
      TotalSplit(items[..i], [items[i]]);
      assert items[..i] + [items[i]] == items[..i + 1];
      assert TotalBytes([items[i]]) == ItemBytes(items[i]);
      TotalSplit(items[..i + 1], items[i + 1..]);
      assert items == items[..i + 1] + items[i + 1..];
      if |items[i]| > MAX_CLIPBOARD_TYPES_PER_ITEM {
        return false;
      }
      var sum := AddItem(items[i], total);
      if sum.None? {
        return false;
      }
      total := sum.value;
    }
    assert items[..|items|] == items;
    ok := true;
  }

  function TemporaryContents(value: Bytes): Contents { [[Representation(PLAIN_TEXT, value)]] }

  // ---- The pasteboard -------------------------------------------------------------------

  // How a restore ends: before or after it has claimed the pasteboard.
  datatype Restoring = Works | FailsBefore | FailsAfter

  class Pasteboard {
    var contents: Contents
    var revision: nat
    // What other programs write before each of our operations.
    var externals: seq<Option<Contents>>
    // How the restores to come end, and whether a write fails.
    var restoring: seq<Restoring>
    var writeFails: bool
    // History: external writes, the last of them, and whether one was overwritten.
    ghost var externalWrites: nat
    ghost var lastExternal: Contents
    ghost var overwrote: bool
    // The revision of our last snapshot or write.
    ghost var ours: nat
    ghost var failedRestores: nat

    // Our last write is still there exactly when no other program has written since.
    ghost predicate Valid()
      reads this
    {
      ours <= revision && (ours < revision ==> externalWrites > 0 && contents == lastExternal)
    }

    // A snapshot makes the current revision the one we expect.
    method Own()
      requires Valid()
      modifies this`ours
      ensures Valid() && ours == revision
    {
      ours := revision;
    }

    method Interfere()
      requires Valid()
      modifies this`contents, this`revision, this`externals, this`externalWrites, this`lastExternal
      ensures Valid() && externalWrites >= old(externalWrites) && revision >= old(revision)
      ensures externalWrites == old(externalWrites) <==> revision == old(revision)
      ensures revision == old(revision) ==> contents == old(contents) && lastExternal == old(lastExternal)
      ensures revision > old(revision) ==> contents == lastExternal
    {
      if externals != [] {
        if externals[0].Some? {
          contents, revision := externals[0].value, revision + 1;
          externalWrites, lastExternal := externalWrites + 1, contents;
        }
        externals := externals[1..];
      }
    }

    // Writes contents of ours over the current ones.
    method Claim(next: Contents)
      requires Valid()
      modifies this`contents, this`revision, this`ours, this`overwrote
      ensures Valid() && contents == next && revision == old(revision) + 1 && ours == revision
      ensures overwrote == (old(overwrote) || old(ours) < old(revision))
    {
      overwrote := overwrote || ours < revision;
      contents, revision := next, revision + 1;
      ours := revision;
    }

    method SetPlainText(value: Bytes, expected: nat) returns (r: Result<(), Error>, now: nat)
      requires Valid() && expected == ours
      modifies this
      ensures Valid() && now == ours && overwrote == old(overwrote) && failedRestores == old(failedRestores)
      ensures externalWrites >= old(externalWrites)
      ensures r == Err(ClipboardChanged) ==>
                ours == old(ours) && ours < revision
                && (old(ours) == old(revision) ==> externalWrites > old(externalWrites))
      ensures r != Err(ClipboardChanged) ==>
                externalWrites == old(externalWrites) && old(ours) == old(revision) && ours == revision
      ensures r.Ok? || r.error in {ClipboardChanged, ClipboardWrite}
      ensures r != Err(ClipboardChanged) ==> (r.Ok? <==> !old(writeFails))
      ensures r.Ok? ==> contents == TemporaryContents(value)
    {
      Interfere();
      if revision != expected {
        return Err(ClipboardChanged), expected;
      }
      if writeFails {
        Claim([]);
        return Err(ClipboardWrite), revision;
      }
      Claim(TemporaryContents(value));
      r, now := Ok(()), revision;
    }

    method EnsureRevision(expected: nat) returns (r: Result<(), Error>)
      requires Valid() && expected == ours
      modifies this`contents, this`revision, this`externals, this`externalWrites, this`lastExternal
      ensures Valid() && externalWrites >= old(externalWrites)
      ensures r.Ok? <==> ours == revision
      ensures r.Err? ==> r.error == ClipboardChanged
      ensures r.Err? && ours == old(revision) ==> externalWrites > old(externalWrites)
      ensures r.Ok? ==> externalWrites == old(externalWrites) && contents == old(contents)
    {
      Interfere();
      r := if revision == expected then Ok(()) else Err(ClipboardChanged);
    }

    method Restore(snapshot: Contents, expected: nat) returns (r: Result<(), Error>, now: nat)
      requires Valid() && expected == ours
      modifies this
      ensures Valid() && now == ours && overwrote == old(overwrote)
      ensures externalWrites >= old(externalWrites)
      ensures r.Ok? ==> contents == snapshot && ours == revision && externalWrites == old(externalWrites)
                        && old(ours) == old(revision) && failedRestores == old(failedRestores)
      ensures r == Err(ClipboardChanged) ==>
                ours == old(ours) && ours < revision && failedRestores == old(failedRestores)
                && (old(ours) == old(revision) ==> externalWrites > old(externalWrites))
      ensures r.Err? && r.error != ClipboardChanged ==>
                r.error == ClipboardRestore && failedRestores == old(failedRestores) + 1
                && (if ours < revision then
                      ours == old(ours) && (old(ours) == old(revision) ==> externalWrites > old(externalWrites))
                    else externalWrites == old(externalWrites) && old(ours) == old(revision))
    {
      Interfere();
      var end := if restoring == [] then Works else restoring[0];
      restoring := if restoring == [] then [] else restoring[1..];
      if end == FailsBefore {
        failedRestores := failedRestores + 1;
        return Err(ClipboardRestore), expected;
      }
      if revision != expected {
        return Err(ClipboardChanged), expected;
      }
      if end == FailsAfter {
        Claim([]);
        failedRestores := failedRestores + 1;
        return Err(ClipboardRestore), revision;
      }
      Claim(snapshot);
      r, now := Ok(()), revision;
    }
  }

  // The guard that puts the snapshot back, at the latest when it is dropped.
  class ClipboardRestoration {
    const pasteboard: Pasteboard
    var snapshot: Option<Contents>
    var revision: nat

    constructor (pasteboard: Pasteboard, snapshot: Contents, revision: nat)
      ensures this.pasteboard == pasteboard && this.snapshot == Some(snapshot) && this.revision == revision
    {
      this.pasteboard, this.snapshot, this.revision := pasteboard, Some(snapshot), revision;
    }

    ghost predicate Valid()
      reads this, pasteboard
    {
      pasteboard.Valid() && (snapshot.Some? ==> revision == pasteboard.ours)
    }

    method Restore() returns (r: Result<(), Error>)
      requires Valid()
      modifies this`snapshot, this`revision, pasteboard
      ensures Valid() && pasteboard.overwrote == old(pasteboard.overwrote)
      ensures pasteboard.externalWrites >= old(pasteboard.externalWrites)
      ensures old(snapshot).None? ==>
                r.Ok? && snapshot.None? && pasteboard.contents == old(pasteboard.contents)
                && pasteboard.externalWrites == old(pasteboard.externalWrites)
                && pasteboard.failedRestores == old(pasteboard.failedRestores)
                && pasteboard.ours == old(pasteboard.ours) && pasteboard.revision == old(pasteboard.revision)
      ensures old(snapshot).Some? && r.Ok? ==>
                snapshot.None? && pasteboard.contents == old(snapshot).value
                && pasteboard.externalWrites == old(pasteboard.externalWrites)
                && old(pasteboard.ours) == old(pasteboard.revision) && pasteboard.ours == pasteboard.revision
                && pasteboard.failedRestores == old(pasteboard.failedRestores)
      ensures r.Err? ==>
                snapshot == old(snapshot)
                && (pasteboard.ours < pasteboard.revision && old(pasteboard.ours) == old(pasteboard.revision) ==>
                      pasteboard.externalWrites > old(pasteboard.externalWrites))
                && (if r.error == ClipboardChanged then
                      pasteboard.ours < pasteboard.revision
                      && pasteboard.failedRestores == old(pasteboard.failedRestores)
                    else
                      r.error == ClipboardRestore && pasteboard.failedRestores == old(pasteboard.failedRestores) + 1
                      && (pasteboard.ours == pasteboard.revision ==>
                            pasteboard.externalWrites == old(pasteboard.externalWrites)
                            && old(pasteboard.ours) == old(pasteboard.revision)))
    {
      if snapshot.None? {
        return Ok(());
      }
      r, revision := pasteboard.Restore(snapshot.value, revision);
      if r.Ok? {
        snapshot := None;
      }
    }
  }

  // What comes of a call during which no other program writes and every restore works.
  ghost predicate CanAct(contents: Contents, writeFails: bool, snapshotFails: Option<Error>) {
    snapshotFails.None? && WithinLimits(contents) && !writeFails
  }

  ghost function Uninterrupted<T>(contents: Contents, writeFails: bool, snapshotFails: Option<Error>,
                                  action: Result<T, Error>): Result<T, Error>
  {
    if snapshotFails.Some? then Err(snapshotFails.value)
    else if !WithinLimits(contents) then Err(ClipboardLimit)
    else if writeFails then Err(ClipboardWrite)
    else action
  }

  // Left alone, a call acts exactly when there is a snapshot within the limits and the
  // text can be written, and its result is then that of the action.
  lemma UninterruptedMeans<T>(contents: Contents, writeFails: bool, snapshotFails: Option<Error>,
                              action: Result<T, Error>)
    ensures var r := Uninterrupted(contents, writeFails, snapshotFails, action);
            && (CanAct(contents, writeFails, snapshotFails) <==>
                  snapshotFails.None? && WithinLimits(contents) && !writeFails)
            && (CanAct(contents, writeFails, snapshotFails) ==> r == action)
            && (!CanAct(contents, writeFails, snapshotFails) ==>
                  r.Err? && (r.error == ClipboardWrite || r.error == ClipboardLimit || Some(r.error) == snapshotFails))
            && (snapshotFails.Some? ==> r == Err(snapshotFails.value))
            && (snapshotFails.None? && !WithinLimits(contents) ==> r == Err(ClipboardLimit))
            && (snapshotFails.None? && WithinLimits(contents) && writeFails ==> r == Err(ClipboardWrite))
  {
    hide WithinLimits;
  }

  // Runs an action with a temporary text on the clipboard; `shown` is what is on it
  // when the action begins.
  //
  // No write of another program is overwritten, and the last one is what is left.
  // Without such a write, the original contents are back at every return unless two
  // restores have failed; a success means that they are back.
  method WithTemporaryText<T>(pasteboard: Pasteboard, value: Bytes, snapshotFails: Option<Error>,
                              action: Result<T, Error>)
    returns (r: Result<T, Error>, acted: bool, ghost shown: Contents)
    requires pasteboard.Valid() && !pasteboard.overwrote
    modifies pasteboard
    ensures pasteboard.Valid() && !pasteboard.overwrote
    ensures pasteboard.externalWrites > old(pasteboard.externalWrites) ==>
              pasteboard.contents == pasteboard.lastExternal
    ensures pasteboard.externalWrites == old(pasteboard.externalWrites) ==>
              pasteboard.contents == old(pasteboard.contents)
              || pasteboard.failedRestores >= old(pasteboard.failedRestores) + 2
    ensures r.Ok? ==> acted && action.Ok? && r.value == action.value
                      && pasteboard.contents == old(pasteboard.contents)
                      && pasteboard.externalWrites == old(pasteboard.externalWrites)
    ensures acted && r.Err? ==> r == action || r.error in {ClipboardChanged, ClipboardRestore}
    ensures !acted ==> r.Err?
    ensures acted ==> shown == TemporaryContents(value)
    ensures pasteboard.externalWrites == old(pasteboard.externalWrites)
            && pasteboard.failedRestores == old(pasteboard.failedRestores) ==>
              r == old(Uninterrupted(pasteboard.contents, pasteboard.writeFails, snapshotFails, action))
              && acted == old(CanAct(pasteboard.contents, pasteboard.writeFails, snapshotFails))
  {
    acted, shown := false, [];
    if snapshotFails.Some? {
      return Err(snapshotFails.value), false, [];
    }
    var original, revision := pasteboard.contents, pasteboard.revision;
    pasteboard.Own();
    var fits := ValidateSnapshotLimits(original);
    if !fits {
      return Err(ClipboardLimit), false, [];
    }
    var restoration := new ClipboardRestoration(pasteboard, original, revision);
    var written;
    written, restoration.revision := pasteboard.SetPlainText(value, restoration.revision);
    if written.Err? {
      var restored := restoration.Restore();
      r := if restored.Ok? then Err(written.error)
           else if restored.error == ClipboardChanged then Err(ClipboardChanged)
           else Err(ClipboardRestore);
      var _ := restoration.Restore();
      return;
    }
    var current := pasteboard.EnsureRevision(restoration.revision);
    if current.Err? {
      r := Err(current.error);
      var _ := restoration.Restore();
      return;
    }
    acted, shown := true, pasteboard.contents;
    pasteboard.Interfere();
    var restored := restoration.Restore();
    r := if restored.Ok? then action
         else if restored.error == ClipboardChanged then Err(ClipboardChanged)
         else Err(ClipboardRestore);
    var _ := restoration.Restore();
  }
}
