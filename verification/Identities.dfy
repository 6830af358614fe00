// Ordering records by their identity, so that equal identities end up side by side.
module Identities {
  datatype Record = Record(space: string, id: string, text: string, occurredAt: int)

  function Compare(a: string, b: string): int {
    if a == "" then if b == "" then 0 else -1
    else if b == "" then 1
    else if a[0] < b[0] then -1
    else if b[0] < a[0] then 1
    else Compare(a[1..], b[1..])
  }

  lemma {:induction false} CompareIsOrder(a: string, b: string)
    ensures Compare(a, b) == 0 <==> a == b
    ensures Compare(a, b) == -Compare(b, a)
    ensures -1 <= Compare(a, b) <= 1
  {
    if a != "" && b != "" && a[0] == b[0] {
      CompareIsOrder(a[1..], b[1..]);
      assert a == [a[0]] + a[1..] && b == [b[0]] + b[1..];
    }
  }

  lemma {:induction false} CompareIsTransitive(a: string, b: string, c: string)
    requires Compare(a, b) <= 0 && Compare(b, c) <= 0
    ensures Compare(a, c) <= 0
  {
    if a != "" && b != "" && c != "" && a[0] == b[0] && b[0] == c[0] {
      CompareIsTransitive(a[1..], b[1..], c[1..]);
    }
  }

  // By namespace, then by stable identifier.
  predicate NotAfter(a: Record, b: Record) {
    Compare(a.space, b.space) < 0 || (a.space == b.space && Compare(a.id, b.id) <= 0)
  }

  predicate SameIdentity(a: Record, b: Record) { a.space == b.space && a.id == b.id }

  lemma NotAfterIsOrder(a: Record, b: Record, c: Record)
    ensures NotAfter(a, b) || NotAfter(b, a)
    ensures NotAfter(a, b) && NotAfter(b, a) ==> SameIdentity(a, b)
    ensures NotAfter(a, b) && NotAfter(b, c) ==> NotAfter(a, c)
    ensures SameIdentity(a, b) ==> NotAfter(a, b)
  {
    CompareIsOrder(a.space, b.space);
    CompareIsOrder(a.id, b.id);
    CompareIsOrder(b.space, c.space);
    CompareIsOrder(a.space, c.space);
    if NotAfter(a, b) && NotAfter(b, c) {
      CompareIsTransitive(a.space, b.space, c.space);
      if a.space == c.space {
        CompareIsTransitive(c.space, a.space, b.space);
      }
      if a.space == b.space && b.space == c.space {
        CompareIsTransitive(a.id, b.id, c.id);
      }
    }
  }

  predicate Ordered(r: seq<Record>) {
    forall i, j :: 0 <= i < j < |r| ==> NotAfter(r[i], r[j])
  }

  function Insert(sorted: seq<Record>, x: Record): seq<Record> {
    if sorted == [] || NotAfter(sorted[|sorted| - 1], x) then sorted + [x]
    else Insert(sorted[..|sorted| - 1], x) + [sorted[|sorted| - 1]]
  }

  function Sorted(r: seq<Record>): seq<Record> {
    if r == [] then [] else Insert(Sorted(r[..|r| - 1]), r[|r| - 1])
  }

  lemma {:induction false} InsertSorts(sorted: seq<Record>, x: Record)
    requires Ordered(sorted)
    ensures Ordered(Insert(sorted, x))
    ensures multiset(Insert(sorted, x)) == multiset(sorted) + multiset{x}
  {
    hide NotAfter;
    if sorted != [] {
      var front, last := sorted[..|sorted| - 1], sorted[|sorted| - 1];
      assert sorted == front + [last];
      NotAfterIsOrder(last, x, x);
      if NotAfter(last, x) {
        forall i | 0 <= i < |sorted|
          ensures NotAfter(sorted[i], x)
        {
          NotAfterIsOrder(sorted[i], last, x);
        }
      } else {
        InsertSorts(front, x);
        var r := Insert(front, x);
        forall i | 0 <= i < |r|
          ensures NotAfter(r[i], last)
        {
          assert r[i] in multiset(r);
          assert r[i] == x || r[i] in front;
        }
      }
    }
  }

  lemma {:induction false} SortSorts(r: seq<Record>)
    ensures Ordered(Sorted(r)) && multiset(Sorted(r)) == multiset(r)
  {
    if r != [] {
      var front, last := r[..|r| - 1], r[|r| - 1];
      assert r == front + [last];
      SortSorts(front);
      InsertSorts(Sorted(front), last);
    }
  }

  predicate NoNeighbours(r: seq<Record>) {
    forall i :: 0 <= i < |r| - 1 ==> !SameIdentity(r[i], r[i + 1])
  }

  predicate DistinctIdentities(r: seq<Record>) {
    forall i, j :: 0 <= i < j < |r| ==> !SameIdentity(r[i], r[j])
  }

  // Looking at neighbours of a sorted list finds every duplicate.
  lemma NeighboursTellAll(r: seq<Record>)
    requires Ordered(r)
    ensures NoNeighbours(r) <==> DistinctIdentities(r)
  {
    hide NotAfter;
    if NoNeighbours(r) {
      forall i, j | 0 <= i < j < |r|
        ensures !SameIdentity(r[i], r[j])
      {
        if SameIdentity(r[i], r[j]) && i + 1 < j {
          NotAfterIsOrder(r[j], r[i], r[i + 1]);
          NotAfterIsOrder(r[i + 1], r[j], r[i]);
          NotAfterIsOrder(r[i], r[i + 1], r[i]);
        }
      }
    }
  }

  // Distinctness does not depend on the order.
  lemma {:induction false} DistinctUnordered(a: seq<Record>, b: seq<Record>)
    requires multiset(a) == multiset(b) && DistinctIdentities(a)
    ensures DistinctIdentities(b)
  {
    forall i, j | 0 <= i < j < |b|
      ensures !SameIdentity(b[i], b[j])
    {
      assert b[i] in multiset(a) && b[j] in multiset(a);
      var k :| 0 <= k < |a| && a[k] == b[i];
      var m :| 0 <= m < |a| && a[m] == b[j];
      if k == m {
        TwiceInMultiset(b, i, j);
        OnceInMultiset(a, k);
      }
    }
  }

  lemma TwiceInMultiset(b: seq<Record>, i: nat, j: nat)
    requires i < j < |b| && b[i] == b[j]
    ensures multiset(b)[b[i]] >= 2
  {
    assert b == b[..i] + [b[i]] + b[i + 1..j] + [b[j]] + b[j + 1..];
  }

  lemma OnceInMultiset(a: seq<Record>, k: nat)
    requires DistinctIdentities(a) && k < |a|
    ensures multiset(a)[a[k]] == 1
  {
    assert a == a[..k] + [a[k]] + a[k + 1..];
    assert a[k] !in a[..k] && a[k] !in a[k + 1..] by {
      assert SameIdentity(a[k], a[k]);
    }
  }
}
