// The vector index: a native graph from keys to embeddings beside the records it
// was built from, edited one record at a time or built anew.
module VectorIndex {
  // The native graph is a map. What it may refuse to do in one call is a `Faults`
  // value; hashing an identity to a key, embedding a text and the probe signature of
  // the embedder are functions.

  import opened Wrappers
  import opened Fields
  import opened Identities

  type Key = nat
  datatype Vector = Vector(code: int)
  datatype Indexed = Indexed(key: Key, space: string, id: string, occurredAt: int)

  datatype Error = DuplicateIdentity | EmbeddingFailed | Native | KeyCollision | InvalidIndexContainer

  datatype Env = Env(derive: (string, string) -> Key, embed: string -> Option<Vector>, signature: Option<int>)

  // Which native operations fail in a call.
  datatype Faults = Faults(create: bool, reserve: bool, get: bool, remove: bool, add: bool, restore: bool)

  datatype Index = Index(native: map<Key, Vector>, records: map<Key, Indexed>, signature: int)

  predicate Blank(text: string) {
    forall i :: 0 <= i < |text| ==> IsSpace(text[i])
  }

  function KeyOf(r: Record, env: Env): Key { (env.derive)(r.space, r.id) }

  function Meta(r: Record, env: Env): Indexed { Indexed(KeyOf(r, env), r.space, r.id, r.occurredAt) }

  predicate Owns(entry: Indexed, r: Record) { entry.space == r.space && entry.id == r.id }

  // ---- Single edits ---------------------------------------------------------------------

  function Deleted(x: Index, space: string, id: string, env: Env, f: Faults): (Index, Result<bool, Error>) {
    var key := (env.derive)(space, id);
    if key !in x.records then (x, Ok(false))
    else if x.records[key].space != space || x.records[key].id != id then (x, Err(KeyCollision))
    else if f.remove then (x, Err(Native))
    else if key !in x.native then (x, Err(InvalidIndexContainer))
    else (Index(x.native - {key}, x.records - {key}, x.signature), Ok(true))
  }

  function Upserted(x: Index, r: Record, env: Env, f: Faults): (Index, Result<bool, Error>) {
    if Blank(r.text) then Deleted(x, r.space, r.id, env, f)
    else
      var key, meta := KeyOf(r, env), Meta(r, env);
      if key in x.records && !Owns(x.records[key], r) then (x, Err(KeyCollision))
      else
        match (env.embed)(r.text)
        case None => (x, Err(EmbeddingFailed))
        case Some(vector) =>
          var added := Index(x.native[key := vector], x.records[key := meta], x.signature);
          if key in x.records then
            if f.get then (x, Err(Native))
            else if key !in x.native then (x, Err(InvalidIndexContainer))
            else if f.remove then (x, Err(Native))
            else if !f.add then (added, Ok(true))
            else if f.restore then (x.(native := x.native - {key}), Err(InvalidIndexContainer))
            else (x, Err(Native))
          else if f.reserve || f.add then (x, Err(Native))
          else (added, Ok(false))
  }

  function Refreshed(x: Index, r: Record, env: Env): (Index, Result<bool, Error>) {
    var key := KeyOf(r, env);
    if key !in x.records then (x, Ok(false))
    else if !Owns(x.records[key], r) then (x, Err(KeyCollision))
    else (x.(records := x.records[key := x.records[key].(occurredAt := r.occurredAt)]), Ok(true))
  }

  // What a delete answers, and what each refusal of the native graph is called.
  lemma DeleteAnswers(x: Index, space: string, id: string, env: Env, f: Faults)
    ensures var r, key := Deleted(x, space, id, env, f).1, (env.derive)(space, id);
            var known := key in x.records;
            var ours := known && x.records[key].space == space && x.records[key].id == id;
            && (r == Ok(false) <==> !known) && (r == Err(KeyCollision) <==> known && !ours)
            && (r == Err(Native) <==> ours && f.remove)
            && (r == Err(InvalidIndexContainer) <==> ours && !f.remove && key !in x.native)
            && (r == Ok(true) <==> ours && !f.remove && key in x.native)
  {
  }

  // What an upsert answers for a text that is not blank. A refused replacement puts the
  // old embedding back, and only when that is refused too the container is invalid.
  lemma UpsertAnswers(x: Index, r: Record, env: Env, f: Faults)
    requires !Blank(r.text)
    ensures var answer, key := Upserted(x, r, env, f).1, KeyOf(r, env);
            var known := key in x.records;
            var foreign := known && (x.records[key].space != r.space || x.records[key].id != r.id);
            var embeds := (env.embed)(r.text).Some?;
            var held := known && key in x.native;
            && (answer == Err(KeyCollision) <==> foreign)
            && (answer == Err(EmbeddingFailed) <==> !foreign && !embeds)
            && (answer == Ok(false) <==> !known && embeds && !f.reserve && !f.add)
            && (answer == Ok(true) <==> held && !foreign && embeds && !f.get && !f.remove && !f.add)
            && (answer == Err(InvalidIndexContainer) <==>
                  known && !foreign && embeds && !f.get && (held ==> !f.remove && f.add && f.restore))
            && (answer == Err(Native) <==>
                  !foreign && embeds
                  && if known then f.get || (held && (f.remove || (f.add && !f.restore))) else f.reserve || f.add)
  {
    hide Blank;
  }

  // A refresh knows its record by key and identity and changes its time alone.
  lemma RefreshAnswers(x: Index, r: Record, env: Env)
    ensures var ((y, answer), key) := (Refreshed(x, r, env), KeyOf(r, env));
            var known := key in x.records;
            var foreign := known && (x.records[key].space != r.space || x.records[key].id != r.id);
            && (answer == Ok(false) <==> !known) && (answer == Err(KeyCollision) <==> foreign)
            && (answer == Ok(true) <==> known && !foreign)
            && y.native == x.native && y.signature == x.signature && y.records.Keys == x.records.Keys
            && (forall k :: k in x.records && k != key ==> y.records[k] == x.records[k])
            && (known ==> y.records[key]
                          == x.records[key].(occurredAt := if foreign then x.records[key].occurredAt
                                                           else r.occurredAt))
  {
  }

  // ---- Building -------------------------------------------------------------------------

  function NonBlank(r: seq<Record>): seq<Record> {
    if r == [] then []
    else (if Blank(r[0].text) then [] else [r[0]]) + NonBlank(r[1..])
  }

  function EmbedAll(r: seq<Record>, env: Env): Option<seq<Vector>> {
    if r == [] then Some([])
    else
      match ((env.embed)(r[0].text), EmbedAll(r[1..], env))
      case (Some(v), Some(rest)) => Some([v] + rest)
      case _ => None
  }

  // The graph and records after the first `n` of the selected records.
  function Added(selected: seq<Record>, n: nat, env: Env, signature: int, f: Faults): Result<Index, Error>
    requires n <= |selected|
  {
    if n == 0 then Ok(Index(map[], map[], signature))
    else
      match Added(selected, n - 1, env, signature, f)
      case Err(e) => Err(e)
      case Ok(x) =>
        var r := selected[n - 1];
        match (env.embed)(r.text)
        case None => Err(EmbeddingFailed)
        case Some(vector) =>
          var key := KeyOf(r, env);
          if key in x.records then Err(KeyCollision)
          else if f.add then Err(Native)
          else Ok(Index(x.native[key := vector], x.records[key := Meta(r, env)], signature))
  }

  function Built(records: seq<Record>, env: Env, f: Faults): Result<Index, Error> {
    match env.signature
    case None => Err(EmbeddingFailed)
    case Some(signature) =>
      var selected := Sorted(NonBlank(records));
      if !NoNeighbours(selected) then Err(DuplicateIdentity)
      else if EmbedAll(selected, env).None? then Err(EmbeddingFailed)
      else if f.create || f.reserve then Err(Native)
      else Added(selected, |selected|, env, signature, f)
  }

  predicate IndexMatches(x: Index, expected: seq<Record>, env: Env) {
    var wanted := NonBlank(expected);
    env.signature == Some(x.signature)
    && |x.records| == |wanted|
    && forall i :: 0 <= i < |wanted| ==>
         KeyOf(wanted[i], env) in x.records
         && Owns(x.records[KeyOf(wanted[i], env)], wanted[i])
         && x.records[KeyOf(wanted[i], env)].occurredAt == wanted[i].occurredAt
  }

  class VectorIndex {
    var native: map<Key, Vector>
    var records: map<Key, Indexed>
    var signature: int

    function Value(): Index
      reads this
    {
      Index(native, records, signature)
    }

    // An index without records, and without the signature of any embedder.
    constructor Empty()
      ensures Value() == Index(map[], map[], 0)
    {
      native, records, signature := map[], map[], 0;
    }

    method Delete(space: string, id: string, env: Env, f: Faults) returns (r: Result<bool, Error>)
      modifies this
      ensures (Value(), r) == Deleted(old(Value()), space, id, env, f)
    {
      var key := (env.derive)(space, id);
      if key !in records {
        return Ok(false);
      }
      if records[key].space != space || records[key].id != id {
        return Err(KeyCollision);
      }
      if f.remove {
        return Err(Native);
      }
      if key !in native {
        return Err(InvalidIndexContainer);
      }
      native := native - {key};
      records := records - {key};
      r := Ok(true);
    }

    method Upsert(record: Record, env: Env, f: Faults) returns (r: Result<bool, Error>)
      modifies this
      ensures (Value(), r) == Upserted(old(Value()), record, env, f)
    {
      if Blank(record.text) {
        r := Delete(record.space, record.id, env, f);
        return;
      }
      var meta := Meta(record, env);
      if meta.key in records && !Owns(records[meta.key], record) {
        return Err(KeyCollision);
      }
      var embedding := (env.embed)(record.text);
      if embedding.None? {
        return Err(EmbeddingFailed);
      }
      var replaced := meta.key in records;
      var previous := None;
      if replaced {
        if f.get {
          return Err(Native);
        }
        if meta.key !in native {
          return Err(InvalidIndexContainer);
        }
        previous := Some(native[meta.key]);
        if f.remove {
          return Err(Native);
        }
        assert (native - {meta.key})[meta.key := previous.value] == native;
        assert (native - {meta.key})[meta.key := embedding.value] == native[meta.key := embedding.value];
        native := native - {meta.key};
      } else if f.reserve {
        return Err(Native);
      }
      if f.add {
        if replaced {
          if f.restore {
            return Err(InvalidIndexContainer);
          }
          native := native[meta.key := previous.value];
        }
        return Err(Native);
      }
      native := native[meta.key := embedding.value];
      records := records[meta.key := meta];
      r := Ok(replaced);
    }

    method RefreshMetadata(record: Record, env: Env) returns (r: Result<bool, Error>)
      modifies this`records
      ensures (Value(), r) == Refreshed(old(Value()), record, env)
    {
      var key := KeyOf(record, env);
      if key !in records {
        return Ok(false);
      }
      if !Owns(records[key], record) {
        return Err(KeyCollision);
      }
      records := records[key := records[key].(occurredAt := record.occurredAt)];
      r := Ok(true);
    }

    // Builds a new graph and replaces this one with it, or changes nothing.
    method Rebuild(source: seq<Record>, env: Env, f: Faults) returns (r: Result<(), Error>)
      modifies this
      ensures var built := Built(source, env, f);
              if built.Ok? then r == Ok(()) && Value() == built.value
              else r == Err(built.error) && Value() == old(Value())
    {
      if env.signature.None? {
        return Err(EmbeddingFailed);
      }
      hide Identities.Sorted, NonBlank, NoNeighbours, EmbedAll;
      var selected := Identities.Sorted(NonBlank(source));
      if !NoNeighbours(selected) {
        return Err(DuplicateIdentity);
      }
      var embeddings := EmbedAll(selected, env);
      if embeddings.None? {
        return Err(EmbeddingFailed);
      }
      AllEmbedded(selected, env);
      if f.create || f.reserve {
        return Err(Native);
      }
      var graph: map<Key, Vector>, indexed: map<Key, Indexed> := map[], map[];
      for i := 0 to |selected|
        invariant Value() == old(Value())
        invariant Added(selected, i, env, env.signature.value, f) == Ok(Index(graph, indexed, env.signature.value))
      {
        var meta := Meta(selected[i], env);
        if meta.key in indexed {
          StaysFailed(selected, i + 1, env, env.signature.value, f);
          return Err(KeyCollision);
        }
        if f.add {
          StaysFailed(selected, i + 1, env, env.signature.value, f);
          return Err(Native);
        }
        graph := graph[meta.key := embeddings.value[i]];
        indexed := indexed[meta.key := meta];
      }
      native, records, signature := graph, indexed, env.signature.value;
      r := Ok(());
    }
  }

  lemma {:induction false} AllEmbedded(r: seq<Record>, env: Env)
    requires EmbedAll(r, env).Some?
    ensures |EmbedAll(r, env).value| == |r|
    ensures forall i :: 0 <= i < |r| ==> (env.embed)(r[i].text) == Some(EmbedAll(r, env).value[i])
  {
    if r != [] {
      AllEmbedded(r[1..], env);
      assert forall i :: 0 < i < |r| ==> r[i] == r[1..][i - 1];
    }
  }

  lemma {:induction false} StaysFailed(selected: seq<Record>, n: nat, env: Env, signature: int, f: Faults)
    requires n <= |selected| && Added(selected, n, env, signature, f).Err?
    ensures Added(selected, |selected|, env, signature, f) == Added(selected, n, env, signature, f)
    decreases |selected| - n
  {
    if n < |selected| {
      StaysFailed(selected, n + 1, env, signature, f);
    }
  }

  // ---- What an index stands for -----------------------------------------------------------

  // The records an index should hold, by identity.
  type Source = map<(string, string), Record>

  // The index holds exactly the records of the source: the same keys in graph and
  // records, each record's own metadata, and the embedding of its current text.
  ghost predicate Represents(x: Index, source: Source, env: Env) {
    x.native.Keys == x.records.Keys
    && (forall id :: id in source ==> Holds(x, id, source[id], env))
    && forall key :: key in x.records ==> exists id :: id in source && (env.derive)(id.0, id.1) == key
  }

  ghost predicate Holds(x: Index, id: (string, string), r: Record, env: Env) {
    r.space == id.0 && r.id == id.1 && !Blank(r.text)
    && KeyOf(r, env) in x.records && x.records[KeyOf(r, env)] == Meta(r, env)
    && KeyOf(r, env) in x.native && (env.embed)(r.text) == Some(x.native[KeyOf(r, env)])
  }

  // Two identities of one index never share a key.
  lemma KeysAreDistinct(x: Index, source: Source, env: Env, a: (string, string), b: (string, string))
    requires Represents(x, source, env) && a in source && b in source
    requires (env.derive)(a.0, a.1) == (env.derive)(b.0, b.1)
    ensures a == b
  {
    assert Holds(x, a, source[a], env) && Holds(x, b, source[b], env);
  }

  // The identity a key belongs to.
  lemma OwnerOf(x: Index, source: Source, env: Env, key: Key) returns (id: (string, string))
    requires Represents(x, source, env) && key in x.records
    ensures id in source && (env.derive)(id.0, id.1) == key && Holds(x, id, source[id], env)
    ensures x.records[key].space == id.0 && x.records[key].id == id.1
  {
    hide Blank;
    id :| id in source && (env.derive)(id.0, id.1) == key;
    assert Holds(x, id, source[id], env);
  }

  lemma SameEntry(x: Index, y: Index, source: Source, env: Env, key: Key)
    requires Represents(x, source, env) && Represents(y, source, env) && key in x.records
    ensures key in y.records && x.records[key] == y.records[key]
    ensures key in x.native && key in y.native && x.native[key] == y.native[key]
  {
    hide Blank;
    var id := OwnerOf(x, source, env, key);
    assert Holds(y, id, source[id], env);
  }

  // Indexes that stand for the same records are the same.
  lemma RepresentationIsUnique(x: Index, y: Index, source: Source, env: Env)
    requires Represents(x, source, env) && Represents(y, source, env)
    ensures x.native == y.native && x.records == y.records
  {
    assert x.native.Keys == x.records.Keys && y.native.Keys == y.records.Keys;
    hide Represents;
    forall key | key in x.records
      ensures key in y.records && x.records[key] == y.records[key] && x.native[key] == y.native[key]
    {
      SameEntry(x, y, source, env, key);
    }
    forall key | key in y.records
      ensures key in x.records
    {
      SameEntry(y, x, source, env, key);
    }
    assert x.records.Keys == y.records.Keys;
    assert x.native.Keys == y.native.Keys;
    assert forall key :: key in x.native ==> key in x.records;
  }

  function IdOf(r: Record): (string, string) { (r.space, r.id) }

  lemma DeleteKeeps(x: Index, source: Source, space: string, id: string, env: Env, f: Faults)
    requires Represents(x, source, env)
    ensures var (y, r) := Deleted(x, space, id, env, f);
            (r.Ok? ==> Represents(y, source - {(space, id)}, env) && r.value == ((space, id) in source))
            && (r.Err? ==> y == x && r.error != InvalidIndexContainer)
  {
    hide Blank;
    var key, gone := (env.derive)(space, id), (space, id);
    var (y, r) := Deleted(x, space, id, env, f);
    if key in x.records {
      var owner := OwnerOf(x, source, env, key);
      if r.Ok? {
        var left := source - {gone};
        forall other | other in left
          ensures Holds(y, other, left[other], env)
        {
          assert Holds(x, other, source[other], env);
          if (env.derive)(other.0, other.1) == key {
            KeysAreDistinct(x, source, env, other, owner);
          }
        }
        forall k | k in y.records
          ensures exists other :: other in left && (env.derive)(other.0, other.1) == k
        {
          var other := OwnerOf(x, source, env, k);
          assert other in left;
        }
      }
    } else {
      assert gone in source ==> Holds(x, gone, source[gone], env);
      assert source - {gone} == source;
    }
  }

  // A successful upsert puts the record into what the index stands for, or takes a
  // blank one out; a failed one changes nothing, unless the native graph also
  // refuses the embedding it had before.
  lemma UpsertKeeps(x: Index, source: Source, record: Record, env: Env, f: Faults)
    requires Represents(x, source, env)
    ensures var (y, r) := Upserted(x, record, env, f);
            (r.Ok? ==>
               Represents(y, if Blank(record.text) then source - {IdOf(record)} else source[IdOf(record) := record],
                          env)
               && r.value == (IdOf(record) in source))
            && (r.Err? ==> y == x || r.error == InvalidIndexContainer)
            && (r == Err(InvalidIndexContainer) ==> f.add && f.restore)
  {
    var (y, r) := Upserted(x, record, env, f);
    var key := KeyOf(record, env);
    if Blank(record.text) {
      DeleteKeeps(x, source, record.space, record.id, env, f);
    } else if r.Ok? {
      PutKeeps(x, source, record, env, y);
      hide Represents;
    }
  }

  lemma PutKeeps(x: Index, source: Source, record: Record, env: Env, y: Index)
    requires Represents(x, source, env) && !Blank(record.text) && (env.embed)(record.text).Some?
    requires KeyOf(record, env) in x.records ==> Owns(x.records[KeyOf(record, env)], record)
    requires y.native == x.native[KeyOf(record, env) := (env.embed)(record.text).value]
    requires y.records == x.records[KeyOf(record, env) := Meta(record, env)]
    ensures Represents(y, source[IdOf(record) := record], env)
    ensures KeyOf(record, env) in x.records <==> IdOf(record) in source
  {
    hide Blank;
    var next, key := source[IdOf(record) := record], KeyOf(record, env);
    assert IdOf(record) in source ==> Holds(x, IdOf(record), source[IdOf(record)], env);
    if key in x.records {
      var owner := OwnerOf(x, source, env, key);
    }
    forall other | other in next
      ensures Holds(y, other, next[other], env)
    {
      if other != IdOf(record) {
        assert Holds(x, other, source[other], env);
      }
    }
    forall k | k in y.records
      ensures exists other :: other in next && (env.derive)(other.0, other.1) == k
    {
      if k == key {
        assert IdOf(record) in next;
      } else {
        var other := OwnerOf(x, source, env, k);
        assert other in next;
      }
    }
  }

  // ---- Building --------------------------------------------------------------------------

  function SourceOf(r: seq<Record>): Source {
    if r == [] then map[] else SourceOf(r[..|r| - 1])[IdOf(r[|r| - 1]) := r[|r| - 1]]
  }

  lemma {:induction false} SourceHas(r: seq<Record>, i: nat)
    requires DistinctIdentities(r) && i < |r|
    ensures IdOf(r[i]) in SourceOf(r) && SourceOf(r)[IdOf(r[i])] == r[i]
  {
    var front, last := r[..|r| - 1], r[|r| - 1];
    if i < |front| {
      SourceHas(front, i);
      assert !SameIdentity(r[i], last);
    }
  }

  lemma {:induction false} SourceOnly(r: seq<Record>, id: (string, string)) returns (i: nat)
    requires id in SourceOf(r)
    ensures i < |r| && IdOf(r[i]) == id
  {
    if IdOf(r[|r| - 1]) == id {
      i := |r| - 1;
    } else {
      i := SourceOnly(r[..|r| - 1], id);
    }
  }

  lemma {:induction false} AddedRepresents(selected: seq<Record>, n: nat, env: Env, signature: int, f: Faults)
    requires n <= |selected| && DistinctIdentities(selected)
    requires forall i :: 0 <= i < |selected| ==> !Blank(selected[i].text)
    requires Added(selected, n, env, signature, f).Ok?
    ensures var x := Added(selected, n, env, signature, f).value;
            Represents(x, SourceOf(selected[..n]), env) && x.signature == signature && |x.records| == n
  {
    hide Blank, Represents, Owns, KeyOf, Meta;
    if n == 0 {
      NothingRepresents(signature, env);
    } else {
      AddedRepresents(selected, n - 1, env, signature, f);
      var x := Added(selected, n - 1, env, signature, f).value;
      var front := selected[..n - 1];
      assert selected[..n][..n - 1] == front;
      PutKeeps(x, SourceOf(front), selected[n - 1], env, Added(selected, n, env, signature, f).value);
    }
  }

  lemma NothingRepresents(signature: int, env: Env)
    ensures Represents(Index(map[], map[], signature), map[], env)
  {
  }

  lemma {:induction false} NonBlankOnly(r: seq<Record>)
    ensures forall i :: 0 <= i < |NonBlank(r)| ==> !Blank(NonBlank(r)[i].text) && NonBlank(r)[i] in r
    ensures forall x :: x in r && !Blank(x.text) ==> x in NonBlank(r)
  {
    hide Blank;
    if r != [] {
      NonBlankOnly(r[1..]);
    }
  }

  lemma {:induction false} SourceUnordered(a: seq<Record>, b: seq<Record>)
    requires multiset(a) == multiset(b) && DistinctIdentities(a)
    ensures SourceOf(a) == SourceOf(b)
  {
    DistinctUnordered(a, b);
    forall id | id in SourceOf(a) || id in SourceOf(b)
      ensures id in SourceOf(a) && id in SourceOf(b) && SourceOf(a)[id] == SourceOf(b)[id]
    {
      if id in SourceOf(a) {
        SameRecord(a, b, id);
      } else {
        SameRecord(b, a, id);
      }
    }
    assert SourceOf(a).Keys == SourceOf(b).Keys;
  }

  lemma SameRecord(a: seq<Record>, b: seq<Record>, id: (string, string))
    requires multiset(a) == multiset(b) && DistinctIdentities(a) && DistinctIdentities(b) && id in SourceOf(a)
    ensures id in SourceOf(b) && SourceOf(b)[id] == SourceOf(a)[id]
  {
    hide SourceOf;
    var i := SourceOnly(a, id);
    SourceHas(a, i);
    assert a[i] in multiset(b);
    var j :| 0 <= j < |b| && b[j] == a[i];
    SourceHas(b, j);
  }

  // A build succeeds only on records with distinct identities, and then stands for
  // exactly those that are not blank, whatever order they came in.
  lemma BuildRepresents(records: seq<Record>, env: Env, f: Faults)
    requires Built(records, env, f).Ok?
    ensures DistinctIdentities(NonBlank(records))
    ensures var x := Built(records, env, f).value;
            Represents(x, SourceOf(NonBlank(records)), env) && env.signature == Some(x.signature)
            && |x.records| == |NonBlank(records)|
  {
    var wanted := NonBlank(records);
    var selected := Identities.Sorted(wanted);
    SortSorts(wanted);
    NeighboursTellAll(selected);
    NonBlankOnly(records);
    hide Identities.Sorted, NonBlank, Blank, Represents, Added;
    DistinctUnordered(selected, wanted);
    forall i | 0 <= i < |selected|
      ensures !Blank(selected[i].text)
    {
      assert selected[i] in multiset(wanted);
    }
    AddedRepresents(selected, |selected|, env, env.signature.value, f);
    assert selected[..|selected|] == selected;
    SourceUnordered(selected, wanted);
    assert |selected| == |multiset(selected)| == |wanted|;
  }

  // ---- When a build succeeds -----------------------------------------------------------

  lemma {:induction false} EmbedAllIff(r: seq<Record>, env: Env)
    ensures EmbedAll(r, env).Some? <==> forall x :: x in r ==> (env.embed)(x.text).Some?
  {
    if r != [] {
      EmbedAllIff(r[1..], env);
      assert forall x :: x in r <==> x == r[0] || x in r[1..];
    }
  }

  // Two of the first records have one key.
  ghost predicate Collides(selected: seq<Record>, n: nat, env: Env)
    requires n <= |selected|
  {
    exists i, j :: 0 <= i < j < n && KeyOf(selected[i], env) == KeyOf(selected[j], env)
  }

  lemma {:induction false} AddedIff(selected: seq<Record>, n: nat, env: Env, signature: int, f: Faults)
    requires n <= |selected| && forall i :: 0 <= i < n ==> (env.embed)(selected[i].text).Some?
    ensures Added(selected, n, env, signature, f).Ok? <==> !Collides(selected, n, env) && (n > 0 ==> !f.add)
    ensures Added(selected, n, env, signature, f).Ok? ==>
              forall key :: key in Added(selected, n, env, signature, f).value.records <==>
                exists i :: 0 <= i < n && KeyOf(selected[i], env) == key
    ensures Added(selected, n, env, signature, f).Err? ==>
              Added(selected, n, env, signature, f).error == if f.add then Native else KeyCollision
  {
    hide KeyOf;
    if n > 0 {
      AddedIff(selected, n - 1, env, signature, f);
      if Collides(selected, n - 1, env) {
        var i, j :| 0 <= i < j < n - 1 && KeyOf(selected[i], env) == KeyOf(selected[j], env);
      } else if Collides(selected, n, env) {
        var i, j :| 0 <= i < j < n && KeyOf(selected[i], env) == KeyOf(selected[j], env);
        assert j == n - 1;
      } else if Added(selected, n, env, signature, f).Ok? {
        var x := Added(selected, n, env, signature, f).value;
        forall key
          ensures key in x.records <==> exists i :: 0 <= i < n && KeyOf(selected[i], env) == key
        {
          if i :| 0 <= i < n && KeyOf(selected[i], env) == key {
            assert i == n - 1 || i < n - 1;
          }
        }
      }
    }
  }

  ghost predicate AllEmbed(r: seq<Record>, env: Env) { forall x :: x in r ==> (env.embed)(x.text).Some? }

  lemma BuildCases(records: seq<Record>, env: Env, f: Faults)
    ensures var wanted, r := NonBlank(records), Built(records, env, f);
            && (env.signature.None? ==> r == Err(EmbeddingFailed))
            && (env.signature.Some? && !DistinctIdentities(wanted) ==> r == Err(DuplicateIdentity))
            && (env.signature.Some? && DistinctIdentities(wanted) ==>
                  && (!AllEmbed(wanted, env) ==> r == Err(EmbeddingFailed))
                  && (AllEmbed(wanted, env) && (f.create || f.reserve) ==> r == Err(Native))
                  && (AllEmbed(wanted, env) && !f.create && !f.reserve ==>
                        && (r.Ok? <==> !Collides(wanted, |wanted|, env) && (wanted != [] ==> !f.add))
                        && (r.Err? ==> r.error == if f.add then Native else KeyCollision)))
  {
    var wanted := NonBlank(records);
    var selected := Identities.Sorted(wanted);
    SortSorts(wanted);
    NeighboursTellAll(selected);
    EmbedAllIff(selected, env);
    SameMembers(selected, wanted);
    hide Identities.Sorted, NonBlank, Blank, Added, EmbedAll, KeyOf, NoNeighbours, DistinctIdentities, Collides;
    DistinctEitherWay(selected, wanted);
    if env.signature.Some? && DistinctIdentities(selected) && EmbedAll(selected, env).Some? {
      AddedIff(selected, |selected|, env, env.signature.value, f);
      SameKeys(selected, wanted, env);
    }
  }

  // A build succeeds exactly when the embedder answers, no two records that are not blank
  // share identity or key, and the native graph refuses nothing. Otherwise the error is
  // the first of these that fails, in the order of the checks.
  lemma BuildSucceedsIff(records: seq<Record>, env: Env, f: Faults)
    ensures var wanted, r := NonBlank(records), Built(records, env, f);
            var embeds := forall x :: x in wanted ==> (env.embed)(x.text).Some?;
            var distinct := forall i, j :: 0 <= i < j < |wanted| ==> !SameIdentity(wanted[i], wanted[j]);
            var apart := forall i, j :: 0 <= i < j < |wanted| ==> KeyOf(wanted[i], env) != KeyOf(wanted[j], env);
            if env.signature.None? then r == Err(EmbeddingFailed)
            else if !distinct then r == Err(DuplicateIdentity)
            else if !embeds then r == Err(EmbeddingFailed)
            else if f.create || f.reserve || (f.add && wanted != []) then r == Err(Native)
            else if !apart then r == Err(KeyCollision)
            else r.Ok?
  {
    BuildCases(records, env, f);
    hide NonBlank, Built, SameIdentity, KeyOf;
  }

  lemma SameMembers(a: seq<Record>, b: seq<Record>)
    requires multiset(a) == multiset(b)
    ensures forall x :: x in a <==> x in b
    ensures |a| == |b|
  {
    assert forall x :: x in a <==> x in multiset(a);
    assert forall x :: x in b <==> x in multiset(b);
    assert |a| == |multiset(a)| == |b|;
  }

  lemma DistinctEitherWay(a: seq<Record>, b: seq<Record>)
    requires multiset(a) == multiset(b)
    ensures DistinctIdentities(a) <==> DistinctIdentities(b)
  {
    if DistinctIdentities(a) {
      DistinctUnordered(a, b);
    }
    if DistinctIdentities(b) {
      DistinctUnordered(b, a);
    }
  }

  lemma SameKeys(a: seq<Record>, b: seq<Record>, env: Env)
    requires multiset(a) == multiset(b)
    ensures DistinctIdentities(a) ==> (Collides(a, |a|, env) <==> Collides(b, |b|, env))
  {
    if DistinctIdentities(a) {
      DistinctUnordered(a, b);
      if Collides(a, |a|, env) {
        KeysMove(a, b, env);
      }
      if Collides(b, |b|, env) {
        KeysMove(b, a, env);
      }
    }
  }

  lemma KeysMove(a: seq<Record>, b: seq<Record>, env: Env)
    requires multiset(a) == multiset(b) && DistinctIdentities(a) && Collides(a, |a|, env)
    ensures Collides(b, |b|, env)
  {
    SameMembers(a, b);
    var i, j :| 0 <= i < j < |a| && KeyOf(a[i], env) == KeyOf(a[j], env);
    assert a[i] in b && a[j] in b && !SameIdentity(a[i], a[j]);
    var k :| 0 <= k < |b| && b[k] == a[i];
    var l :| 0 <= l < |b| && b[l] == a[j];
    assert k != l;
    if k < l {
      assert KeyOf(b[k], env) == KeyOf(b[l], env);
    } else {
      assert KeyOf(b[l], env) == KeyOf(b[k], env);
    }
  }
}
