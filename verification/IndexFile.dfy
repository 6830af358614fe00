// Saving an index to a container and loading it back. The JSON of the metadata and
// the serialization of the native graph are functions with their parsers.
module IndexFile {
  import opened Wrappers
  import opened ByteStrings
  import opened Container
  import opened VectorIndex
  import opened IndexService

  const KEY_DERIVATION_VERSION := "woof.vector-key.sha256-be-v1"

  datatype Persisted = Persisted(keyDerivation: string, signature: int, records: seq<Indexed>)

  datatype Format = Format(sha: Hash,
                           printMeta: Persisted -> Bytes, parseMeta: Bytes -> Option<Persisted>,
                           printGraph: map<Key, Vector> -> Bytes, parseGraph: Bytes -> Option<map<Key, Vector>>)

  // The parsers undo the printers, and a graph is never printed as nothing.
  ghost predicate Faithful(format: Format) {
    IsHash(format.sha)
    && (forall m: Persisted :: (format.parseMeta)((format.printMeta)(m)) == Some(m))
    && (forall g: map<Key, Vector> ::
          (format.parseGraph)((format.printGraph)(g)) == Some(g) && (format.printGraph)(g) != [])
  }

  // The records in the order of their keys.
  ghost predicate Lists(order: seq<Indexed>, records: map<Key, Indexed>) {
    |order| == |records|
    && (forall i :: 0 <= i < |order| ==> order[i].key in records && records[order[i].key] == order[i])
    && forall i, j :: 0 <= i < j < |order| ==> order[i].key < order[j].key
  }

  // The records, each once, in any order.
  ghost predicate AreRecords(list: seq<Indexed>, records: map<Key, Indexed>) {
    |list| == |records|
    && (forall i :: 0 <= i < |list| ==> list[i].key in records && records[list[i].key] == list[i])
    && forall i, j :: 0 <= i < j < |list| ==> list[i].key != list[j].key
  }

  function Saved(x: Index, order: seq<Indexed>, format: Format): Option<Bytes> {
    Encoded(Decoded(|x.records|,
                    (format.printMeta)(Persisted(KEY_DERIVATION_VERSION, x.signature, order)),
                    (format.printGraph)(x.native)), format.sha)
  }

  // The records of the first `n` entries; None for a wrong key or a repeated one.
  function LoadRecords(list: seq<Indexed>, n: nat, env: Env): Option<map<Key, Indexed>>
    requires n <= |list|
  {
    if n == 0 then Some(map[])
    else
      match LoadRecords(list, n - 1, env)
      case None => None
      case Some(records) =>
        var r := list[n - 1];
        if r.key != (env.derive)(r.space, r.id) || r.key in records then None
        else Some(records[r.key := r])
  }

  function Loaded(b: Bytes, env: Env, format: Format): Option<Index> {
    match DecodeContainer(b, format.sha)
    case None => None
    case Some(d) =>
      match (format.parseMeta)(d.metadata)
      case None => None
      case Some(meta) =>
        if meta.keyDerivation != KEY_DERIVATION_VERSION then None
        else
          match LoadRecords(meta.records, |meta.records|, env)
          case None => None
          case Some(records) =>
            if |records| != d.recordCount then None
            else
              match (format.parseGraph)(d.native)
              case None => None
              case Some(graph) =>
                if |graph| != |records| || exists key :: key in records && key !in graph then None
                else Some(Index(graph, records, meta.signature))
  }

  // An index whose graph and records have the same keys, each derived from its identity.
  ghost predicate Consistent(x: Index, env: Env) {
    x.native.Keys == x.records.Keys
    && forall key :: key in x.records ==>
         x.records[key].key == key && (env.derive)(x.records[key].space, x.records[key].id) == key
  }

  lemma {:induction false} LoadRecordsKeyed(list: seq<Indexed>, n: nat, env: Env)
    requires n <= |list| && LoadRecords(list, n, env).Some?
    ensures var records := LoadRecords(list, n, env).value;
            |records| == n
            && forall key :: key in records ==>
                 records[key].key == key && (env.derive)(records[key].space, records[key].id) == key
  {
    if n > 0 {
      LoadRecordsKeyed(list, n - 1, env);
    }
  }

  // Whatever loads is consistent.
  lemma LoadedIsConsistent(b: Bytes, env: Env, format: Format)
    requires Loaded(b, env, format).Some?
    ensures Consistent(Loaded(b, env, format).value, env) && Keyed(Loaded(b, env, format).value)
  {
    hide DecodeContainer;
    var meta := (format.parseMeta)(DecodeContainer(b, format.sha).value.metadata).value;
    var x := Loaded(b, env, format).value;
    LoadRecordsKeyed(meta.records, |meta.records|, env);
    assert x.records.Keys <= x.native.Keys;
    assert |x.records.Keys| == |x.records| && |x.native.Keys| == |x.native|;
    SubsetOfSameSize(x.records.Keys, x.native.Keys);
  }

  lemma {:induction false} ListedRecordsLoad(order: seq<Indexed>, records: map<Key, Indexed>, n: nat, env: Env)
    requires AreRecords(order, records) && n <= |order|
    requires forall key :: key in records ==> (env.derive)(records[key].space, records[key].id) == key
    ensures LoadRecords(order, n, env).Some?
    ensures var loaded := LoadRecords(order, n, env).value;
            forall key :: key in loaded <==> exists i :: 0 <= i < n && order[i].key == key
    ensures var loaded := LoadRecords(order, n, env).value;
            forall key :: key in loaded ==> key in records && loaded[key] == records[key]
  {
    if n > 0 {
      ListedRecordsLoad(order, records, n - 1, env);
      var before := LoadRecords(order, n - 1, env).value;
      var r := order[n - 1];
      assert r.key in records && records[r.key] == r;
      assert r.key !in before;
    }
  }

  // A consistent index that is saved is loaded back as it was.
  lemma SavedIsLoaded(x: Index, order: seq<Indexed>, env: Env, format: Format)
    requires Faithful(format) && Consistent(x, env) && Lists(order, x.records)
    requires Storable(Decoded(|x.records|,
                              (format.printMeta)(Persisted(KEY_DERIVATION_VERSION, x.signature, order)),
                              (format.printGraph)(x.native)))
    ensures Saved(x, order, format).Some? && Loaded(Saved(x, order, format).value, env, format) == Some(x)
  {
    var meta := Persisted(KEY_DERIVATION_VERSION, x.signature, order);
    var d := Decoded(|x.records|, (format.printMeta)(meta), (format.printGraph)(x.native));
    assert IsHash(format.sha) && (format.parseMeta)(d.metadata) == Some(meta)
        && (format.parseGraph)(d.native) == Some(x.native);
    AllRecordsLoad(order, x, env);
    hide DecodeContainer, Encoded, Storable, IsHash, Faithful, LoadRecords, Consistent, Lists;
    DecodesEncoding(d, format.sha);
  }

  lemma {:induction false} LoadedAreListed(list: seq<Indexed>, n: nat, env: Env)
    requires n <= |list| && LoadRecords(list, n, env).Some?
    ensures var records := LoadRecords(list, n, env).value;
            && |records| == n
            && (forall i :: 0 <= i < n ==> list[i].key in records && records[list[i].key] == list[i])
            && forall i, j :: 0 <= i < j < n ==> list[i].key != list[j].key
  {
    if n > 0 {
      LoadedAreListed(list, n - 1, env);
    }
  }

  // What loads as x: a container whose metadata has the version, the signature and the
  // records of x, each once and as many as the header says, and whose graph is that of x,
  // if x is consistent.
  lemma LoadsIff(b: Bytes, x: Index, env: Env, format: Format)
    ensures Loaded(b, env, format) == Some(x) <==>
            var d := DecodeContainer(b, format.sha);
            && d.Some?
            && var meta := (format.parseMeta)(d.value.metadata);
               && meta.Some? && meta.value.keyDerivation == "woof.vector-key.sha256-be-v1"
               && meta.value.signature == x.signature && |meta.value.records| == d.value.recordCount
               && AreRecords(meta.value.records, x.records)
               && (format.parseGraph)(d.value.native) == Some(x.native) && Consistent(x, env)
  {
    hide DecodeContainer;
    var d := DecodeContainer(b, format.sha);
    if d.Some? && (format.parseMeta)(d.value.metadata).Some? {
      var list := (format.parseMeta)(d.value.metadata).value.records;
      if Loaded(b, env, format) == Some(x) {
        LoadedIsConsistent(b, env, format);
        LoadedAreListed(list, |list|, env);
      }
      if AreRecords(list, x.records) && Consistent(x, env) {
        AllRecordsLoad(list, x, env);
      }
    }
    hide LoadRecords, Consistent;
  }

  lemma AllRecordsLoad(order: seq<Indexed>, x: Index, env: Env)
    requires Consistent(x, env) && AreRecords(order, x.records)
    ensures LoadRecords(order, |order|, env) == Some(x.records)
    ensures |x.native| == |x.records| && forall key :: key in x.records ==> key in x.native
  {
    ListedRecordsLoad(order, x.records, |order|, env);
    var loaded := LoadRecords(order, |order|, env).value;
    LoadRecordsKeyed(order, |order|, env);
    hide LoadRecords;
    assert loaded.Keys <= x.records.Keys;
    assert |loaded.Keys| == |loaded| && |x.records.Keys| == |x.records|;
    SubsetOfSameSize(loaded.Keys, x.records.Keys);
    assert loaded == x.records;
    assert |x.native| == |x.native.Keys|;
  }
}
