// The semantic service on top of the index: edits follow the storage rows, and at
// the next start a saved index is kept only if it matches them.
module IndexService {
  import opened Wrappers
  import opened Identities
  import opened VectorIndex

  // ---- Refreshing metadata -----------------------------------------------------------

  // A refresh takes over the new record exactly when its text is not blank and
  // embeds like the text the index was built from.
  lemma RefreshIsExact(x: Index, source: Source, record: Record, env: Env)
    requires Represents(x, source, env) && Refreshed(x, record, env).1 == Ok(true)
    ensures IdOf(record) in source
    ensures Represents(Refreshed(x, record, env).0, source[IdOf(record) := record], env)
       <==> !Blank(record.text) && (env.embed)(record.text) == (env.embed)(source[IdOf(record)].text)
  {
    hide Blank;
    var (y, r) := Refreshed(x, record, env);
    var key, id := KeyOf(record, env), IdOf(record);
    var owner := OwnerOf(x, source, env, key);
    assert owner == id;
    var next := source[id := record];
    if Represents(y, next, env) {
      assert Holds(y, id, next[id], env);
    }
    if !Blank(record.text) && (env.embed)(record.text) == (env.embed)(source[id].text) {
      forall other | other in next
        ensures Holds(y, other, next[other], env)
      {
        if other != id {
          assert Holds(x, other, source[other], env);
          if (env.derive)(other.0, other.1) == key {
            KeysAreDistinct(x, source, env, other, id);
          }
        }
      }
      forall k | k in y.records
        ensures exists other :: other in next && (env.derive)(other.0, other.1) == k
      {
        var other := OwnerOf(x, source, env, k);
        assert other in next;
      }
      assert Represents(y, next, env);
    }
  }

  lemma RefreshMisses(x: Index, source: Source, record: Record, env: Env)
    requires Represents(x, source, env) && Refreshed(x, record, env).1 != Ok(true)
    ensures Refreshed(x, record, env).0 == x
    ensures Refreshed(x, record, env).1 == Ok(false) ==> IdOf(record) !in source
  {
    hide Blank;
    assert IdOf(record) in source ==> Holds(x, IdOf(record), source[IdOf(record)], env);
  }

  // ---- Runs of edits -------------------------------------------------------------------

  datatype Edit =
    | Build(records: seq<Record>)
    | Upsert(record: Record)
    | Delete(space: string, id: string)
    | Refresh(record: Record)

  datatype State = State(index: Index, source: Source)

  function Apply(s: State, e: Edit, env: Env, f: Faults): (State, Option<Error>) {
    match e
    case Build(records) =>
      (match Built(records, env, f)
       case Ok(x) => (State(x, SourceOf(NonBlank(records))), None)
       case Err(error) => (s, Some(error)))
    case Upsert(record) =>
      var (x, r) := Upserted(s.index, record, env, f);
      (match r
       case Ok(_) =>
         (State(x, if Blank(record.text) then s.source - {IdOf(record)} else s.source[IdOf(record) := record]), None)
       case Err(error) => (s.(index := x), Some(error)))
    case Delete(space, id) =>
      var (x, r) := Deleted(s.index, space, id, env, f);
      (match r
       case Ok(_) => (State(x, s.source - {(space, id)}), None)
       case Err(error) => (s.(index := x), Some(error)))
    case Refresh(record) =>
      var (x, r) := Refreshed(s.index, record, env);
      match r
      case Ok(true) => (State(x, s.source[IdOf(record) := record]), None)
      case Ok(false) => (s.(index := x), None)
      case Err(error) => (s.(index := x), Some(error))
  }

  // A refresh is for a record whose content did not change.
  predicate KeepsContent(s: State, e: Edit) {
    e.Refresh? && IdOf(e.record) in s.source ==> s.source[IdOf(e.record)].text == e.record.text
  }

  // The edits of a run, with what the native graph refuses in each; a graph that has
  // lost an embedding ends the run.
  ghost predicate GoodRun(s: State, run: seq<(Edit, Faults)>, env: Env)
    decreases |run|
  {
    run == []
    || (KeepsContent(s, run[0].0)
        && Apply(s, run[0].0, env, run[0].1).1 != Some(InvalidIndexContainer)
        && GoodRun(Apply(s, run[0].0, env, run[0].1).0, run[1..], env))
  }

  function Perform(s: State, run: seq<(Edit, Faults)>, env: Env): State
    decreases |run|
  {
    if run == [] then s else Perform(Apply(s, run[0].0, env, run[0].1).0, run[1..], env)
  }

  ghost predicate Sound(s: State, env: Env) {
    Represents(s.index, s.source, env) && env.signature == Some(s.index.signature)
  }

  lemma SoundMeans(s: State, env: Env)
    ensures Sound(s, env) <==> Represents(s.index, s.source, env) && env.signature == Some(s.index.signature)
  {
    hide Represents;
  }

  lemma EditKeepsSound(s: State, e: Edit, env: Env, f: Faults)
    requires Sound(s, env) && KeepsContent(s, e) && Apply(s, e, env, f).1 != Some(InvalidIndexContainer)
    ensures Sound(Apply(s, e, env, f).0, env)
    ensures Apply(s, e, env, f).1.Some? ==> Apply(s, e, env, f).0 == s
  {
    hide Represents, Built, NonBlank, SourceOf, Blank;
    match e {
      case Build(records) =>
        if Built(records, env, f).Ok? {
          BuildRepresents(records, env, f);
        }
      case Upsert(record) =>
        UpsertKeeps(s.index, s.source, record, env, f);
      case Delete(space, id) =>
        DeleteKeeps(s.index, s.source, space, id, env, f);
      case Refresh(record) =>
        if Refreshed(s.index, record, env).1 == Ok(true) {
          RefreshIsExact(s.index, s.source, record, env);
          SourceIsNotBlank(s.index, s.source, record, env);
        } else {
          RefreshMisses(s.index, s.source, record, env);
        }
    }
  }

  lemma SourceIsNotBlank(x: Index, source: Source, record: Record, env: Env)
    requires Represents(x, source, env) && IdOf(record) in source && source[IdOf(record)].text == record.text
    ensures !Blank(record.text)
  {
    hide Blank;
    assert Holds(x, IdOf(record), source[IdOf(record)], env);
  }

  lemma {:induction false} RunsKeepSound(s: State, run: seq<(Edit, Faults)>, env: Env)
    requires Sound(s, env) && GoodRun(s, run, env)
    ensures Sound(Perform(s, run, env), env)
    decreases |run|
  {
    hide Sound, Apply, KeepsContent;
    if run != [] {
      EditKeepsSound(s, run[0].0, env, run[0].1);
      RunsKeepSound(Apply(s, run[0].0, env, run[0].1).0, run[1..], env);
    }
  }

  // ---- Matching the storage ---------------------------------------------------------------

  ghost predicate Keyed(x: Index) {
    forall key :: key in x.records ==> x.records[key].key == key
  }

  lemma RepresentedIsKeyed(x: Index, source: Source, env: Env)
    requires Represents(x, source, env)
    ensures Keyed(x)
  {
    hide Blank;
    forall key | key in x.records
      ensures x.records[key].key == key
    {
      var id := OwnerOf(x, source, env, key);
    }
  }

  lemma WantedIsHeld(records: seq<Record>, env: Env, f: Faults, i: nat)
    requires Built(records, env, f).Ok? && i < |NonBlank(records)|
    ensures var y, r := Built(records, env, f).value, NonBlank(records)[i];
            KeyOf(r, env) in y.records && y.records[KeyOf(r, env)] == Meta(r, env)
  {
    BuildRepresents(records, env, f);
    SourceHas(NonBlank(records), i);
    hide Built, NonBlank, SourceOf, Blank;
    var y, r := Built(records, env, f).value, NonBlank(records)[i];
    assert Holds(y, IdOf(r), SourceOf(NonBlank(records))[IdOf(r)], env);
  }

  lemma KeyIsWanted(records: seq<Record>, env: Env, f: Faults, key: Key) returns (i: nat)
    requires Built(records, env, f).Ok? && key in Built(records, env, f).value.records
    ensures i < |NonBlank(records)| && KeyOf(NonBlank(records)[i], env) == key
  {
    BuildRepresents(records, env, f);
    hide Built, NonBlank, SourceOf, Blank;
    var id := OwnerOf(Built(records, env, f).value, SourceOf(NonBlank(records)), env, key);
    i := SourceOnly(NonBlank(records), id);
  }

  lemma {:induction false} SubsetOfSameSize(a: set<Key>, b: set<Key>)
    requires a <= b && |a| == |b|
    ensures a == b
  {
    if exists k :: k in b && k !in a {
      var k :| k in b && k !in a;
      SmallerSubset(a, b - {k});
    }
  }

  lemma {:induction false} SmallerSubset(a: set<Key>, b: set<Key>)
    requires a <= b
    ensures |a| <= |b|
    decreases |a|
  {
    if a != {} {
      var k := HasElement(a);
      SmallerSubset(a - {k}, b - {k});
    }
  }

  // The entry of a wanted record in an index that matches.
  lemma MatchedEntry(x: Index, records: seq<Record>, env: Env, i: nat)
    requires Keyed(x) && IndexMatches(x, records, env) && i < |NonBlank(records)|
    ensures var r := NonBlank(records)[i];
            KeyOf(r, env) in x.records && x.records[KeyOf(r, env)] == Meta(r, env)
  {
    hide NonBlank;
  }

  lemma MatchingHasRecords(x: Index, records: seq<Record>, env: Env, f: Faults)
    requires Keyed(x) && Built(records, env, f).Ok? && IndexMatches(x, records, env)
    ensures x.records == Built(records, env, f).value.records
  {
    var y := Built(records, env, f).value;
    BuildRepresents(records, env, f);
    assert |x.records| == |y.records|;
    hide *;
    forall key | key in y.records
      ensures key in x.records && x.records[key] == y.records[key]
    {
      var i := KeyIsWanted(records, env, f, key);
      WantedIsHeld(records, env, f, i);
      MatchedEntry(x, records, env, i);
    }
    SubsetOfSameSize(y.records.Keys, x.records.Keys);
  }

  // Matching is having the signature of the embedder and the records of a new build.
  // It does not look at the embeddings in the graph.
  lemma MatchesIffSameRecords(x: Index, records: seq<Record>, env: Env, f: Faults)
    requires Keyed(x) && Built(records, env, f).Ok?
    ensures var y := Built(records, env, f).value;
            IndexMatches(x, records, env) <==> x.signature == y.signature && x.records == y.records
  {
    var y, wanted := Built(records, env, f).value, NonBlank(records);
    BuildRepresents(records, env, f);
    hide Built, NonBlank, SourceOf, Represents, Blank, Keyed, DistinctIdentities;
    forall i | 0 <= i < |wanted|
      ensures KeyOf(wanted[i], env) in y.records && y.records[KeyOf(wanted[i], env)] == Meta(wanted[i], env)
    {
      WantedIsHeld(records, env, f, i);
    }
    if IndexMatches(x, records, env) {
      MatchingHasRecords(x, records, env, f);
    }
  }

  // After any run of successful or refused edits that starts with a build, the index
  // equals a new build from the current records, graph and records alike, so the
  // next start accepts it.
  lemma RunsEqualRebuild(start: seq<Record>, run: seq<(Edit, Faults)>, current: seq<Record>, env: Env, f: Faults,
                         g: Faults)
    requires Built(start, env, f).Ok? && Built(current, env, g).Ok?
    requires GoodRun(State(Built(start, env, f).value, SourceOf(NonBlank(start))), run, env)
    requires var last := Perform(State(Built(start, env, f).value, SourceOf(NonBlank(start))), run, env);
             last.source == SourceOf(NonBlank(current))
    ensures var last := Perform(State(Built(start, env, f).value, SourceOf(NonBlank(start))), run, env);
            last.index == Built(current, env, g).value && IndexMatches(last.index, current, env)
  {
    var first := State(Built(start, env, f).value, SourceOf(NonBlank(start)));
    hide *;
    BuildRepresents(start, env, f);
    BuildRepresents(current, env, g);
    var last := Perform(first, run, env);
    SoundMeans(first, env);
    RunsKeepSound(first, run, env);
    SoundMeans(last, env);
    RepresentationIsUnique(last.index, Built(current, env, g).value, last.source, env);
    RepresentedIsKeyed(last.index, last.source, env);
    MatchesIffSameRecords(last.index, current, env, g);
  }

  // A refresh with a text that embeds differently leaves a graph that a new build
  // would not give, and matching accepts it all the same.
  lemma StaleEmbeddingIsAccepted(x: Index, source: Source, record: Record, env: Env, current: seq<Record>, f: Faults)
    requires Represents(x, source, env) && env.signature == Some(x.signature)
    requires Refreshed(x, record, env).1 == Ok(true)
    requires (env.embed)(record.text) != (env.embed)(source[IdOf(record)].text)
    requires Built(current, env, f).Ok? && SourceOf(NonBlank(current)) == source[IdOf(record) := record]
    ensures var y := Refreshed(x, record, env).0;
            IndexMatches(y, current, env) && y != Built(current, env, f).value
  {
    var y, z := Refreshed(x, record, env).0, Built(current, env, f).value;
    BuildRepresents(current, env, f);
    RefreshIsExact(x, source, record, env);
    RefreshedIsKeyed(x, source, record, env);
    SameRecordsAfterRefresh(x, source, record, env, z);
    hide *;
    MatchesIffSameRecords(y, current, env, f);
  }

  lemma RefreshedIsKeyed(x: Index, source: Source, record: Record, env: Env)
    requires Represents(x, source, env)
    ensures Keyed(Refreshed(x, record, env).0)
  {
    RepresentedIsKeyed(x, source, env);
    hide Represents;
  }

  lemma SameRecordsAfterRefresh(x: Index, source: Source, record: Record, env: Env, z: Index)
    requires Represents(x, source, env) && Refreshed(x, record, env).1 == Ok(true)
    requires Represents(z, source[IdOf(record) := record], env)
    ensures Refreshed(x, record, env).0.records == z.records
  {
    hide Blank;
    var next, y := source[IdOf(record) := record], Refreshed(x, record, env).0;
    var key := KeyOf(record, env);
    var owner := OwnerOf(x, source, env, key);
    assert Holds(z, IdOf(record), next[IdOf(record)], env);
    forall k | k in x.records
      ensures k in z.records && y.records[k] == z.records[k]
    {
      var id := OwnerOf(x, source, env, k);
      assert Holds(z, id, next[id], env);
    }
    forall k | k in z.records
      ensures k in x.records
    {
      var id := OwnerOf(z, next, env, k);
      assert id in source ==> Holds(x, id, source[id], env);
    }
  }

  // ---- The service ------------------------------------------------------------------------

  const I64_MIN := -0x8000_0000_0000_0000
  const I64_MAX := 0x7FFF_FFFF_FFFF_FFFF

  // A stored snapshot row; its times are in seconds.
  datatype Export = Export(snapshotId: string, content: string, lastSeenAt: int)

  function SaturatingMillis(seconds: int): int {
    if seconds * 1000 < I64_MIN then I64_MIN else if seconds * 1000 > I64_MAX then I64_MAX else seconds * 1000
  }

  // Milliseconds, or the end of the 64-bit range they lie beyond.
  lemma MillisMean(seconds: int)
    ensures var ms, last := SaturatingMillis(seconds), 0x7FFF_FFFF_FFFF_FFFF;
            -last - 1 <= ms <= last && (ms == 1000 * seconds || (ms == last && last < 1000 * seconds)
                                        || (ms == -last - 1 && 1000 * seconds < -last - 1))
  {
  }

  function SnapshotRecord(e: Export): Record {
    Record("snapshot", e.snapshotId, e.content, SaturatingMillis(e.lastSeenAt))
  }

  function SnapshotRecords(exports: seq<Export>): seq<Record> {
    seq(|exports|, i requires 0 <= i < |exports| => SnapshotRecord(exports[i]))
  }

  datatype ServiceError = MissingSnapshot | Search(error: Error) | Io

  // What an index holds after a metadata refresh that heals a missing record.
  function Healed(x: Index, r: Record, env: Env, f: Faults): (Index, Result<bool, Error>) {
    var (y, refreshed) := Refreshed(x, r, env);
    if refreshed == Ok(false) then Upserted(y, r, env, f) else (y, refreshed)
  }

  // `disk` is the index in a readable file; None when there is none.
  class SemanticSearchService {
    const env: Env
    const index: VectorIndex
    var disk: Option<Index>

    // Keeps a saved index that matches the rows, else builds and saves a new one.
    constructor Initialize(env: Env, saved: Option<Index>, exports: seq<Export>, f: Faults, saves: bool)
      ensures this.env == env && fresh(index)
      ensures saved.Some? && IndexMatches(saved.value, SnapshotRecords(exports), env) ==>
                index.Value() == saved.value && disk == saved
      ensures !(saved.Some? && IndexMatches(saved.value, SnapshotRecords(exports), env)) ==>
                var built := Built(SnapshotRecords(exports), env, f);
                if built.Ok? then index.Value() == built.value && disk == (if saves then Some(built.value) else saved)
                else disk == saved
    {
      this.env, disk := env, saved;
      index := new VectorIndex.Empty();
      new;
      if saved.Some? && IndexMatches(saved.value, SnapshotRecords(exports), env) {
        index.native, index.records, index.signature := saved.value.native, saved.value.records, saved.value.signature;
      } else {
        var r := index.Rebuild(SnapshotRecords(exports), env, f);
        if r.Ok? && saves {
          disk := Some(index.Value());
        }
      }
    }

    // A failed save removes the file, so that no older graph survives the rebuild.
    method Rebuild(exports: seq<Export>, f: Faults, saves: bool, removes: bool) returns (r: Result<(), ServiceError>)
      modifies this`disk, index
      ensures var built := Built(SnapshotRecords(exports), env, f);
              if built.Err? then
                r == Err(Search(built.error)) && index.Value() == old(index.Value()) && disk == old(disk)
              else
                index.Value() == built.value
                && r == (if saves then Ok(()) else Err(Io))
                && disk == if saves then Some(built.value) else if removes then None else old(disk)
    {
      hide Built, SnapshotRecords;
      var rebuilt := index.Rebuild(SnapshotRecords(exports), env, f);
      if rebuilt.Err? {
        return Err(Search(rebuilt.error));
      }
      if !saves {
        if removes {
          disk := None;
        }
        return Err(Io);
      }
      disk := Some(index.Value());
      r := Ok(());
    }

    method UpsertPersistedSnapshot(row: Option<Export>, f: Faults, saves: bool) returns (r: Result<(), ServiceError>)
      modifies this`disk, index
      ensures row.None? ==> r == Err(MissingSnapshot) && index.Value() == old(index.Value())
      ensures row.Some? ==>
                var (x, done) := Upserted(old(index.Value()), SnapshotRecord(row.value), env, f);
                index.Value() == x
                && r == if done.Err? then Err(Search(done.error)) else if saves then Ok(()) else Err(Io)
      ensures disk == if r.Ok? then Some(index.Value()) else old(disk)
    {
      hide Upserted, SnapshotRecord;
      if row.None? {
        return Err(MissingSnapshot);
      }
      var done := index.Upsert(SnapshotRecord(row.value), env, f);
      if done.Err? {
        return Err(Search(done.error));
      }
      if !saves {
        return Err(Io);
      }
      disk := Some(index.Value());
      r := Ok(());
    }

    method RefreshPersistedSnapshotMetadata(row: Option<Export>, f: Faults, saves: bool)
      returns (r: Result<(), ServiceError>)
      modifies this`disk, index
      ensures row.None? ==> r == Err(MissingSnapshot) && index.Value() == old(index.Value())
      ensures row.Some? ==>
                var (x, done) := Healed(old(index.Value()), SnapshotRecord(row.value), env, f);
                index.Value() == x
                && r == if done.Err? then Err(Search(done.error)) else if saves then Ok(()) else Err(Io)
      ensures disk == if r.Ok? then Some(index.Value()) else old(disk)
    {
      hide Upserted, Refreshed, SnapshotRecord;
      if row.None? {
        return Err(MissingSnapshot);
      }
      var refreshed := index.RefreshMetadata(SnapshotRecord(row.value), env);
      if refreshed.Err? {
        return Err(Search(refreshed.error));
      }
      if !refreshed.value {
        var done := index.Upsert(SnapshotRecord(row.value), env, f);
        if done.Err? {
          return Err(Search(done.error));
        }
      }
      if !saves {
        return Err(Io);
      }
      disk := Some(index.Value());
      r := Ok(());
    }
  }

  // A refresh of a row whose content is unchanged, or that is missing from the
  // index, leaves the index holding the row.
  lemma RefreshHeals(x: Index, source: Source, row: Export, env: Env, f: Faults)
    requires Represents(x, source, env) && !Blank(row.content)
    requires var id := IdOf(SnapshotRecord(row)); id in source ==> source[id].text == row.content
    ensures var (y, done) := Healed(x, SnapshotRecord(row), env, f);
            done.Ok? ==> Represents(y, source[IdOf(SnapshotRecord(row)) := SnapshotRecord(row)], env)
  {
    var record := SnapshotRecord(row);
    assert record.text == row.content;
    hide Represents, Upserted, Blank, SnapshotRecord, Refreshed;
    if Refreshed(x, record, env).1 == Ok(true) {
      RefreshIsExact(x, source, record, env);
    } else {
      RefreshMisses(x, source, record, env);
      UpsertKeeps(x, source, record, env, f);
    }
  }
}
