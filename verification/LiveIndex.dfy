// The semantic index beside the stored rows while captures come in: which rows it may
// hold with the embedding of an older text.
module LiveIndex {
  import opened Wrappers
  import opened Identities
  import opened VectorIndex
  import opened IndexService

  // `refused` names the rows whose last embedding was refused.
  datatype Live = Live(rows: map<string, Export>, index: Index, refused: set<string>)

  // What happens to the rows, and what the native graph refuses in the service call
  // that follows: a capture with new content is upserted, one with the same content
  // refreshes its row, expired rows are forgotten, and the index is built anew.
  datatype Event =
    | Content(row: Export, faults: Faults)
    | SeenAgain(id: string, at: int, faults: Faults)
    | Forget(kept: set<string>)
    | BuildAnew(records: seq<Record>, faults: Faults)

  function Later(row: Export, at: int): (r: Export)
    ensures r.snapshotId == row.snapshotId && r.content == row.content
    ensures r.lastSeenAt >= row.lastSeenAt && r.lastSeenAt >= at && r.lastSeenAt in {row.lastSeenAt, at}
  {
    if row.lastSeenAt < at then row.(lastSeenAt := at) else row
  }

  function Noted(refused: set<string>, id: string, ok: bool): set<string> {
    if ok then refused - {id} else refused + {id}
  }

  // A call that fails keeps the capture sequence going.
  function After(s: Live, e: Event, env: Env): Live {
    match e
    case Content(row, f) =>
      var (x, r) := Upserted(s.index, SnapshotRecord(row), env, f);
      Live(s.rows[row.snapshotId := row], x, Noted(s.refused, row.snapshotId, r.Ok?))
    case SeenAgain(id, at, f) =>
      if id !in s.rows then s
      else
        var row := Later(s.rows[id], at);
        var (x, r) := Healed(s.index, SnapshotRecord(row), env, f);
        Live(s.rows[id := row], x,
             if Refreshed(s.index, SnapshotRecord(row), env).1 == Ok(true) then s.refused
             else Noted(s.refused, id, r.Ok?))
    case Forget(kept) => s.(rows := map id | id in s.rows && id in kept :: s.rows[id])
    case BuildAnew(records, f) =>
      match Built(records, env, f)
      case Ok(x) => s.(index := x, refused := {})
      case Err(_) => s
  }

  // Which rows there are then and which of them are noted: a row is noted by a refused
  // upsert of its own, and taken off the note by an accepted one or by a build.
  lemma EventTells(s: Live, e: Event, env: Env, id: string)
    ensures var t := After(s, e, env);
            var row := if e.Content? then e.row
                       else if e.SeenAgain? && e.id in s.rows then Later(s.rows[e.id], e.at) else Export("", "", 0);
            var stored := (e.Content? && id == e.row.snapshotId) || (e.SeenAgain? && id == e.id && id in s.rows);
            var kept := id in s.rows && (e.Forget? ==> id in e.kept);
            var missed := e.SeenAgain? && Refreshed(s.index, SnapshotRecord(row), env).1 != Ok(true);
            && (id in t.rows <==> stored || kept)
            && (id in t.rows ==> t.rows[id] == if stored then row else s.rows[id])
            && (id in t.refused <==>
                if stored && e.Content? then Upserted(s.index, SnapshotRecord(row), env, e.faults).1.Err?
                else if stored && missed then Healed(s.index, SnapshotRecord(row), env, e.faults).1.Err?
                else id in s.refused && !(e.BuildAnew? && Built(e.records, env, e.faults).Ok?))
  {
    hide Upserted, Refreshed, Healed, Built, Later, SnapshotRecord;
  }

  // The records a build takes in.
  ghost predicate SourceIsRows(source: Source, rows: map<string, Export>) {
    (forall id | id in source :: id.0 == "snapshot" && id.1 in rows)
    && forall id | id in rows ::
         (("snapshot", id) in source <==> !Blank(rows[id].content))
         && (("snapshot", id) in source ==> source[("snapshot", id)] == SnapshotRecord(rows[id]))
  }

  // A build reads the rows, and no restore of an older embedding fails.
  ghost predicate Sensible(s: Live, e: Event, env: Env) {
    match e
    case Content(row, f) => Upserted(s.index, SnapshotRecord(row), env, f).1 != Err(InvalidIndexContainer)
    case SeenAgain(id, at, f) =>
      id in s.rows ==> Healed(s.index, SnapshotRecord(Later(s.rows[id], at)), env, f).1 != Err(InvalidIndexContainer)
    case Forget(_) => true
    case BuildAnew(records, _) => SourceIsRows(SourceOf(NonBlank(records)), s.rows)
  }

  function AfterAll(s: Live, run: seq<Event>, env: Env): Live {
    if run == [] then s else After(AfterAll(s, run[..|run| - 1], env), run[|run| - 1], env)
  }

  ghost predicate AllSensible(s: Live, run: seq<Event>, env: Env) {
    run == []
    || (AllSensible(s, run[..|run| - 1], env) && Sensible(AfterAll(s, run[..|run| - 1], env), run[|run| - 1], env))
  }

  // ---- Rows that are held ------------------------------------------------------------------

  ghost predicate HoldsRow(x: Index, row: Export, env: Env) {
    Holds(x, ("snapshot", row.snapshotId), SnapshotRecord(row), env)
  }

  ghost predicate Aligned(x: Index, env: Env) {
    x.native.Keys == x.records.Keys && Keyed(x) && env.signature == Some(x.signature)
  }

  ghost predicate Inv(s: Live, env: Env) {
    Aligned(s.index, env)
    && (forall id | id in s.rows :: s.rows[id].snapshotId == id)
    && forall id | id in s.rows && id !in s.refused && !Blank(s.rows[id].content) :: HoldsRow(s.index, s.rows[id], env)
  }

  // An upsert holds its own row, if it succeeds, and every other row as before.
  lemma UpsertHolds(x: Index, row: Export, env: Env, f: Faults)
    requires Aligned(x, env)
    ensures var (y, r) := Upserted(x, SnapshotRecord(row), env, f);
            r != Err(InvalidIndexContainer) ==>
              Aligned(y, env) && (r.Ok? && !Blank(row.content) ==> HoldsRow(y, row, env))
  {
    hide Blank;
  }

  lemma UpsertSparesOthers(x: Index, row: Export, env: Env, f: Faults, other: Export)
    requires Aligned(x, env) && HoldsRow(x, other, env) && other.snapshotId != row.snapshotId
    ensures var (y, r) := Upserted(x, SnapshotRecord(row), env, f);
            r != Err(InvalidIndexContainer) ==> HoldsRow(y, other, env)
  {
    hide Blank;
  }

  lemma RefreshHolds(x: Index, row: Export, env: Env, older: Export)
    requires Aligned(x, env) && row.snapshotId == older.snapshotId && row.content == older.content
    ensures var (y, r) := Refreshed(x, SnapshotRecord(row), env);
            Aligned(y, env) && (HoldsRow(x, older, env) ==> r == Ok(true) && HoldsRow(y, row, env))
  {
    hide Blank;
  }

  lemma RefreshSparesOthers(x: Index, row: Export, env: Env, other: Export)
    requires Aligned(x, env) && HoldsRow(x, other, env) && other.snapshotId != row.snapshotId
    ensures HoldsRow(Refreshed(x, SnapshotRecord(row), env).0, other, env)
  {
    hide Blank;
  }

  // ---- Every event keeps what is held -------------------------------------------------------

  lemma ContentKeeps(s: Live, row: Export, f: Faults, env: Env)
    requires Inv(s, env) && Sensible(s, Content(row, f), env)
    ensures Inv(After(s, Content(row, f), env), env)
  {
    var t := After(s, Content(row, f), env);
    UpsertHolds(s.index, row, env, f);
    hide Upserted, Aligned, HoldsRow, Blank, SnapshotRecord;
    forall id | id in t.rows && id !in t.refused && !Blank(t.rows[id].content)
      ensures HoldsRow(t.index, t.rows[id], env)
    {
      if id != row.snapshotId {
        UpsertSparesOthers(s.index, row, env, f, s.rows[id]);
      }
    }
  }

  lemma HealedCases(x: Index, r: Record, env: Env, f: Faults)
    ensures Refreshed(x, r, env).1 != Ok(false) ==> Healed(x, r, env, f) == Refreshed(x, r, env)
    ensures Refreshed(x, r, env).1 == Ok(false) ==> Healed(x, r, env, f) == Upserted(x, r, env, f)
    ensures Refreshed(x, r, env).1 != Ok(true) ==> Refreshed(x, r, env).0 == x
    ensures Refreshed(x, r, env).1 != Err(InvalidIndexContainer)
  {
    hide Upserted;
  }

  lemma SeenAgainKeeps(s: Live, id: string, at: int, f: Faults, env: Env)
    requires Inv(s, env) && Sensible(s, SeenAgain(id, at, f), env)
    ensures Inv(After(s, SeenAgain(id, at, f), env), env)
  {
    if id in s.rows {
      var t := After(s, SeenAgain(id, at, f), env);
      var row := Later(s.rows[id], at);
      HealedCases(s.index, SnapshotRecord(row), env, f);
      UpsertHolds(s.index, row, env, f);
      RefreshHolds(s.index, row, env, s.rows[id]);
      hide Healed, Upserted, Refreshed, Aligned, HoldsRow, Blank, SnapshotRecord;
      forall other | other in t.rows && other !in t.refused && !Blank(t.rows[other].content)
        ensures HoldsRow(t.index, t.rows[other], env)
      {
        if other != id {
          UpsertSparesOthers(s.index, row, env, f, s.rows[other]);
          RefreshSparesOthers(s.index, row, env, s.rows[other]);
        }
      }
    }
  }

  // A new build holds every row.
  lemma BuildHolds(rows: map<string, Export>, records: seq<Record>, f: Faults, env: Env)
    requires Built(records, env, f).Ok? && SourceIsRows(SourceOf(NonBlank(records)), rows)
    requires forall id | id in rows :: rows[id].snapshotId == id
    ensures Inv(Live(rows, Built(records, env, f).value, {}), env)
  {
    hide Built, NonBlank, SourceOf, Blank, Holds, DistinctIdentities;
    var source, x := SourceOf(NonBlank(records)), Built(records, env, f).value;
    BuildRepresents(records, env, f);
    RepresentedIsKeyed(x, source, env);
    forall id | id in rows && !Blank(rows[id].content) ensures HoldsRow(x, rows[id], env) {
      assert Holds(x, ("snapshot", id), source[("snapshot", id)], env);
    }
  }

  lemma EventKeeps(s: Live, e: Event, env: Env)
    requires Inv(s, env) && Sensible(s, e, env)
    ensures Inv(After(s, e, env), env)
  {
    match e
    case Content(row, f) => ContentKeeps(s, row, f, env);
    case SeenAgain(id, at, f) => SeenAgainKeeps(s, id, at, f, env);
    case Forget(kept) =>
      hide Aligned, HoldsRow, Blank;
    case BuildAnew(records, f) =>
      if Built(records, env, f).Ok? {
        BuildHolds(s.rows, records, f, env);
      }
  }

  lemma {:induction false} RunsKeepRows(s: Live, run: seq<Event>, env: Env)
    requires Inv(s, env) && AllSensible(s, run, env)
    ensures Inv(AfterAll(s, run, env), env)
    decreases |run|
  {
    hide Inv, After, Sensible;
    if run != [] {
      RunsKeepRows(s, run[..|run| - 1], env);
      EventKeeps(AfterAll(s, run[..|run| - 1], env), run[|run| - 1], env);
    }
  }

  // ---- When an accepted index is stale -----------------------------------------------------

  // The graph has the embedding of the text that the row has now.
  ghost predicate EmbedsRow(x: Index, row: Export, env: Env) {
    var key := KeyOf(SnapshotRecord(row), env);
    key in x.native && (env.embed)(row.content) == Some(x.native[key])
  }

  ghost predicate RefusedRowsEmbed(s: Live, env: Env) {
    forall id | id in s.rows && id in s.refused && !Blank(s.rows[id].content) :: EmbedsRow(s.index, s.rows[id], env)
  }

  lemma SameGraph(s: Live, z: Index, source: Source, env: Env, key: Key)
    requires Inv(s, env) && Represents(z, source, env) && SourceIsRows(source, s.rows) && z.records == s.index.records
    requires key in z.records && RefusedRowsEmbed(s, env)
    ensures key in s.index.native && s.index.native[key] == z.native[key]
  {
    hide Blank;
    var id := OwnerOf(z, source, env, key);
    var row := s.rows[id.1];
    assert source[id] == SnapshotRecord(row);
    if id.1 in s.refused {
      assert EmbedsRow(s.index, row, env);
    } else {
      assert HoldsRow(s.index, row, env);
    }
  }

  lemma FreshEmbeds(s: Live, z: Index, source: Source, env: Env, id: string)
    requires Represents(z, source, env) && SourceIsRows(source, s.rows) && id in s.rows && !Blank(s.rows[id].content)
    ensures EmbedsRow(z, s.rows[id], env)
  {
    hide Blank;
    assert Holds(z, ("snapshot", id), source[("snapshot", id)], env);
  }

  lemma FreshIff(s: Live, z: Index, source: Source, env: Env)
    requires Inv(s, env) && Represents(z, source, env) && SourceIsRows(source, s.rows)
    requires z.records == s.index.records && z.signature == s.index.signature
    ensures s.index == z <==> RefusedRowsEmbed(s, env)
  {
    hide SourceIsRows, EmbedsRow, HoldsRow, Blank, Holds;
    if RefusedRowsEmbed(s, env) {
      hide RefusedRowsEmbed;
      forall key | key in z.native ensures key in s.index.native && s.index.native[key] == z.native[key] {
        SameGraph(s, z, source, env, key);
      }
      assert s.index.native == z.native;
    }
    if s.index == z {
      forall id | id in s.rows && !Blank(s.rows[id].content) ensures EmbedsRow(s.index, s.rows[id], env) {
        FreshEmbeds(s, z, source, env, id);
      }
    }
  }

  // From a build, and whatever is refused on the way, an index that matches the rows is
  // the one that a new build gives exactly when each row refused last embeds as before.
  // So only a row whose upsert failed, and that no later upsert or build took in, is
  // ever stale.
  lemma AcceptedIsFreshIff(start: Live, records: seq<Record>, run: seq<Event>, current: seq<Record>, env: Env,
                           f: Faults, g: Faults)
    requires Built(records, env, f).Ok? && start.index == Built(records, env, f).value && start.refused == {}
    requires SourceIsRows(SourceOf(NonBlank(records)), start.rows)
    requires forall id | id in start.rows :: start.rows[id].snapshotId == id
    requires AllSensible(start, run, env) && Built(current, env, g).Ok?
    requires var s := AfterAll(start, run, env);
             SourceIsRows(SourceOf(NonBlank(current)), s.rows) && IndexMatches(s.index, current, env)
    ensures var s := AfterAll(start, run, env);
            s.index == Built(current, env, g).value <==> RefusedRowsEmbed(s, env)
  {
    var s := AfterAll(start, run, env);
    BuildHolds(start.rows, records, f, env);
    RunsKeepRows(start, run, env);
    BuildRepresents(current, env, g);
    assert Keyed(s.index);
    hide *;
    MatchesIffSameRecords(s.index, current, env, g);
    FreshIff(s, Built(current, env, g).value, SourceOf(NonBlank(current)), env);
  }

  lemma RefusedChangesNothing(s: Live, row: Export, refusing: Faults, source: Source, env: Env)
    requires Represents(s.index, source, env) && SourceIsRows(source, s.rows)
    requires row.snapshotId in s.rows && !Blank(s.rows[row.snapshotId].content) && !Blank(row.content) && refusing.get
    ensures var x := Upserted(s.index, SnapshotRecord(row), env, refusing); x.0 == s.index && x.1.Err?
    ensures Refreshed(s.index, SnapshotRecord(row), env).1 == Ok(true)
  {
    hide Blank;
    var id := ("snapshot", row.snapshotId);
    assert Holds(s.index, id, source[id], env);
  }

  lemma OneThenTwo(s: Live, a: Event, b: Event, env: Env)
    ensures AfterAll(s, [a, b], env) == After(After(s, a, env), b, env)
  {
    hide After;
    assert [a, b][..1] == [a] && [a][..0] == [];
    assert AfterAll(s, [a], env) == After(s, a, env);
  }

  lemma RefusedContent(s: Live, row: Export, f: Faults, env: Env)
    requires var x := Upserted(s.index, SnapshotRecord(row), env, f); x.0 == s.index && x.1.Err?
    ensures var t := After(s, Content(row, f), env); t.rows == s.rows[row.snapshotId := row] && t.index == s.index
  {
    hide Upserted, SnapshotRecord;
  }

  lemma SeenRefreshes(s: Live, id: string, at: int, f: Faults, env: Env)
    requires id in s.rows && Refreshed(s.index, SnapshotRecord(Later(s.rows[id], at)), env).1 == Ok(true)
    ensures var t, later := After(s, SeenAgain(id, at, f), env), Later(s.rows[id], at);
            t.rows == s.rows[id := later] && t.index == Refreshed(s.index, SnapshotRecord(later), env).0
  {
    HealedCases(s.index, SnapshotRecord(Later(s.rows[id], at)), env, f);
    hide Healed, Refreshed, Later, SnapshotRecord;
  }

  lemma TwoEvents(s: Live, row: Export, at: int, refusing: Faults, f: Faults, source: Source, env: Env)
    requires Represents(s.index, source, env) && SourceIsRows(source, s.rows)
    requires row.snapshotId in s.rows && !Blank(s.rows[row.snapshotId].content) && !Blank(row.content) && refusing.get
    ensures var last := AfterAll(s, [Content(row, refusing), SeenAgain(row.snapshotId, at, f)], env);
            var refreshed := Refreshed(s.index, SnapshotRecord(Later(row, at)), env);
            last.rows == s.rows[row.snapshotId := Later(row, at)] && last.index == refreshed.0
            && refreshed.1 == Ok(true)
  {
    hide *;
    var later, mid := Later(row, at), After(s, Content(row, refusing), env);
    RefusedChangesNothing(s, row, refusing, source, env);
    RefusedChangesNothing(s, later, refusing, source, env);
    OneThenTwo(s, Content(row, refusing), SeenAgain(row.snapshotId, at, f), env);
    RefusedContent(s, row, refusing, env);
    SeenRefreshes(mid, row.snapshotId, at, f, env);
    assert mid.rows[row.snapshotId := later] == s.rows[row.snapshotId := later];
  }

  lemma SourceAfter(rows: map<string, Export>, source: Source, row: Export, later: Source)
    requires SourceIsRows(source, rows) && SourceIsRows(later, rows[row.snapshotId := row]) && !Blank(row.content)
    requires row.snapshotId in rows && !Blank(rows[row.snapshotId].content)
    ensures later == source[("snapshot", row.snapshotId) := SnapshotRecord(row)]
  {
    hide Blank;
    var next := source[("snapshot", row.snapshotId) := SnapshotRecord(row)];
    forall id | id in later ensures id in next && later[id] == next[id] {
      assert id == ("snapshot", id.1);
    }
    forall id | id in next ensures id in later {
      assert id == ("snapshot", id.1);
    }
  }

  // It happens: a capture continues a row with another text, its upsert is refused, and
  // the next capture of that text refreshes the row.
  lemma RefusedUpsertGoesStale(s: Live, source: Source, row: Export, at: int, refusing: Faults, f: Faults,
                               current: seq<Record>, env: Env, g: Faults)
    requires Inv(s, env) && Represents(s.index, source, env) && SourceIsRows(source, s.rows)
    requires row.snapshotId in s.rows && !Blank(s.rows[row.snapshotId].content) && !Blank(row.content)
    requires (env.embed)(row.content) != (env.embed)(s.rows[row.snapshotId].content) && refusing.get
    requires var last := AfterAll(s, [Content(row, refusing), SeenAgain(row.snapshotId, at, f)], env);
             Built(current, env, g).Ok? && SourceIsRows(SourceOf(NonBlank(current)), last.rows)
    ensures var last := AfterAll(s, [Content(row, refusing), SeenAgain(row.snapshotId, at, f)], env);
            IndexMatches(last.index, current, env) && last.index != Built(current, env, g).value
  {
    var later := Later(row, at);
    TwoEvents(s, row, at, refusing, f, source, env);
    SourceAfter(s.rows, source, later, SourceOf(NonBlank(current)));
    hide *;
    StaleEmbeddingIsAccepted(s.index, source, SnapshotRecord(later), env, current, g);
  }
}
