/** The migration that merges renamed result kinds and remaps every reference to them. */
module KindMigration {
  import opened Wrappers
  import opened Ordering
  import opened EvidenceModel
  import opened EvidenceRows
  import opened EvidenceLoad
  import opened EvidenceStore

  const RENAMES: map<string, string> := map[
    "api-endpoint" := "url",
    "api_endpoint" := "url",
    "interesting-url" := "url",
    "interestingurls" := "url",
    "ip-address" := "ip",
    "linkedin-link" := "url",
    "linkedinlinks" := "url",
    "vhost" := "hostname"
  ]

  function RenamedKind(kind: string): string { if kind in RENAMES then RENAMES[kind] else kind }

  function Rename(x: ResultId): ResultId { ResultId(RenamedKind(x.kind), x.value) }

  /** An observation from before runs were recorded. */
  datatype LegacyObservation = LegacyObservation(
    domain: string, resource: string, kind: string, discoveredOn: int, source: string)

  predicate Aliased(rows: RunRows) {
    exists i | 0 <= i < |rows.results| :: rows.results[i].item.kind in RENAMES
  }

  // ---- one run ----

  function Renamed(results: seq<ResultRow>): seq<ResultId> {
    seq(|results|, i requires 0 <= i < |results| => Rename(results[i].item))
  }

  function CanonicalResults(results: seq<ResultRow>): seq<ResultId> { SortedUnique(Renamed(results), ResultKey) }

  /** old_positions: where the result of an old row stands now. */
  function NewPosition(rows: RunRows, p: nat): nat {
    var canonical := CanonicalResults(rows.results);
    match FindResult(rows.results, p)
    case Some(x) => if Rename(x) in canonical then LastIndex(canonical, Rename(x)) else 0
    case None => 0
  }

  function OriginKey(o: OriginRow): Key { [Num(o.resultPosition), Num(o.executionPosition)] }

  function CanonicalOrigins(rows: RunRows): seq<OriginRow> {
    SortedUnique(seq(|rows.origins|, i requires 0 <= i < |rows.origins| =>
      OriginRow(NewPosition(rows, rows.origins[i].resultPosition), rows.origins[i].executionPosition)), OriginKey)
  }

  function MovedArtifact(rows: RunRows, a: ArtifactRow): ArtifactRow {
    a.(resultPosition := NewPosition(rows, a.resultPosition))
  }

  function MovedArtifacts(rows: RunRows): seq<ArtifactRow> {
    var ordered := SortedUnique(rows.artifacts, ArtifactPositionKey);
    seq(|ordered|, i requires 0 <= i < |ordered| => MovedArtifact(rows, ordered[i]))
  }

  function CountAt(origins: seq<OriginRow>, p: nat): nat {
    if origins == [] then 0
    else CountAt(origins[..|origins| - 1], p) + if origins[|origins| - 1].executionPosition == p then 1 else 0
  }

  function Recounted(e: ExecutionRow, origins: seq<OriginRow>): ExecutionRow {
    e.(resultCount := CountAt(origins, e.position))
  }

  function NewResults(rows: RunRows): seq<ResultRow> {
    var canonical := CanonicalResults(rows.results);
    seq(|canonical|, i requires 0 <= i < |canonical| => ResultRow(i, canonical[i], None))
  }

  function Migrated(rows: RunRows): RunRows {
    var origins := CanonicalOrigins(rows);
    RunRows(rows.run, NewResults(rows),
            seq(|rows.executions|, i requires 0 <= i < |rows.executions| => Recounted(rows.executions[i], origins)),
            origins, MovedArtifacts(rows), rows.attributions)
  }

  // ---- what it means ----

  /** Some link says the execution at p produced x. */
  ghost predicate Originates(rows: RunRows, p: nat, x: ResultId) {
    exists o :: o in rows.origins && o.executionPosition == p && FindResult(rows.results, o.resultPosition) == Some(x)
  }

  /** The results become the sorted image of the rename at positions 0 to n - 1. */
  lemma ResultsAreTheImage(rows: RunRows)
    ensures var results := Migrated(rows).results;
            && (forall i | 0 <= i < |results| :: results[i].position == i && results[i].details == None)
            && StrictlySorted(Items(results), ResultKey)
            && (forall y :: y in Items(results) <==>
                  exists i :: 0 <= i < |rows.results| && Rename(rows.results[i].item) == y)
  {
    ResultKeysDiffer();
    var renamed := Renamed(rows.results);
    SortedUniqueKeeps(renamed, ResultKey);
    hide CanonicalOrigins, MovedArtifacts, Rename, SortedUnique, StrictlySorted;
    assert Items(Migrated(rows).results) == CanonicalResults(rows.results);
    forall y ensures y in renamed <==> exists i :: 0 <= i < |rows.results| && Rename(rows.results[i].item) == y {
      if i :| 0 <= i < |rows.results| && Rename(rows.results[i].item) == y { assert renamed[i] == y; }
    }
  }

  lemma {:induction false} PositionIsFound(rows: seq<ResultRow>, p: nat)
    requires exists i | 0 <= i < |rows| :: rows[i].position == p
    ensures FindResult(rows, p).Some?
  {
    if rows[|rows| - 1].position != p {
      var i :| 0 <= i < |rows| && rows[i].position == p;
      assert rows[..|rows| - 1][i].position == p;
      PositionIsFound(rows[..|rows| - 1], p);
    }
  }

  lemma {:induction false} FoundAtIndex(rows: seq<ResultRow>, p: nat)
    requires (forall i | 0 <= i < |rows| :: rows[i].position == i) && p < |rows|
    ensures FindResult(rows, p) == Some(rows[p].item)
  {
    if p < |rows| - 1 { FoundAtIndex(rows[..|rows| - 1], p); }
  }

  /** An old position leads to the renamed result. */
  lemma PositionKeepsMeaning(rows: RunRows, p: nat)
    requires HasResult(rows, p)
    ensures FindResult(rows.results, p).Some?
    ensures NewPosition(rows, p) < |Migrated(rows).results|
    ensures FindResult(Migrated(rows).results, NewPosition(rows, p)) == Some(Rename(FindResult(rows.results, p).value))
  {
    PositionIsFound(rows.results, p);
    FoundResult(rows.results, p);
    var x := FindResult(rows.results, p).value;
    var i :| 0 <= i < |rows.results| && rows.results[i].item == x;
    assert Renamed(rows.results)[i] == Rename(x);
    ResultKeysDiffer();
    SortedUniqueKeeps(Renamed(rows.results), ResultKey);
    hide CanonicalOrigins, MovedArtifacts, Rename, SortedUnique, StrictlySorted, FindResult;
    assert Rename(x) in CanonicalResults(rows.results);
    FoundAtIndex(Migrated(rows).results, NewPosition(rows, p));
  }

  lemma OriginKeysDiffer()
    ensures forall x: OriginRow, y: OriginRow :: OriginKey(x) == OriginKey(y) ==> x == y
  {
    forall x: OriginRow, y: OriginRow | OriginKey(x) == OriginKey(y) ensures x == y {
      assert OriginKey(x)[0] == OriginKey(y)[0] && OriginKey(x)[1] == OriginKey(y)[1];
    }
  }

  predicate MovedFrom(rows: RunRows, o: OriginRow, n: OriginRow) {
    n == OriginRow(NewPosition(rows, o.resultPosition), o.executionPosition)
  }

  /** The new links are the old ones with their results moved, each once. */
  lemma OriginsMoved(rows: RunRows)
    ensures forall n :: n in CanonicalOrigins(rows) <==> exists o :: o in rows.origins && MovedFrom(rows, o, n)
    ensures NoDuplicates(CanonicalOrigins(rows))
  {
    OriginKeysDiffer();
    var moved := seq(|rows.origins|, i requires 0 <= i < |rows.origins| =>
      OriginRow(NewPosition(rows, rows.origins[i].resultPosition), rows.origins[i].executionPosition));
    assert CanonicalOrigins(rows) == SortedUnique(moved, OriginKey);
    SortedUniqueKeeps(moved, OriginKey);
    StrictlySortedDistinct(SortedUnique(moved, OriginKey), OriginKey);
    hide NewPosition, SortedUnique, StrictlySorted, CanonicalOrigins;
    forall n ensures n in moved <==> exists o :: o in rows.origins && MovedFrom(rows, o, n) {
      if o :| o in rows.origins && MovedFrom(rows, o, n) {
        var i :| 0 <= i < |rows.origins| && rows.origins[i] == o;
        assert moved[i] == n;
      }
      if n in moved {
        var i :| 0 <= i < |moved| && moved[i] == n;
        assert rows.origins[i] in rows.origins && MovedFrom(rows, rows.origins[i], n);
      }
    }
  }

  /** Each execution originates exactly the renamed results it originated before. */
  lemma OriginsKeepMeaning(rows: RunRows, p: nat, y: ResultId)
    requires ForeignKeys(rows)
    ensures Originates(Migrated(rows), p, y) <==> exists x :: Originates(rows, p, x) && Rename(x) == y
  {
    OriginsMoved(rows);
    var after := Migrated(rows);
    assert after.origins == CanonicalOrigins(rows);
    hide Migrated, CanonicalOrigins, NewPosition, Rename, FindResult, HasResult, HasExecution, NoDuplicates;
    if Originates(after, p, y) {
      var n :| n in after.origins && n.executionPosition == p && FindResult(after.results, n.resultPosition) == Some(y);
      var o :| o in rows.origins && MovedFrom(rows, o, n);
      PositionKeepsMeaning(rows, o.resultPosition);
      assert Originates(rows, p, FindResult(rows.results, o.resultPosition).value);
    }
    if x :| Originates(rows, p, x) && Rename(x) == y {
      var o :| o in rows.origins && o.executionPosition == p && FindResult(rows.results, o.resultPosition) == Some(x);
      PositionKeepsMeaning(rows, o.resultPosition);
      var n := OriginRow(NewPosition(rows, o.resultPosition), o.executionPosition);
      assert MovedFrom(rows, o, n) && n in after.origins;
    }
  }

  /** Each artifact keeps its data and execution, and its subject is the renamed one. */
  lemma ArtifactsKeepMeaning(rows: RunRows)
    requires ForeignKeys(rows) && StrictlySorted(rows.artifacts, ArtifactPositionKey)
    ensures var after := Migrated(rows);
            && |after.artifacts| == |rows.artifacts|
            && forall i | 0 <= i < |rows.artifacts| ::
                 var a, b := rows.artifacts[i], after.artifacts[i];
                 && b.position == a.position && b.executionPosition == a.executionPosition && b.file == a.file
                 && FindResult(rows.results, a.resultPosition).Some?
                 && FindResult(after.results, b.resultPosition) ==
                     Some(Rename(FindResult(rows.results, a.resultPosition).value))
  {
    SortRestores(rows.artifacts, rows.artifacts, ArtifactPositionKey);
    var after := Migrated(rows);
    assert |after.artifacts| == |rows.artifacts|;
    assert forall i | 0 <= i < |rows.artifacts| :: after.artifacts[i] == MovedArtifact(rows, rows.artifacts[i]);
    hide Migrated, NewPosition, Rename, FindResult, HasResult, HasExecution, StrictlySorted, SortedUnique;
    forall i | 0 <= i < |rows.artifacts|
      ensures FindResult(rows.results, rows.artifacts[i].resultPosition).Some?
      ensures FindResult(after.results, after.artifacts[i].resultPosition) ==
                Some(Rename(FindResult(rows.results, rows.artifacts[i].resultPosition).value))
    {
      assert rows.artifacts[i] in rows.artifacts;
      PositionKeepsMeaning(rows, rows.artifacts[i].resultPosition);
    }
  }

  /** The results that the links of p name. */
  function Produced(rows: RunRows, origins: seq<OriginRow>, p: nat): set<ResultId> {
    if origins == [] then {}
    else
      var before, o := Produced(rows, origins[..|origins| - 1], p), origins[|origins| - 1];
      var found := FindResult(rows.results, o.resultPosition);
      if o.executionPosition == p && found.Some? then before + {found.value} else before
  }

  lemma {:induction false} ProducedExact(rows: RunRows, origins: seq<OriginRow>, p: nat, x: ResultId)
    ensures x in Produced(rows, origins, p) <==>
              exists o :: o in origins && o.executionPosition == p
                  && FindResult(rows.results, o.resultPosition) == Some(x)
  {
    hide FindResult;
    if origins != [] {
      var before, last := origins[..|origins| - 1], origins[|origins| - 1];
      ProducedExact(rows, before, p, x);
      assert origins == before + [last];
      if o :| o in origins && o.executionPosition == p && FindResult(rows.results, o.resultPosition) == Some(x) {
        assert o in before || o == last;
      }
    }
  }

  /** Distinct links at distinct results count distinct results. */
  lemma {:induction false} CountIsSize(rows: RunRows, origins: seq<OriginRow>, p: nat)
    requires NoDuplicates(origins) && forall o | o in origins :: o.resultPosition < |rows.results|
    requires forall i | 0 <= i < |rows.results| :: FindResult(rows.results, i) == Some(rows.results[i].item)
    requires forall i, j | 0 <= i < j < |rows.results| :: rows.results[i].item != rows.results[j].item
    ensures CountAt(origins, p) == |Produced(rows, origins, p)|
  {
    hide FindResult;
    if origins != [] {
      var before, last := origins[..|origins| - 1], origins[|origins| - 1];
      assert forall o | o in before :: o in origins;
      CountIsSize(rows, before, p);
      assert last in origins && last !in before;
      var x := rows.results[last.resultPosition].item;
      if last.executionPosition == p {
        forall o | o in before && o.executionPosition == p
          ensures FindResult(rows.results, o.resultPosition) != Some(x)
        {
          assert o in origins && o != last;
        }
        ProducedExact(rows, before, p, x);
      }
    }
  }

  lemma NewLinksInRange(rows: RunRows)
    requires ForeignKeys(rows)
    ensures forall o | o in CanonicalOrigins(rows) :: o.resultPosition < |Migrated(rows).results|
    ensures forall o | o in CanonicalOrigins(rows) :: HasExecution(rows, o.executionPosition)
  {
    OriginsMoved(rows);
    hide Migrated, CanonicalOrigins, NewPosition, HasResult, HasExecution;
    forall n | n in CanonicalOrigins(rows)
      ensures n.resultPosition < |Migrated(rows).results| && HasExecution(rows, n.executionPosition)
    {
      var o :| o in rows.origins && MovedFrom(rows, o, n);
      PositionKeepsMeaning(rows, o.resultPosition);
    }
  }

  /** Every count is the number of distinct results the execution originates. */
  lemma CountsAreDistinctResults(rows: RunRows, i: nat)
    requires ForeignKeys(rows) && i < |rows.executions|
    ensures var after := Migrated(rows);
            var e := after.executions[i];
            && e == rows.executions[i].(resultCount := e.resultCount)
            && e.resultCount == |Produced(after, after.origins, e.position)|
            && forall x :: x in Produced(after, after.origins, e.position) <==> Originates(after, e.position, x)
  {
    var after := Migrated(rows);
    var e := after.executions[i];
    assert after.origins == CanonicalOrigins(rows) && e == Recounted(rows.executions[i], after.origins);
    OriginsMoved(rows);
    NewLinksInRange(rows);
    NewResultsFacts(rows);
    hide Migrated, CanonicalOrigins, FindResult, CountAt, Produced, NoDuplicates, ForeignKeys, MovedFrom;
    CountIsSize(after, after.origins, e.position);
    forall x ensures x in Produced(after, after.origins, e.position) <==> Originates(after, e.position, x) {
      ProducedExact(after, after.origins, e.position, x);
    }
  }

  lemma NewResultsFacts(rows: RunRows)
    ensures var results := Migrated(rows).results;
            && (forall i | 0 <= i < |results| ::
                  results[i].position == i && FindResult(results, i) == Some(results[i].item))
            && (forall i, j | 0 <= i < j < |results| :: results[i].item != results[j].item)
  {
    ResultsAreTheImage(rows);
    var results := Migrated(rows).results;
    StrictlySortedDistinct(Items(results), ResultKey);
    hide Migrated, StrictlySorted, FindResult;
    forall i | 0 <= i < |results| ensures FindResult(results, i) == Some(results[i].item) { FoundAtIndex(results, i); }
    forall i, j | 0 <= i < j < |results| ensures results[i].item != results[j].item {
      assert Items(results)[i] != Items(results)[j];
    }
  }

  /** No renamed kind is itself an alias: after the migration none remains. */
  lemma NoAliasRemains(rows: RunRows)
    ensures !Aliased(Migrated(rows))
  {
    ResultsAreTheImage(rows);
    var results := Migrated(rows).results;
    forall i | 0 <= i < |results| ensures results[i].item.kind !in RENAMES {
      assert Items(results)[i] in Items(results);
    }
  }

  lemma MigratedPrimaryKeys(rows: RunRows)
    requires PrimaryKeys(rows) && StrictlySorted(rows.artifacts, ArtifactPositionKey)
    ensures PrimaryKeys(Migrated(rows)) && UniqueResults(Migrated(rows))
  {
    OriginsMoved(rows);
    NewResultsFacts(rows);
    SortRestores(rows.artifacts, rows.artifacts, ArtifactPositionKey);
    hide CanonicalOrigins, SortedUnique, StrictlySorted, NewPosition, CanonicalResults, CountAt, FindResult;
  }

  predicate UniqueResults(rows: RunRows) {
    forall i, j | 0 <= i < j < |rows.results| :: rows.results[i].item != rows.results[j].item
  }

  lemma NewPositionsExist(rows: RunRows)
    ensures forall p: nat | p < |Migrated(rows).results| :: HasResult(Migrated(rows), p)
    ensures forall p | HasExecution(rows, p) :: HasExecution(Migrated(rows), p)
  {
    hide CanonicalOrigins, MovedArtifacts, CanonicalResults, CountAt;
    var after := Migrated(rows);
    forall p: nat | p < |after.results| ensures HasResult(after, p) { assert after.results[p].position == p; }
    forall p | HasExecution(rows, p) ensures HasExecution(after, p) {
      var i :| 0 <= i < |rows.executions| && rows.executions[i].position == p;
      assert after.executions[i].position == p;
    }
  }

  lemma ArtifactsInRange(rows: RunRows)
    requires ForeignKeys(rows) && StrictlySorted(rows.artifacts, ArtifactPositionKey)
    ensures forall a | a in MovedArtifacts(rows) ::
              a.resultPosition < |Migrated(rows).results| && HasExecution(rows, a.executionPosition)
  {
    SortRestores(rows.artifacts, rows.artifacts, ArtifactPositionKey);
    var moved := MovedArtifacts(rows);
    assert |moved| == |rows.artifacts|
        && forall i | 0 <= i < |moved| :: moved[i] == MovedArtifact(rows, rows.artifacts[i]);
    hide Migrated, MovedArtifacts, HasResult, HasExecution, NewPosition, FindResult, SortedUnique, StrictlySorted;
    forall a | a in moved
      ensures a.resultPosition < |Migrated(rows).results| && HasExecution(rows, a.executionPosition)
    {
      var i :| 0 <= i < |moved| && moved[i] == a;
      assert rows.artifacts[i] in rows.artifacts;
      PositionKeepsMeaning(rows, rows.artifacts[i].resultPosition);
    }
  }

  /** The attributions' positions, which the migration does not touch, still exist. */
  predicate AttributionsInRange(rows: RunRows) {
    forall a | a in rows.attributions ::
      a.asnPosition < |CanonicalResults(rows.results)| && a.subjectPosition < |CanonicalResults(rows.results)|
  }

  lemma MigratedForeignKeys(rows: RunRows)
    requires ForeignKeys(rows) && StrictlySorted(rows.artifacts, ArtifactPositionKey)
    ensures ForeignKeys(Migrated(rows)) <==> AttributionsInRange(rows)
  {
    var after := Migrated(rows);
    assert after.origins == CanonicalOrigins(rows) && after.artifacts == MovedArtifacts(rows);
    assert after.attributions == rows.attributions && |after.results| == |CanonicalResults(rows.results)|;
    NewLinksInRange(rows);
    ArtifactsInRange(rows);
    NewPositionsExist(rows);
    NewPositionsOnly(rows);
    hide Migrated, CanonicalOrigins, MovedArtifacts, HasResult, HasExecution, StrictlySorted, CanonicalResults;
  }

  lemma NewPositionsOnly(rows: RunRows)
    ensures forall p: nat | HasResult(Migrated(rows), p) :: p < |Migrated(rows).results|
  {
    hide CanonicalOrigins, MovedArtifacts, CanonicalResults, CountAt;
  }

  /** A run that met the constraints still meets them exactly when the positions of its
      attributions still exist, in particular when it has none. */
  lemma MigratedMeetsConstraints(rows: RunRows)
    requires Constraints(rows) && StrictlySorted(rows.artifacts, ArtifactPositionKey)
    ensures Constraints(Migrated(rows)) <==> AttributionsInRange(rows)
  {
    MigratedPrimaryKeys(rows);
    MigratedForeignKeys(rows);
    MigratedChecks(rows);
    assert UniqueKeys(Migrated(rows)) by { MigratedUniqueKeys(rows); }
    hide PrimaryKeys, UniqueKeys, ForeignKeys, Checks, Migrated, AttributionsInRange, StrictlySorted;
  }

  lemma MigratedChecks(rows: RunRows)
    requires Checks(rows) && StrictlySorted(rows.artifacts, ArtifactPositionKey)
    ensures Checks(Migrated(rows))
  {
    SortRestores(rows.artifacts, rows.artifacts, ArtifactPositionKey);
    hide CanonicalOrigins, SortedUnique, StrictlySorted, NewPosition, NewResults, CountAt, ValidSha256;
  }

  lemma MigratedUniqueKeys(rows: RunRows)
    requires UniqueKeys(rows)
    ensures UniqueKeys(Migrated(rows))
  {
    NewResultsFacts(rows);
    hide CanonicalOrigins, MovedArtifacts, NewResults, CountAt, FindResult;
  }

  /** A position that is not remapped, as those of attributions are not, leads to the renamed
      result exactly when that result's place did not change. */
  lemma UntouchedPositionKeepsMeaningIff(rows: RunRows, p: nat, x: ResultId)
    requires FindResult(rows.results, p) == Some(x)
    ensures FindResult(Migrated(rows).results, p) == Some(Rename(x)) <==> NewPosition(rows, p) == p
  {
    FoundResultAt(rows.results, p);
    PositionKeepsMeaning(rows, p);
    NewResultsFacts(rows);
    var results, n := Migrated(rows).results, NewPosition(rows, p);
    hide Migrated, NewPosition, Rename;
    if FindResult(results, p) == Some(Rename(x)) {
      FoundResultAt(results, p);
      var i :| 0 <= i < |results| && results[i].position == p && results[i].item == Rename(x);
      assert i == p;
    }
  }

  lemma {:induction false} FoundResultAt(rows: seq<ResultRow>, p: nat)
    requires FindResult(rows, p).Some?
    ensures exists i :: 0 <= i < |rows| && rows[i].position == p && rows[i].item == FindResult(rows, p).value
  {
    if rows[|rows| - 1].position != p { FoundResultAt(rows[..|rows| - 1], p); }
  }

  // ---- the tables ----

  /** DELETE FROM table WHERE run_id = ?. */
  function Without<T>(table: seq<Tagged<T>>, runId: string): seq<Tagged<T>> {
    if table == [] then []
    else
      var before, last := Without(table[..|table| - 1], runId), table[|table| - 1];
      if last.runId == runId then before else before + [last]
  }

  lemma {:induction false} OfWithout<T>(table: seq<Tagged<T>>, runId: string, asked: string)
    ensures Of(Without(table, runId), asked) == if asked == runId then [] else Of(table, asked)
  {
    if table != [] { OfWithout(table[..|table| - 1], runId, asked); }
  }

  /** Deleting a run's rows and inserting others replaces them and no others. */
  lemma OfReplaced<T>(table: seq<Tagged<T>>, runId: string, rows: seq<T>, asked: string)
    ensures Of(Without(table, runId) + Tag(runId, rows), asked) == if asked == runId then rows else Of(table, asked)
  {
    OfWithout(table, runId, asked);
    OfInserted(Without(table, runId), runId, rows, asked);
    hide Of, Without, Tag;
    if asked == runId { assert [] + rows == rows; }
  }

  /** UPDATE executions SET result_count = (SELECT COUNT(*) ...) WHERE run_id = ?. */
  function RecountTable(table: seq<Tagged<ExecutionRow>>, runId: string,
      origins: seq<OriginRow>): seq<Tagged<ExecutionRow>> {
    seq(|table|, i requires 0 <= i < |table| =>
      if table[i].runId == runId then Tagged(runId, Recounted(table[i].row, origins)) else table[i])
  }

  lemma {:induction false} OfRecounted(table: seq<Tagged<ExecutionRow>>, runId: string, origins: seq<OriginRow>,
      asked: string)
    ensures var rows := Of(table, asked);
            Of(RecountTable(table, runId, origins), asked) ==
              if asked == runId then seq(|rows|, i requires 0 <= i < |rows| => Recounted(rows[i], origins)) else rows
  {
    hide CountAt;
    if table != [] {
      var n := |table| - 1;
      OfRecounted(table[..n], runId, origins, asked);
      assert RecountTable(table, runId, origins)[..n] == RecountTable(table[..n], runId, origins);
    }
  }

  /** The rows of one run as the migration reads them, in table order. */
  function Raw(t: Tables, runId: string): RunRows
    requires runId in t.runs
  {
    RunRows(t.runs[runId], Of(t.results, runId), Of(t.executions, runId), Of(t.origins, runId),
            Of(t.artifacts, runId), Of(t.attributions, runId))
  }

  function Replaced(t: Tables, runId: string): Tables
    requires runId in t.runs
  {
    var rows := Raw(t, runId);
    var origins := CanonicalOrigins(rows);
    t.(results := Without(t.results, runId) + Tag(runId, NewResults(rows)),
       origins := Without(t.origins, runId) + Tag(runId, origins),
       artifacts := Without(t.artifacts, runId) + Tag(runId, MovedArtifacts(rows)),
       executions := RecountTable(t.executions, runId, origins))
  }

  /** Rebuilding one run migrates its rows and touches no other run's. */
  lemma ReplacedReads(t: Tables, runId: string, asked: string)
    requires runId in t.runs && asked in t.runs
    ensures Raw(Replaced(t, runId), asked) == if asked == runId then Migrated(Raw(t, runId)) else Raw(t, asked)
  {
    var rows := Raw(t, runId);
    var origins := CanonicalOrigins(rows);
    OfReplaced(t.results, runId, NewResults(rows), asked);
    OfReplaced(t.origins, runId, origins, asked);
    OfReplaced(t.artifacts, runId, MovedArtifacts(rows), asked);
    OfRecounted(t.executions, runId, origins, asked);
    hide Of, Without, Tag, RecountTable, NewResults, CanonicalOrigins, MovedArtifacts;
  }

  /** What the migration makes of a run's rows. */
  function After(rows: RunRows): RunRows { if Aliased(rows) then Migrated(rows) else rows }

  /** Applying it twice is applying it once. */
  lemma ReapplyingChangesNothing(rows: RunRows)
    ensures After(After(rows)) == After(rows)
  {
    NoAliasRemains(rows);
    hide Migrated, Aliased;
  }

  lemma {:induction false} OfHolds<T>(table: seq<Tagged<T>>, i: nat)
    requires i < |table|
    ensures table[i].row in Of(table, table[i].runId)
  {
    if i < |table| - 1 { OfHolds(table[..|table| - 1], i); }
  }

  lemma {:induction false} OfComes<T>(table: seq<Tagged<T>>, runId: string, row: T)
    requires row in Of(table, runId)
    ensures exists i :: 0 <= i < |table| && table[i] == Tagged(runId, row)
  {
    var before, last := table[..|table| - 1], table[|table| - 1];
    if row in Of(before, runId) {
      OfComes(before, runId, row);
      var i :| 0 <= i < |before| && before[i] == Tagged(runId, row);
      assert table[i] == before[i];
    } else {
      assert table[|table| - 1] == Tagged(runId, row);
    }
  }

  /** SELECT DISTINCT run_id FROM results WHERE kind IN (aliases). */
  function AliasedRuns(results: seq<Tagged<ResultRow>>): set<string> {
    set t | t in results && t.row.item.kind in RENAMES :: t.runId
  }

  lemma AliasedRunsExact(t: Tables, runId: string)
    requires runId in t.runs
    ensures runId in AliasedRuns(t.results) <==> Aliased(Raw(t, runId))
  {
    if runId in AliasedRuns(t.results) {
      var row :| row in t.results && row.row.item.kind in RENAMES && row.runId == runId;
      var i :| 0 <= i < |t.results| && t.results[i] == row;
      OfHolds(t.results, i);
      var j :| 0 <= j < |Of(t.results, runId)| && Of(t.results, runId)[j] == row.row;
    }
    if Aliased(Raw(t, runId)) {
      var j :| 0 <= j < |Of(t.results, runId)| && Of(t.results, runId)[j].item.kind in RENAMES;
      OfComes(t.results, runId, Of(t.results, runId)[j]);
    }
  }

  /** Every run's rows become what the migration makes of them; runs without an alias are
      not touched.  Legacy observations keep everything but a renamed kind. */
  method CanonicalizeResultKinds(store: ResultStore, legacy: array<LegacyObservation>)
    requires Owned(store.Contents())
    modifies store, legacy
    ensures store.runs == old(store.runs) && store.attributions == old(store.attributions)
    ensures forall id | id in store.runs :: Raw(store.Contents(), id) == After(old(Raw(store.Contents(), id)))
    ensures forall i | 0 <= i < legacy.Length :: legacy[i] == old(legacy[i]).(kind := RenamedKind(old(legacy[i]).kind))
  {
    MigrateRuns(store);
    RenameLegacyKinds(legacy);
  }

  method MigrateRuns(store: ResultStore)
    requires Owned(store.Contents())
    modifies store
    ensures store.runs == old(store.runs) && store.attributions == old(store.attributions)
    ensures forall id | id in store.runs :: Raw(store.Contents(), id) == After(old(Raw(store.Contents(), id)))
  {
    hide Raw, Replaced, Migrated, Aliased, AliasedRuns;
    ghost var before := store.Contents();
    var todo := AliasedRuns(store.results);
    forall id | id in before.runs ensures id in todo <==> Aliased(Raw(before, id)) { AliasedRunsExact(before, id); }
    AliasedRunsOwned(before);
    ghost var aliased := todo;
    while todo != {}
      invariant todo <= aliased <= before.runs.Keys
      invariant store.runs == before.runs && store.attributions == before.attributions
      invariant forall id | id in before.runs ::
                  Raw(store.Contents(), id) ==
                    if id in aliased && id !in todo then Migrated(Raw(before, id)) else Raw(before, id)
      decreases |todo|
    {
      var runId :| runId in todo;
      ghost var current := store.Contents();
      forall id | id in before.runs { ReplacedReads(current, runId, id); }
      Rebuild(store, runId);
      todo := todo - {runId};
    }
  }

  lemma NoTargetIsAlias()
    ensures forall alias | alias in RENAMES :: RENAMES[alias] !in RENAMES
  {
  }

  method RenameLegacyKinds(legacy: array<LegacyObservation>)
    modifies legacy
    ensures forall i | 0 <= i < legacy.Length :: legacy[i] == old(legacy[i]).(kind := RenamedKind(old(legacy[i]).kind))
  {
    NoTargetIsAlias();
    UpdateKinds(legacy, RENAMES);
  }

  /** One UPDATE for each alias, in any order: no update undoes or extends another. */
  method UpdateKinds(legacy: array<LegacyObservation>, renames: map<string, string>)
    requires forall alias | alias in renames :: renames[alias] !in renames
    modifies legacy
    ensures forall i | 0 <= i < legacy.Length ::
              legacy[i] == var o := old(legacy[i]); if o.kind in renames then o.(kind := renames[o.kind]) else o
  {
    ghost var done: set<string> := {};
    var todo := renames.Keys;
    while todo != {}
      invariant done + todo == renames.Keys && done !! todo
      invariant forall i | 0 <= i < legacy.Length ::
                  legacy[i] == var o := old(legacy[i]); if o.kind in done then o.(kind := renames[o.kind]) else o
      decreases |todo|
    {
      var alias :| alias in todo;
      UpdateKind(legacy, alias, renames[alias]);
      todo, done := todo - {alias}, done + {alias};
    }
  }

  /** UPDATE legacy_observations SET kind = ? WHERE kind = ?. */
  method UpdateKind(legacy: array<LegacyObservation>, alias: string, canonical: string)
    modifies legacy
    ensures forall i | 0 <= i < legacy.Length ::
              legacy[i] == if old(legacy[i]).kind == alias then old(legacy[i]).(kind := canonical) else old(legacy[i])
  {
    for i := 0 to legacy.Length
      invariant forall k | 0 <= k < i ::
                  legacy[k] == if old(legacy[k]).kind == alias then old(legacy[k]).(kind := canonical)
                      else old(legacy[k])
      invariant forall k | i <= k < legacy.Length :: legacy[k] == old(legacy[k])
    {
      if legacy[i].kind == alias { legacy[i] := legacy[i].(kind := canonical); }
    }
  }

  lemma AliasedRunsOwned(t: Tables)
    requires Owned(t)
    ensures AliasedRuns(t.results) <= t.runs.Keys
  {
  }

  /** Rebuild one run: read its rows, delete them, insert the canonical ones, recount. */
  method Rebuild(store: ResultStore, runId: string)
    requires runId in store.runs
    modifies store
    ensures store.Contents() == Replaced(old(store.Contents()), runId)
    ensures store.runs == old(store.runs) && store.attributions == old(store.attributions)
  {
    hide Of, NewResults, CanonicalOrigins, MovedArtifacts, Without, Tag, RecountTable;
    var rows := Raw(store.Contents(), runId);
    var origins := CanonicalOrigins(rows);
    var artifacts := MovedArtifacts(rows);
    store.artifacts := Without(store.artifacts, runId);
    store.origins := Without(store.origins, runId);
    store.results := Without(store.results, runId);
    store.results := store.results + Tag(runId, NewResults(rows));
    store.origins := store.origins + Tag(runId, origins);
    store.artifacts := store.artifacts + Tag(runId, artifacts);
    store.executions := RecountTable(store.executions, runId, origins);
  }
}
