/** The result store: one object owning the tables, saving and loading completed runs. */
module EvidenceStore {
  import opened Wrappers
  import opened Ordering
  import opened Texts
  import opened EvidenceModel
  import opened EvidenceRows
  import opened EvidenceConstraints
  import opened EvidenceLoad
  import opened EvidenceDetails
  import opened EvidenceRoundTrip

  /** A row of a table that holds every run's rows. */
  datatype Tagged<+T> = Tagged(runId: string, row: T)

  /** SELECT ... WHERE run_id = ?, in the order the rows were inserted. */
  function Of<T>(table: seq<Tagged<T>>, runId: string): seq<T> {
    if table == [] then []
    else
      var before, last := Of(table[..|table| - 1], runId), table[|table| - 1];
      if last.runId == runId then before + [last.row] else before
  }

  function Tag<T>(runId: string, rows: seq<T>): seq<Tagged<T>> {
    seq(|rows|, i requires 0 <= i < |rows| => Tagged(runId, rows[i]))
  }

  lemma {:induction false} OfInserted<T>(table: seq<Tagged<T>>, runId: string, rows: seq<T>, asked: string)
    ensures Of(table + Tag(runId, rows), asked) == if asked == runId then Of(table, asked) + rows else Of(table, asked)
  {
    if rows == [] {
      assert table + Tag(runId, rows) == table;
    } else {
      var n := |rows| - 1;
      var all := table + Tag(runId, rows);
      OfInserted(table, runId, rows[..n], asked);
      assert all[..|all| - 1] == table + Tag(runId, rows[..n]);
      assert rows == rows[..n] + [rows[n]];
    }
  }

  lemma {:induction false} OfAbsent<T>(table: seq<Tagged<T>>, runId: string)
    requires forall t | t in table :: t.runId != runId
    ensures Of(table, runId) == []
  {
    if table != [] { OfAbsent(table[..|table| - 1], runId); }
  }

  function ResultPositionKey(row: ResultRow): Key { [Num(row.position)] }

  function ExecutionPositionKey(row: ExecutionRow): Key { [Num(row.position)] }

  function ArtifactPositionKey(row: ArtifactRow): Key { [Num(row.position)] }

  function AttributionPositionKey(row: AttributionRow): Key { [Num(row.position)] }

  datatype Tables = Tables(
    runs: map<string, RunRow>, results: seq<Tagged<ResultRow>>, executions: seq<Tagged<ExecutionRow>>,
    origins: seq<Tagged<OriginRow>>, artifacts: seq<Tagged<ArtifactRow>>, attributions: seq<Tagged<AttributionRow>>)

  /** The rows of one run, ordered by position where loading asks for it. */
  function Select(t: Tables, runId: string): RunRows
    requires runId in t.runs
  {
    RunRows(t.runs[runId],
            SortedUnique(Of(t.results, runId), ResultPositionKey),
            SortedUnique(Of(t.executions, runId), ExecutionPositionKey),
            Of(t.origins, runId),
            SortedUnique(Of(t.artifacts, runId), ArtifactPositionKey),
            SortedUnique(Of(t.attributions, runId), AttributionPositionKey))
  }

  ghost predicate Belongs<T>(table: seq<Tagged<T>>, runs: map<string, RunRow>) {
    forall i | 0 <= i < |table| :: table[i].runId in runs
  }

  /** Every row belongs to a run. */
  ghost predicate Owned(t: Tables) {
    Belongs(t.results, t.runs) && Belongs(t.executions, t.runs) && Belongs(t.origins, t.runs)
    && Belongs(t.artifacts, t.runs) && Belongs(t.attributions, t.runs)
  }

  /** Every row belongs to a run and the declared constraints hold of every run. */
  ghost predicate IsConsistent(t: Tables) {
    Owned(t) && forall id | id in t.runs :: t.runs[id].runId == id && Constraints(Select(t, id))
  }

  /** The tables with the rows of one more run. */
  function Inserted(t: Tables, runId: string, rows: RunRows): Tables {
    Tables(t.runs[runId := rows.run], t.results + Tag(runId, rows.results), t.executions + Tag(runId, rows.executions),
           t.origins + Tag(runId, rows.origins), t.artifacts + Tag(runId, rows.artifacts),
           t.attributions + Tag(runId, rows.attributions))
  }

  lemma TableInserted<T>(table: seq<Tagged<T>>, runs: map<string, RunRow>, runId: string, rows: seq<T>, asked: string)
    requires Belongs(table, runs) && runId !in runs
    ensures Of(table + Tag(runId, rows), asked) == if asked == runId then rows else Of(table, asked)
  {
    OfInserted(table, runId, rows, asked);
    if asked == runId {
      OfAbsent(table, asked);
      assert [] + rows == rows;
    }
  }

  lemma BelongsInserted<T>(table: seq<Tagged<T>>, runs: map<string, RunRow>, runId: string, rows: seq<T>, run: RunRow)
    requires Belongs(table, runs)
    ensures Belongs(table + Tag(runId, rows), runs[runId := run])
  {
  }

  predicate PositionOrdered(rows: RunRows) {
    && SortedUnique(rows.results, ResultPositionKey) == rows.results
    && SortedUnique(rows.executions, ExecutionPositionKey) == rows.executions
    && SortedUnique(rows.artifacts, ArtifactPositionKey) == rows.artifacts
    && SortedUnique(rows.attributions, AttributionPositionKey) == rows.attributions
  }

  /** Inserting a fresh run's rows makes them readable and changes no other read. */
  lemma SelectInserted(t: Tables, runId: string, rows: RunRows, asked: string)
    requires Owned(t) && runId !in t.runs && PositionOrdered(rows)
    requires asked in t.runs || asked == runId
    ensures Select(Inserted(t, runId, rows), asked) == if asked == runId then rows else Select(t, asked)
  {
    TableInserted(t.results, t.runs, runId, rows.results, asked);
    TableInserted(t.executions, t.runs, runId, rows.executions, asked);
    TableInserted(t.origins, t.runs, runId, rows.origins, asked);
    TableInserted(t.artifacts, t.runs, runId, rows.artifacts, asked);
    TableInserted(t.attributions, t.runs, runId, rows.attributions, asked);
    hide Of, Tag, SortedUnique, Belongs;
  }

  lemma InsertedConsistent(t: Tables, runId: string, rows: RunRows)
    requires IsConsistent(t) && runId !in t.runs && PositionOrdered(rows)
    requires rows.run.runId == runId && Constraints(rows)
    ensures IsConsistent(Inserted(t, runId, rows))
  {
    BelongsInserted(t.results, t.runs, runId, rows.results, rows.run);
    BelongsInserted(t.executions, t.runs, runId, rows.executions, rows.run);
    BelongsInserted(t.origins, t.runs, runId, rows.origins, rows.run);
    BelongsInserted(t.artifacts, t.runs, runId, rows.artifacts, rows.run);
    BelongsInserted(t.attributions, t.runs, runId, rows.attributions, rows.run);
    hide Tag, Constraints, Select, Belongs, PositionOrdered;
    var after := Inserted(t, runId, rows);
    forall id | id in after.runs ensures after.runs[id].runId == id && Constraints(Select(after, id)) {
      SelectInserted(t, runId, rows, id);
    }
  }

  /** Rows written in position order come back in position order. */
  lemma InPositionOrder(rules: Rules, r: CompletedResult)
    requires Resolvable(r)
    ensures PositionOrdered(RowsOf(rules, r)) && RowsOf(rules, r).run.runId == r.runId
  {
    var rows := RowsOf(rules, r);
    PositionsAscend(rules, r);
    assert rows.run.runId == r.runId;
    hide RowsOf, Resolvable, SortedUnique, StrictlySorted;
    SortRestores(rows.results, rows.results, ResultPositionKey);
    SortRestores(rows.executions, rows.executions, ExecutionPositionKey);
    SortRestores(rows.artifacts, rows.artifacts, ArtifactPositionKey);
    SortRestores(rows.attributions, rows.attributions, AttributionPositionKey);
  }

  lemma PositionsAscend(rules: Rules, r: CompletedResult)
    requires Resolvable(r)
    ensures var rows := RowsOf(rules, r);
            && StrictlySorted(rows.results, ResultPositionKey)
            && StrictlySorted(rows.executions, ExecutionPositionKey)
            && StrictlySorted(rows.artifacts, ArtifactPositionKey)
            && StrictlySorted(rows.attributions, AttributionPositionKey)
  {
    ArtifactRowsFacts(r, |r.actions|);
    hide Resolvable, DetailsOf, ArtifactRows, Producers;
  }

  lemma OwnedWhenConsistent(t: Tables)
    requires IsConsistent(t)
    ensures Owned(t)
  {
  }

  // ---- loading stops at the first error ----

  lemma {:induction false} RowsErrStays(rules: Rules, rows: seq<ResultRow>, vhostResults: set<nat>, k: nat)
    requires k <= |rows| && ReadRows(rules, rows[..k], vhostResults).Err?
    ensures ReadRows(rules, rows, vhostResults) == ReadRows(rules, rows[..k], vhostResults)
  {
    hide ReadRow;
    if k == |rows| {
      assert rows[..k] == rows;
    } else {
      assert rows[..|rows| - 1][..k] == rows[..k];
      RowsErrStays(rules, rows[..|rows| - 1], vhostResults, k);
    }
  }

  lemma {:induction false} OriginsErrStays(rules: Rules, rows: RunRows, os: seq<OriginRow>, k: nat)
    requires k <= |os| && ReadOrigins(rules, rows, os[..k]).Err?
    ensures ReadOrigins(rules, rows, os) == ReadOrigins(rules, rows, os[..k])
  {
    hide ReadOrigin;
    if k == |os| {
      assert os[..k] == os;
    } else {
      assert os[..|os| - 1][..k] == os[..k];
      OriginsErrStays(rules, rows, os[..|os| - 1], k);
    }
  }

  lemma {:induction false} ArtifactsErrStays(rows: RunRows, artifacts: seq<ArtifactRow>, k: nat)
    requires k <= |artifacts| && ReadArtifacts(rows, artifacts[..k]).Err?
    ensures ReadArtifacts(rows, artifacts) == ReadArtifacts(rows, artifacts[..k])
  {
    hide ReadArtifact;
    if k == |artifacts| {
      assert artifacts[..k] == artifacts;
    } else {
      assert artifacts[..|artifacts| - 1][..k] == artifacts[..k];
      ArtifactsErrStays(rows, artifacts[..|artifacts| - 1], k);
    }
  }

  lemma {:induction false} ActionsErrStays(
      executions: seq<ExecutionRow>, found: map<nat, seq<ResultId>>, made: map<nat, seq<Artifact>>, k: nat)
    requires k <= |executions| && ReadActions(executions[..k], found, made).Err?
    ensures ReadActions(executions, found, made) == ReadActions(executions[..k], found, made)
  {
    hide ReadAction;
    if k == |executions| {
      assert executions[..k] == executions;
    } else {
      assert executions[..|executions| - 1][..k] == executions[..k];
      ActionsErrStays(executions[..|executions| - 1], found, made, k);
    }
  }

  lemma {:induction false} AttributionsErrStays(rules: Rules, rows: RunRows, attributions: seq<AttributionRow>, k: nat)
    requires k <= |attributions| && ReadAttributions(rules, rows, attributions[..k]).Err?
    ensures ReadAttributions(rules, rows, attributions) == ReadAttributions(rules, rows, attributions[..k])
  {
    hide ReadAttribution;
    if k == |attributions| {
      assert attributions[..k] == attributions;
    } else {
      assert attributions[..|attributions| - 1][..k] == attributions[..k];
      AttributionsErrStays(rules, rows, attributions[..|attributions| - 1], k);
    }
  }

  // ---- the loops of load_run ----

  method LoadStructured(rules: Rules, rows: seq<ResultRow>, vhostResults: set<nat>) returns (r: Result<Structured>)
    ensures r == ReadRows(rules, rows, vhostResults)
  {
    hide ReadRow;
    var hosts, network, shodan, takeovers := [], [], [], [];
    for i := 0 to |rows|
      invariant ReadRows(rules, rows[..i], vhostResults) == Ok(Structured(hosts, network, shodan, takeovers))
    {
      assert rows[..i + 1][..i] == rows[..i];
      var part := ReadRow(rules, rows[i], rows[i].position in vhostResults);
      if part.Err? {
        RowsErrStays(rules, rows, vhostResults, i + 1);
        return Err(part.error);
      }
      hosts := hosts + part.value.hosts;
      network := network + part.value.network;
      shodan := shodan + part.value.shodan;
      takeovers := takeovers + part.value.takeovers;
    }
    assert rows[..|rows|] == rows;
    return Ok(Structured(hosts, network, shodan, takeovers));
  }

  method LoadOrigins(rules: Rules, rows: RunRows) returns (r: Result<Links>)
    ensures r == ReadOrigins(rules, rows, rows.origins)
  {
    var os := rows.origins;
    var bySource, byAction: map<nat, seq<ResultId>> := [], map[];
    for i := 0 to |os|
      invariant ReadOrigins(rules, rows, os[..i]) == Ok(Links(bySource, byAction))
    {
      assert os[..i + 1][..i] == os[..i];
      var producer := FindProducer(rows.executions, os[i].executionPosition);
      var item := FindResult(rows.results, os[i].resultPosition);
      var failure: Option<StoreError> := None;
      if producer.None? || item.None? {
        failure := Some(DanglingReference);
      } else {
        var x := Observe(rules, item.value);
        if x.None? {
          failure := Some(InvalidValue);
        } else if producer.value.kind == "source" {
          if NonBlank(producer.value.name) {
            bySource := bySource + [ResultObservation(producer.value.name, x.value)];
          } else {
            failure := Some(InvalidValue);
          }
        } else if x.value.kind == "screenshot" {
          failure := Some(InvalidValue);
        } else {
          var p := os[i].executionPosition;
          byAction := byAction[p := At(byAction, p) + [x.value]];
        }
      }
      if failure.Some? {
        OriginsErrStays(rules, rows, os, i + 1);
        return Err(failure.value);
      }
    }
    assert os[..|os|] == os;
    return Ok(Links(bySource, byAction));
  }

  method LoadArtifacts(rows: RunRows) returns (r: Result<map<nat, seq<Artifact>>>)
    ensures r == ReadArtifacts(rows, rows.artifacts)
  {
    hide SoundArtifact;
    var files := rows.artifacts;
    var made: map<nat, seq<Artifact>> := map[];
    for i := 0 to |files|
      invariant ReadArtifacts(rows, files[..i]) == Ok(made)
    {
      assert files[..i + 1][..i] == files[..i];
      var p := files[i].executionPosition;
      var producer := FindProducer(rows.executions, p);
      if producer.None? {
        ArtifactsErrStays(rows, files, i + 1);
        return Err(DanglingReference);
      }
      if producer.value.kind != "action" {
        ArtifactsErrStays(rows, files, i + 1);
        return Err(ArtifactWithoutAction);
      }
      var subject := FindResult(rows.results, files[i].resultPosition);
      if subject.None? {
        ArtifactsErrStays(rows, files, i + 1);
        return Err(DanglingReference);
      }
      var artifact := Artifact(subject.value, files[i].file);
      if !SoundArtifact(artifact) {
        ArtifactsErrStays(rows, files, i + 1);
        return Err(InvalidValue);
      }
      made := made[p := At(made, p) + [artifact]];
    }
    assert files[..|files|] == files;
    return Ok(made);
  }

  method LoadActions(executions: seq<ExecutionRow>, found: map<nat, seq<ResultId>>, made: map<nat, seq<Artifact>>)
    returns (r: Result<seq<ActionExecution>>)
    ensures r == ReadActions(executions, found, made)
  {
    hide ReadAction;
    var actions := [];
    for i := 0 to |executions|
      invariant ReadActions(executions[..i], found, made) == Ok(actions)
    {
      assert executions[..i + 1][..i] == executions[..i];
      var e := executions[i];
      if e.producer.kind == "action" {
        var action := ReadAction(e, Sorted(At(found, e.position), ResultKey),
            Sorted(At(made, e.position), ArtifactKey));
        if action.Err? {
          ActionsErrStays(executions, found, made, i + 1);
          return Err(action.error);
        }
        actions := actions + [action.value];
      }
    }
    assert executions[..|executions|] == executions;
    return Ok(actions);
  }

  method LoadAttributions(rules: Rules, rows: RunRows) returns (r: Result<seq<Attribution>>)
    ensures r == ReadAttributions(rules, rows, rows.attributions)
  {
    hide ReadAttribution;
    var read := [];
    for i := 0 to |rows.attributions|
      invariant ReadAttributions(rules, rows, rows.attributions[..i]) == Ok(read)
    {
      assert rows.attributions[..i + 1][..i] == rows.attributions[..i];
      var a := ReadAttribution(rules, rows, rows.attributions[i]);
      if a.Err? {
        AttributionsErrStays(rules, rows, rows.attributions, i + 1);
        return Err(a.error);
      }
      read := read + [a.value];
    }
    assert rows.attributions[..|rows.attributions|] == rows.attributions;
    return Ok(read);
  }

  // ---- the store ----

  class ResultStore {
    const rules: Rules
    var runs: map<string, RunRow>
    var results: seq<Tagged<ResultRow>>
    var executions: seq<Tagged<ExecutionRow>>
    var origins: seq<Tagged<OriginRow>>
    var artifacts: seq<Tagged<ArtifactRow>>
    var attributions: seq<Tagged<AttributionRow>>

    constructor (rules: Rules)
      ensures this.rules == rules && runs == map[] && Consistent()
    {
      this.rules := rules;
      runs, results, executions, origins, artifacts, attributions := map[], [], [], [], [], [];
    }

    function Contents(): Tables
      reads this
    {
      Tables(runs, results, executions, origins, artifacts, attributions)
    }

    ghost predicate Consistent()
      reads this
    {
      IsConsistent(Contents())
    }

    function Rows(runId: string): RunRows
      requires runId in runs
      reads this
    {
      Select(Contents(), runId)
    }

    /** All or nothing: a known run id or oversized details leave every table as it was;
        otherwise the run's rows are all there, no other run's rows change, and every
        constraint still holds. */
    method SaveRun(r: CompletedResult) returns (failure: Option<StoreError>)
      requires Consistent() && Valid(rules, r)
      modifies this
      ensures Consistent()
      ensures failure == if r.runId in old(runs) then Some(DuplicateRun)
                         else if !Fits(rules, r) then Some(DetailsTooLarge) else None
      ensures failure.Some? ==> Contents() == old(Contents())
      ensures failure.None? ==>
                && Resolvable(r)
                && runs.Keys == old(runs.Keys) + {r.runId}
                && Rows(r.runId) == RowsOf(rules, r)
                && forall id | id in old(runs) :: Rows(id) == old(Rows(id))
    {
      hide Valid, Encodable, Fits, Resolvable, RowsOf, Constraints, Select, Tag, IsConsistent, PositionOrdered;
      if r.runId in runs { return Some(DuplicateRun); }
      EncodableIffFits(rules, r);
      if !Encodable(rules, r) { return Some(DetailsTooLarge); }
      RowsMeetConstraints(rules, r);
      var rows := RowsOf(rules, r);
      ghost var before := Contents();
      InPositionOrder(rules, r);
      OwnedWhenConsistent(before);
      InsertedConsistent(before, r.runId, rows);
      forall asked | asked in runs || asked == r.runId { SelectInserted(before, r.runId, rows, asked); }
      runs := runs[r.runId := rows.run];
      results := results + Tag(r.runId, rows.results);
      executions := executions + Tag(r.runId, rows.executions);
      origins := origins + Tag(r.runId, rows.origins);
      artifacts := artifacts + Tag(r.runId, rows.artifacts);
      attributions := attributions + Tag(r.runId, rows.attributions);
      assert Contents() == Inserted(before, r.runId, rows);
      return None;
    }

    /** returned is the order in which the database hands out the run's links, which
        loading does not ask it to sort. */
    method LoadRun(runId: string, returned: seq<OriginRow>) returns (r: Result<CompletedResult>)
      ensures runId !in runs ==> r == Err(NotFound)
      ensures runId in runs ==> r == ReadRun(rules, Rows(runId).(origins := returned))
    {
      if runId !in runs { return Err(NotFound); }
      var rows := Rows(runId).(origins := returned);
      hide Select, ReadRows, ReadOrigins, ReadArtifacts, ReadActions, ReadAttributions, Assemble, KnownProducers,
        VhostResults;
      var structured := LoadStructured(rules, rows.results, VhostResults(rows.executions, rows.origins));
      if structured.Err? { return Err(structured.error); }
      if !KnownProducers(rows.executions) { return Err(UnknownProducerKind); }
      var links := LoadOrigins(rules, rows);
      if links.Err? { return Err(links.error); }
      var made := LoadArtifacts(rows);
      if made.Err? { return Err(made.error); }
      var actions := LoadActions(rows.executions, links.value.byAction, made.value);
      if actions.Err? { return Err(actions.error); }
      var read := LoadAttributions(rules, rows);
      if read.Err? { return Err(read.error); }
      if SortedUnique(read.value, AttributionKey) != read.value { return Err(InvalidAttribution); }
      r := Assemble(rules, rows, structured.value, links.value, actions.value, read.value);
    }
  }

  /** Any listing of the origin rows that saving wrote makes the rows a saved run. */
  lemma SavedListing(rules: Rules, r: CompletedResult, returned: seq<OriginRow>)
    requires Valid(rules, r) && Resolvable(r)
    requires NoDuplicates(returned) && forall o :: o in returned <==> o in RowsOf(rules, r).origins
    ensures Saved(rules, r, RowsOf(rules, r).(origins := returned))
  {
    OriginsExact(rules, r);
    assert RowsOf(rules, r).origins == Origins(r);
    hide Valid, Resolvable, Linked, Origins, RowsOf;
  }

  /** The round trip: whatever order the links of a saved run come back in, loading its
      rows gives back the run, exactly when its Shodan hosts are canonical. */
  lemma SaveThenLoad(rules: Rules, r: CompletedResult, returned: seq<OriginRow>)
    requires Valid(rules, r) && Fits(rules, r) && Resolvable(r)
    requires NoDuplicates(returned) && forall o :: o in returned <==> o in RowsOf(rules, r).origins
    ensures ReadRun(rules, RowsOf(rules, r).(origins := returned)) ==
              if forall h | h in r.shodanHosts :: rules.canonicalShodan(h) then Ok(r) else Err(InvalidDetails)
  {
    hide *;
    SavedListing(rules, r, returned);
    LoadRestores(rules, r, RowsOf(rules, r).(origins := returned));
  }
}
