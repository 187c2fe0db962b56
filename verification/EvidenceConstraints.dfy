/** The rows written for a valid run: which links they hold, and that they meet every
    constraint the tables declare. */
module EvidenceConstraints {
  import opened Wrappers
  import opened Ordering
  import opened EvidenceModel
  import opened EvidenceRows

  lemma ResultPosition(results: seq<ResultId>, i: nat)
    requires StrictlySorted(results, ResultKey) && i < |results|
    ensures LastIndex(results, results[i]) == i
  {
    StrictlySortedDistinct(results, ResultKey);
  }

  predicate PartsDistinct(r: CompletedResult) {
    && (forall i, j | 0 <= i < j < |r.sources| :: r.sources[i].source != r.sources[j].source)
    && (forall i, j | 0 <= i < j < |r.actions| :: r.actions[i].action != r.actions[j].action)
    && StrictlySorted(r.results, ResultKey)
    && StrictlySorted(r.observations, ObservationKey)
    && (forall i | 0 <= i < |r.actions| :: StrictlySorted(r.actions[i].observations, ResultKey))
  }

  lemma ValidIsDistinct(rules: Rules, r: CompletedResult)
    requires Valid(rules, r)
    ensures PartsDistinct(r)
  {
    hide ValidVirtualHosts, ValidNetwork, ValidShodan, ValidTakeovers, ValidAttributions, StrictlySorted,
      ValidOutcome;
    forall i | 0 <= i < |r.actions| ensures StrictlySorted(r.actions[i].observations, ResultKey) {
      assert ValidAction(r.results, r.actions[i]);
    }
  }

  /** The execution at this position produced the result at that one. */
  predicate Linked(r: CompletedResult, o: OriginRow) {
    && o.resultPosition < |r.results|
    && if o.executionPosition < |r.sources| then
         ResultObservation(r.sources[o.executionPosition].source, r.results[o.resultPosition]) in r.observations
       else
         && o.executionPosition < |r.sources| + |r.actions|
         && r.results[o.resultPosition] in r.actions[o.executionPosition - |r.sources|].observations
  }

  lemma SourceOriginFor(r: CompletedResult, k: nat, i: nat, p: nat)
    requires Resolvable(r) && PartsDistinct(r) && k < |r.observations|
    requires i < |r.results| && p < |r.sources|
    requires r.observations[k] == ResultObservation(r.sources[p].source, r.results[i])
    ensures SourceOrigins(r)[k] == OriginRow(i, p)
  {
    ResultPosition(r.results, i);
    SourcePosition(r, p);
  }

  /** The source rows are exactly the links of the source observations, once each. */
  lemma SourceOriginsExact(r: CompletedResult)
    requires Resolvable(r) && PartsDistinct(r)
    requires forall o | o in r.observations :: exists i | 0 <= i < |r.sources| :: r.sources[i].source == o.source
    ensures forall o :: o in SourceOrigins(r) <==> o.executionPosition < |r.sources| && Linked(r, o)
    ensures NoDuplicates(SourceOrigins(r))
  {
    hide Resolvable, PartsDistinct, Producers;
    var rows := SourceOrigins(r);
    forall k | 0 <= k < |rows|
      ensures rows[k].executionPosition < |r.sources| && rows[k].resultPosition < |r.results|
      ensures r.observations[k] ==
                ResultObservation(r.sources[rows[k].executionPosition].source, r.results[rows[k].resultPosition])
    {
      SourceLinks(r, k);
    }
    forall o: OriginRow | o.executionPosition < |r.sources| && Linked(r, o) ensures o in rows {
      var k :| 0 <= k < |r.observations|
            && r.observations[k] ==
                ResultObservation(r.sources[o.executionPosition].source, r.results[o.resultPosition]);
      SourceOriginFor(r, k, o.resultPosition, o.executionPosition);
      assert rows[k] == o;
    }
    ObservationsDiffer(r);
    forall k, l | 0 <= k < l < |rows| ensures rows[k] != rows[l] {
      assert r.observations[k] != r.observations[l];
    }
  }

  lemma ObservationsDiffer(r: CompletedResult)
    requires PartsDistinct(r)
    ensures forall k, l | 0 <= k < l < |r.observations| :: r.observations[k] != r.observations[l]
  {
    StrictlySortedDistinct(r.observations, ObservationKey);
  }

  lemma SourceLinks(r: CompletedResult, k: nat)
    requires Resolvable(r) && PartsDistinct(r) && k < |r.observations|
    requires forall o | o in r.observations :: exists i | 0 <= i < |r.sources| :: r.sources[i].source == o.source
    ensures var o := SourceOrigins(r)[k];
            && o.executionPosition < |r.sources| && o.resultPosition < |r.results|
            && r.observations[k] ==
                ResultObservation(r.sources[o.executionPosition].source, r.results[o.resultPosition])
  {
    assert r.observations[k] in r.observations;
    var p :| 0 <= p < |r.sources| && r.sources[p].source == r.observations[k].source;
    SourcePosition(r, p);
  }

  /** One action's block of rows. */
  function ActionBlock(r: CompletedResult, n: nat): seq<OriginRow>
    requires Resolvable(r) && n < |r.actions|
  {
    var a := r.actions[n];
    seq(|a.observations|, k requires 0 <= k < |a.observations| =>
      OriginRow(LastIndex(r.results, a.observations[k]), LastIndex(Producers(r), Producer("action", a.action))))
  }

  lemma ActionBlockRows(r: CompletedResult, n: nat)
    requires Resolvable(r) && PartsDistinct(r) && n < |r.actions|
    ensures var found, rows := r.actions[n].observations, ActionBlock(r, n);
            && |rows| == |found|
            && (forall k | 0 <= k < |found| :: found[k] in r.results
                                               && rows[k] == OriginRow(LastIndex(r.results, found[k]), |r.sources| + n))
            && (forall k, l | 0 <= k < l < |found| :: found[k] != found[l])
  {
    ActionPosition(r, n);
    StrictlySortedDistinct(r.actions[n].observations, ResultKey);
    hide StrictlySorted, Producers, LastIndex;
  }

  lemma ActionBlockMember(r: CompletedResult, n: nat, o: OriginRow)
    requires Resolvable(r) && PartsDistinct(r) && n < |r.actions|
    ensures o in ActionBlock(r, n) <==>
              o.executionPosition == |r.sources| + n && o.resultPosition < |r.results|
              && r.results[o.resultPosition] in r.actions[n].observations
  {
    ActionBlockRows(r, n);
    var found, rows := r.actions[n].observations, ActionBlock(r, n);
    assert StrictlySorted(r.results, ResultKey);
    hide Resolvable, PartsDistinct, ActionBlock, LastIndex, StrictlySorted;
    if o in rows {
      var k :| 0 <= k < |rows| && rows[k] == o;
      assert r.results[o.resultPosition] == found[k];
    }
    if o.executionPosition == |r.sources| + n && o.resultPosition < |r.results|
       && r.results[o.resultPosition] in found {
      var k :| 0 <= k < |found| && found[k] == r.results[o.resultPosition];
      ResultPosition(r.results, o.resultPosition);
      assert rows[k] == o;
    }
  }

  lemma ActionBlockOnce(r: CompletedResult, n: nat)
    requires Resolvable(r) && PartsDistinct(r) && n < |r.actions|
    ensures NoDuplicates(ActionBlock(r, n))
  {
    ActionBlockRows(r, n);
    var found, rows := r.actions[n].observations, ActionBlock(r, n);
    hide Resolvable, PartsDistinct, ActionBlock, LastIndex;
    forall k, l | 0 <= k < l < |rows| ensures rows[k] != rows[l] {
      assert found[k] != found[l];
    }
  }

  lemma ActionBlockExact(r: CompletedResult, n: nat)
    requires Resolvable(r) && PartsDistinct(r) && n < |r.actions|
    ensures forall o :: o in ActionBlock(r, n) <==>
              o.executionPosition == |r.sources| + n && o.resultPosition < |r.results|
              && r.results[o.resultPosition] in r.actions[n].observations
    ensures NoDuplicates(ActionBlock(r, n))
  {
    ActionBlockOnce(r, n);
    hide Resolvable, PartsDistinct, ActionBlock, NoDuplicates;
    forall o ensures o in ActionBlock(r, n) <==>
              o.executionPosition == |r.sources| + n && o.resultPosition < |r.results|
              && r.results[o.resultPosition] in r.actions[n].observations
    {
      ActionBlockMember(r, n, o);
    }
  }

  lemma NoDuplicatesJoin<T>(xs: seq<T>, ys: seq<T>)
    requires NoDuplicates(xs) && NoDuplicates(ys)
    requires forall i, j | 0 <= i < |xs| && 0 <= j < |ys| :: xs[i] != ys[j]
    ensures NoDuplicates(xs + ys)
  {
  }

  predicate AmongActions(r: CompletedResult, n: nat, o: OriginRow) {
    |r.sources| <= o.executionPosition < |r.sources| + n && Linked(r, o)
  }

  predicate InBlock(r: CompletedResult, n: nat, o: OriginRow)
    requires n < |r.actions|
  {
    && o.executionPosition == |r.sources| + n && o.resultPosition < |r.results|
    && r.results[o.resultPosition] in r.actions[n].observations
  }

  lemma AmongStep(r: CompletedResult, n: nat, o: OriginRow)
    requires n < |r.actions|
    ensures AmongActions(r, n + 1, o) <==> AmongActions(r, n, o) || InBlock(r, n, o)
    ensures !(AmongActions(r, n, o) && InBlock(r, n, o))
  {
  }

  lemma {:induction false} ActionOriginsExact(r: CompletedResult, n: nat)
    requires Resolvable(r) && PartsDistinct(r) && n <= |r.actions|
    ensures forall o :: o in ActionOrigins(r, n) <==> AmongActions(r, n, o)
    ensures NoDuplicates(ActionOrigins(r, n))
  {
    hide Resolvable, PartsDistinct, Linked;
    if n > 0 {
      var before, block := ActionOrigins(r, n - 1), ActionBlock(r, n - 1);
      ActionOriginsExact(r, n - 1);
      ActionBlockExact(r, n - 1);
      assert ActionOrigins(r, n) == before + block;
      hide ActionOrigins, ActionBlock;
      forall o ensures AmongActions(r, n, o) <==> AmongActions(r, n - 1, o) || InBlock(r, n - 1, o) {
        AmongStep(r, n - 1, o);
      }
      assert forall o :: o in block <==> InBlock(r, n - 1, o);
      hide AmongActions, InBlock;
      forall i, j | 0 <= i < |before| && 0 <= j < |block| ensures before[i] != block[j] {
        assert before[i] in before && block[j] in block;
        AmongStep(r, n - 1, before[i]);
      }
      NoDuplicatesJoin(before, block);
    }
  }

  function Origins(r: CompletedResult): seq<OriginRow>
    requires Resolvable(r)
  {
    SourceOrigins(r) + ActionOrigins(r, |r.actions|)
  }

  /** The origin rows are exactly the links of the run, once each. */
  lemma OriginsExact(rules: Rules, r: CompletedResult)
    requires Resolvable(r) && Valid(rules, r)
    ensures forall o :: o in Origins(r) <==> Linked(r, o)
    ensures NoDuplicates(Origins(r))
  {
    ValidIsDistinct(rules, r);
    assert forall o | o in r.observations :: exists i | 0 <= i < |r.sources| :: r.sources[i].source == o.source;
    SourceOriginsExact(r);
    ActionOriginsExact(r, |r.actions|);
    hide Resolvable, PartsDistinct, Valid, SourceOrigins, ActionOrigins, Linked;
    var xs, ys := SourceOrigins(r), ActionOrigins(r, |r.actions|);
    forall i, j | 0 <= i < |xs| && 0 <= j < |ys| ensures xs[i] != ys[j] {
      assert xs[i] in xs && ys[j] in ys;
    }
    NoDuplicatesJoin(xs, ys);
    forall o ensures o in Origins(r) <==> Linked(r, o) {
      assert o in xs <==> o.executionPosition < |r.sources| && Linked(r, o);
      assert o in ys <==> AmongActions(r, |r.actions|, o);
      LinkedInRange(r, o);
    }
  }

  lemma LinkedInRange(r: CompletedResult, o: OriginRow)
    ensures Linked(r, o) ==> o.resultPosition < |r.results| && o.executionPosition < |r.sources| + |r.actions|
  {
  }

  // ---- the constraints ----

  lemma {:induction false} ArtifactRowsFacts(r: CompletedResult, n: nat)
    requires Resolvable(r) && n <= |r.actions|
    ensures forall k | 0 <= k < |ArtifactRows(r, n)| ::
              var row := ArtifactRows(r, n)[k];
              && row.position == k && row.resultPosition < |r.results|
              && row.executionPosition < |r.sources| + |r.actions|
  {
    if n > 0 { ArtifactRowsFacts(r, n - 1); }
  }

  lemma {:induction false} ArtifactRowsChecked(r: CompletedResult, n: nat)
    requires Resolvable(r) && n <= |r.actions| && ValidActions(r.results, r.actions)
    ensures forall k | 0 <= k < |ArtifactRows(r, n)| ::
              ArtifactRows(r, n)[k].file.sizeBytes >= 0 && ValidSha256(ArtifactRows(r, n)[k].file.sha256)
  {
    hide ValidSha256, ValidOutcome, Producers;
    if n > 0 {
      ArtifactRowsChecked(r, n - 1);
      var made := r.actions[n - 1].artifacts;
      assert ValidAction(r.results, r.actions[n - 1]);
      forall k | 0 <= k < |made| ensures made[k].file.sizeBytes >= 0 && ValidSha256(made[k].file.sha256) {
        assert ValidArtifact(r.results, made[k]);
      }
    }
  }

  lemma PrimaryKeysHold(rules: Rules, r: CompletedResult)
    requires Resolvable(r) && Valid(rules, r)
    ensures PrimaryKeys(RowsOf(rules, r))
  {
    OriginsExact(rules, r);
    assert RowsOf(rules, r).origins == Origins(r);
    ArtifactRowsFacts(r, |r.actions|);
    hide Valid, Resolvable, Linked, DetailsOf, Producers;
  }

  lemma ResultsUnique(rules: Rules, r: CompletedResult)
    requires StrictlySorted(r.results, ResultKey)
    ensures forall i, j | 0 <= i < j < |ResultRows(rules, r)| ::
              ResultRows(rules, r)[i].item != ResultRows(rules, r)[j].item
  {
    StrictlySortedDistinct(r.results, ResultKey);
    hide DetailsOf, StrictlySorted;
  }

  lemma ExecutionsUnique(r: CompletedResult)
    requires PartsDistinct(r)
    ensures forall i, j | 0 <= i < j < |ExecutionRows(r)| ::
              ExecutionRows(r)[i].producer != ExecutionRows(r)[j].producer
  {
    hide StrictlySorted;
  }

  lemma UniqueKeysHold(rules: Rules, r: CompletedResult)
    requires Resolvable(r) && Valid(rules, r)
    ensures UniqueKeys(RowsOf(rules, r))
  {
    ValidIsDistinct(rules, r);
    ResultsUnique(rules, r);
    ExecutionsUnique(r);
    hide Valid, Resolvable, ResultRows, ExecutionRows, PartsDistinct;
  }

  lemma PositionsExist(rules: Rules, r: CompletedResult)
    requires Resolvable(r)
    ensures forall p: nat | p < |r.results| :: HasResult(RowsOf(rules, r), p)
    ensures forall p: nat | p < |r.sources| + |r.actions| :: HasExecution(RowsOf(rules, r), p)
  {
    hide Resolvable;
    var rows := RowsOf(rules, r);
    forall p: nat | p < |r.results| ensures HasResult(rows, p) { assert rows.results[p].position == p; }
    forall p: nat | p < |r.sources| + |r.actions| ensures HasExecution(rows, p) {
      assert rows.executions[p].position == p;
    }
  }

  lemma AttributionPositions(r: CompletedResult)
    requires Resolvable(r)
    ensures forall a | a in AttributionRows(r) ::
              && a.asnPosition < |r.results| && a.subjectPosition < |r.results|
              && a.executionPosition < |r.sources| + |r.actions|
  {
  }

  lemma ForeignKeysHold(rules: Rules, r: CompletedResult)
    requires Resolvable(r) && Valid(rules, r)
    ensures ForeignKeys(RowsOf(rules, r))
  {
    var rows := RowsOf(rules, r);
    assert rows.origins == Origins(r) && rows.artifacts == ArtifactRows(r, |r.actions|)
        && rows.attributions == AttributionRows(r);
    hide Valid, Resolvable, HasResult, HasExecution, RowsOf, Origins, ArtifactRows, AttributionRows, Linked;
    OriginsExact(rules, r);
    ArtifactRowsFacts(r, |r.actions|);
    AttributionPositions(r);
    PositionsExist(rules, r);
    forall o | o in rows.origins ensures HasResult(rows, o.resultPosition) && HasExecution(rows, o.executionPosition) {
      assert o in Origins(r);
      LinkedInRange(r, o);
    }
  }

  /** The rows of a valid run meet every primary, unique and foreign key and every check:
      only the run id itself can clash. */
  lemma RowsMeetConstraints(rules: Rules, r: CompletedResult)
    requires Valid(rules, r)
    ensures Resolvable(r) && Constraints(RowsOf(rules, r))
  {
    ValidResolves(rules, r);
    PrimaryKeysHold(rules, r);
    UniqueKeysHold(rules, r);
    ForeignKeysHold(rules, r);
    ArtifactRowsChecked(r, |r.actions|);
    hide PrimaryKeys, UniqueKeys, ForeignKeys, Resolvable, Valid, ValidSha256;
  }
}
