/** Loading what saving wrote gives the same run back. */
module EvidenceRoundTrip {
  import opened Wrappers
  import opened Ordering
  import opened Texts
  import opened EvidenceModel
  import opened EvidenceRows
  import opened EvidenceConstraints
  import opened EvidenceLoad
  import opened EvidenceDetails

  /** The origin rows of the run in whatever order the database returns them. */
  ghost predicate Listing(os: seq<OriginRow>, r: CompletedResult) {
    NoDuplicates(os) && forall o :: o in os <==> Linked(r, o)
  }

  predicate InPlace(rows: seq<ResultRow>) { forall i | 0 <= i < |rows| :: rows[i].position == i }

  lemma {:induction false} FindResultAt(rows: seq<ResultRow>, p: nat)
    requires InPlace(rows) && p < |rows|
    ensures FindResult(rows, p) == Some(rows[p].item)
  {
    if p < |rows| - 1 { FindResultAt(rows[..|rows| - 1], p); }
  }

  lemma {:induction false} FindProducerAt(rows: seq<ExecutionRow>, p: nat)
    requires (forall i | 0 <= i < |rows| :: rows[i].position == i) && p < |rows|
    ensures FindProducer(rows, p) == Some(rows[p].producer)
  {
    if p < |rows| - 1 { FindProducerAt(rows[..|rows| - 1], p); }
  }

  /** Looking a position up gives the result or the producer that was saved there. */
  ghost predicate Faithful(rows: RunRows, r: CompletedResult) {
    && (forall i: nat | i < |r.results| :: FindResult(rows.results, i) == Some(r.results[i]))
    && (forall p: nat | p < |Producers(r)| :: FindProducer(rows.executions, p) == Some(Producers(r)[p]))
  }

  lemma RowsAreFaithful(rules: Rules, r: CompletedResult, rows: RunRows)
    requires rows.results == ResultRows(rules, r) && rows.executions == ExecutionRows(r)
    ensures Faithful(rows, r)
  {
    hide FindResult, FindProducer, DetailsOf;
    forall i: nat | i < |r.results| ensures FindResult(rows.results, i) == Some(r.results[i]) {
      FindResultAt(rows.results, i);
    }
    forall p: nat | p < |Producers(r)| ensures FindProducer(rows.executions, p) == Some(Producers(r)[p]) {
      FindProducerAt(rows.executions, p);
    }
  }

  lemma LookupResult(rows: RunRows, r: CompletedResult, x: ResultId)
    requires Faithful(rows, r) && x in r.results
    ensures FindResult(rows.results, LastIndex(r.results, x)) == Some(x)
  {
  }

  lemma LookupProducer(rows: RunRows, r: CompletedResult, p: Producer)
    requires Faithful(rows, r) && p in Producers(r)
    ensures FindProducer(rows.executions, LastIndex(Producers(r), p)) == Some(p)
  {
  }

  lemma LookupAt(rows: RunRows, r: CompletedResult, o: OriginRow)
    requires Faithful(rows, r) && o.resultPosition < |r.results| && o.executionPosition < |r.sources| + |r.actions|
    ensures FindResult(rows.results, o.resultPosition) == Some(r.results[o.resultPosition])
    ensures FindProducer(rows.executions, o.executionPosition) ==
              Some(if o.executionPosition < |r.sources| then Producer("source", r.sources[o.executionPosition].source)
                   else Producer("action", r.actions[o.executionPosition - |r.sources|].action))
  {
  }

  // ---- vhost provenance ----

  lemma VhostExecutionExact(r: CompletedResult, p: nat)
    ensures p in VhostExecutions(ExecutionRows(r)) <==>
              |r.sources| <= p < |r.sources| + |r.actions| && r.actions[p - |r.sources|].action == "vhost"
  {
    var rows := ExecutionRows(r);
    if p < |rows| { assert rows[p].position == p && rows[p] in rows; }
  }

  lemma VhostFinds(actions: seq<ActionExecution>, x: ResultId)
    requires forall i, j | 0 <= i < j < |actions| :: actions[i].action != actions[j].action
    ensures x in FoundBy(actions, "vhost") <==>
              exists j :: 0 <= j < |actions| && actions[j].action == "vhost" && x in actions[j].observations
  {
    if x in FoundBy(actions, "vhost") { FoundByIsAction(actions, "vhost", x); }
    if j :| 0 <= j < |actions| && actions[j].action == "vhost" && x in actions[j].observations {
      ActionIsFound(actions, j);
    }
  }

  predicate FoundHere(r: CompletedResult, i: nat, j: nat)
    requires i < |r.results| && j < |r.actions|
  {
    r.actions[j].action == "vhost" && r.results[i] in r.actions[j].observations
  }

  lemma ProvenanceIsReal(r: CompletedResult, os: seq<OriginRow>, i: nat) returns (j: nat)
    requires Listing(os, r) && i < |r.results| && i in VhostResults(ExecutionRows(r), os)
    ensures j < |r.actions| && FoundHere(r, i, j)
  {
    hide FoundBy, VhostExecutions, ExecutionRows, Linked, NoDuplicates;
    var o :| o in os && o.executionPosition in VhostExecutions(ExecutionRows(r)) && o.resultPosition == i;
    VhostExecutionExact(r, o.executionPosition);
    ActionLinked(r, o);
    j := o.executionPosition - |r.sources|;
  }

  lemma ProvenanceIsKept(r: CompletedResult, os: seq<OriginRow>, i: nat, j: nat)
    requires Listing(os, r) && i < |r.results| && j < |r.actions| && FoundHere(r, i, j)
    ensures i in VhostResults(ExecutionRows(r), os)
  {
    hide FoundBy, VhostExecutions, ExecutionRows, Linked, NoDuplicates;
    var o := OriginRow(i, |r.sources| + j);
    VhostExecutionExact(r, |r.sources| + j);
    ActionLinked(r, o);
    assert o in os;
  }

  /** The rows say a result has vhost provenance exactly when the vhost action found it. */
  lemma ProvenanceExact(r: CompletedResult, os: seq<OriginRow>, i: nat)
    requires Listing(os, r) && i < |r.results|
    requires forall i, j | 0 <= i < j < |r.actions| :: r.actions[i].action != r.actions[j].action
    ensures i in VhostResults(ExecutionRows(r), os) <==> r.results[i] in FoundBy(r.actions, "vhost")
  {
    hide VhostResults, FoundBy, Listing, ExecutionRows;
    VhostFinds(r.actions, r.results[i]);
    if i in VhostResults(ExecutionRows(r), os) {
      var j := ProvenanceIsReal(r, os, i);
    }
    if j :| 0 <= j < |r.actions| && r.actions[j].action == "vhost" && r.results[i] in r.actions[j].observations {
      ProvenanceIsKept(r, os, i, j);
    }
  }

  lemma ActionLinked(r: CompletedResult, o: OriginRow)
    requires o.resultPosition < |r.results| && |r.sources| <= o.executionPosition < |r.sources| + |r.actions|
    ensures Linked(r, o) <==> r.results[o.resultPosition] in r.actions[o.executionPosition - |r.sources|].observations
  {
  }

  // ---- links ----

  /** The results the links of one execution name. */
  function Targets(results: seq<ResultId>, os: seq<OriginRow>, p: nat): seq<ResultId> {
    if os == [] then []
    else
      var before, o := Targets(results, os[..|os| - 1], p), os[|os| - 1];
      if o.executionPosition == p && o.resultPosition < |results| then before + [results[o.resultPosition]] else before
  }

  /** The source observations the links name. */
  function SourceItems(r: CompletedResult, os: seq<OriginRow>): seq<ResultObservation> {
    if os == [] then []
    else
      var before, o := SourceItems(r, os[..|os| - 1]), os[|os| - 1];
      if o.executionPosition < |r.sources| && o.resultPosition < |r.results| then
        before + [ResultObservation(r.sources[o.executionPosition].source, r.results[o.resultPosition])]
      else before
  }

  lemma {:induction false} TargetsMembers(results: seq<ResultId>, os: seq<OriginRow>, p: nat)
    requires NoDuplicates(results) && NoDuplicates(os)
    ensures forall i: nat | i < |results| :: results[i] in Targets(results, os, p) <==> OriginRow(i, p) in os
    ensures forall x | x in Targets(results, os, p) :: x in results
    ensures NoDuplicates(Targets(results, os, p))
  {
    if os != [] {
      var before, o := Targets(results, os[..|os| - 1], p), os[|os| - 1];
      TargetsMembers(results, os[..|os| - 1], p);
      assert os == os[..|os| - 1] + [o];
      assert o !in os[..|os| - 1];
      forall i: nat | i < |results| ensures results[i] in Targets(results, os, p) <==> OriginRow(i, p) in os {
        assert results[i] in before <==> OriginRow(i, p) in os[..|os| - 1];
      }
    }
  }

  lemma {:induction false} SourceItemsMembers(r: CompletedResult, os: seq<OriginRow>)
    requires NoDuplicates(r.results) && NoDuplicates(os)
    requires forall i, j | 0 <= i < j < |r.sources| :: r.sources[i].source != r.sources[j].source
    ensures forall i: nat, p: nat | i < |r.results| && p < |r.sources| ::
              ResultObservation(r.sources[p].source, r.results[i]) in SourceItems(r, os) <==> OriginRow(i, p) in os
    ensures forall x | x in SourceItems(r, os) ::
              x.item in r.results && exists p :: 0 <= p < |r.sources| && r.sources[p].source == x.source
    ensures NoDuplicates(SourceItems(r, os))
  {
    if os != [] {
      var before, o := SourceItems(r, os[..|os| - 1]), os[|os| - 1];
      SourceItemsMembers(r, os[..|os| - 1]);
      assert os == os[..|os| - 1] + [o];
      assert o !in os[..|os| - 1];
      forall i: nat, p: nat | i < |r.results| && p < |r.sources|
        ensures ResultObservation(r.sources[p].source, r.results[i]) in SourceItems(r, os) <==> OriginRow(i, p) in os
      {
        assert ResultObservation(r.sources[p].source, r.results[i]) in before <==> OriginRow(i, p) in os[..|os| - 1];
      }
    }
  }

  /** The links of an action's execution name exactly what it observed. */
  lemma ActionTargets(r: CompletedResult, os: seq<OriginRow>, n: nat)
    requires PartsDistinct(r) && Listing(os, r) && n < |r.actions|
    requires forall x | x in r.actions[n].observations :: x in r.results
    ensures Sorted(Targets(r.results, os, |r.sources| + n), ResultKey) == r.actions[n].observations
  {
    var p := |r.sources| + n;
    StrictlySortedDistinct(r.results, ResultKey);
    TargetsMembers(r.results, os, p);
    var found := Targets(r.results, os, p);
    forall x ensures x in found <==> x in r.actions[n].observations {
      if x in r.results {
        var i: nat :| i < |r.results| && r.results[i] == x;
        assert OriginRow(i, p) in os <==> Linked(r, OriginRow(i, p));
      }
    }
    SortedRestores(found, r.actions[n].observations, ResultKey);
  }

  lemma SourcesRestored(r: CompletedResult, os: seq<OriginRow>)
    requires PartsDistinct(r) && Listing(os, r) && ValidSources(r.results, r.sources, r.observations)
    ensures Sorted(SourceItems(r, os), ObservationKey) == r.observations
  {
    StrictlySortedDistinct(r.results, ResultKey);
    SourceItemsMembers(r, os);
    var found := SourceItems(r, os);
    forall x ensures x in found <==> x in r.observations {
      if x in found || x in r.observations {
        var i: nat :| i < |r.results| && r.results[i] == x.item;
        var p: nat :| p < |r.sources| && r.sources[p].source == x.source;
        assert x == ResultObservation(r.sources[p].source, r.results[i]);
        assert OriginRow(i, p) in os <==> Linked(r, OriginRow(i, p));
      }
    }
    hide ValidSources, Listing, SourceItems;
    SortedRestores(found, r.observations, ObservationKey);
  }

  lemma ObserveValid(rules: Rules, x: ResultId)
    requires ValidItem(rules, x)
    ensures Observe(rules, x) == Some(x)
  {
  }

  lemma LinkSound(rules: Rules, r: CompletedResult, o: OriginRow)
    requires Valid(rules, r) && Linked(r, o)
    ensures Observe(rules, r.results[o.resultPosition]) == Some(r.results[o.resultPosition])
    ensures o.executionPosition < |r.sources| ==> NonBlank(r.sources[o.executionPosition].source)
    ensures o.executionPosition >= |r.sources| ==> r.results[o.resultPosition].kind != "screenshot"
  {
    assert ValidItem(rules, r.results[o.resultPosition]);
    ObserveValid(rules, r.results[o.resultPosition]);
    if o.executionPosition < |r.sources| {
      assert r.sources[o.executionPosition] in r.sources;
    } else {
      assert ValidAction(r.results, r.actions[o.executionPosition - |r.sources|]);
    }
    hide Observe, ValidItem, ValidVirtualHosts, ValidNetwork, ValidShodan, ValidTakeovers, ValidAttributions,
      NonBlank, ValidOutcome, StrictlySorted;
  }

  /** One link reads as the observation it stands for. */
  lemma OneLink(rules: Rules, r: CompletedResult, rows: RunRows, links: Links, o: OriginRow)
    requires Valid(rules, r) && Linked(r, o) && Faithful(rows, r)
    ensures ReadOrigin(rules, rows, links, o) ==
              Ok(if o.executionPosition < |r.sources| then
                   links.(bySource := links.bySource +
                     [ResultObservation(r.sources[o.executionPosition].source, r.results[o.resultPosition])])
                 else
                   links.(byAction := links.byAction[o.executionPosition :=
                     At(links.byAction, o.executionPosition) + [r.results[o.resultPosition]]]))
  {
    LinkSound(rules, r, o);
    LinkedInRange(r, o);
    LookupAt(rows, r, o);
    hide Valid, Linked, Faithful, Observe, FindResult, FindProducer, NonBlank, At;
  }

  lemma {:induction false} LinksReadBack(rules: Rules, r: CompletedResult, rows: RunRows, os: seq<OriginRow>)
    requires Valid(rules, r) && Faithful(rows, r) && forall o | o in os :: Linked(r, o)
    ensures var links := ReadOrigins(rules, rows, os);
            && links.Ok? && links.value.bySource == SourceItems(r, os)
            && forall p: nat | |r.sources| <= p :: At(links.value.byAction, p) == Targets(r.results, os, p)
  {
    hide Valid, ReadOrigin, Faithful;
    if os != [] {
      var before, o := os[..|os| - 1], os[|os| - 1];
      assert forall b | b in before :: b in os;
      LinksReadBack(rules, r, rows, before);
      assert o in os;
      OneLink(rules, r, rows, ReadOrigins(rules, rows, before).value, o);
    }
  }

  // ---- artifacts ----

  lemma ArtifactSound(rules: Rules, r: CompletedResult, n: nat, k: nat)
    requires Valid(rules, r) && n < |r.actions| && k < |r.actions[n].artifacts|
    ensures SoundArtifact(r.actions[n].artifacts[k])
  {
    var a := r.actions[n].artifacts[k];
    assert ValidAction(r.results, r.actions[n]);
    assert ValidArtifact(r.results, a);
    assert ValidItem(rules, a.subject);
    hide ValidAction, ValidVirtualHosts, ValidNetwork, ValidShodan, ValidTakeovers, ValidAttributions, ValidSources,
      NonBlank, ValidOutcome, ValidSha256, StrictlySorted;
  }

  lemma ActionAt(rules: Rules, r: CompletedResult, n: nat)
    requires Valid(rules, r) && n < |r.actions|
    ensures Producer("action", r.actions[n].action) in Producers(r)
    ensures LastIndex(Producers(r), Producer("action", r.actions[n].action)) == |r.sources| + n
  {
    ValidIsDistinct(rules, r);
    hide Valid;
    ActionPosition(r, n);
  }

  lemma ArtifactResolves(r: CompletedResult, n: nat, k: nat)
    requires Resolvable(r) && n < |r.actions| && k < |r.actions[n].artifacts|
    ensures r.actions[n].artifacts[k].subject in r.results
  {
  }

  lemma OneArtifact(rules: Rules, r: CompletedResult, rows: RunRows, made: map<nat, seq<Artifact>>, n: nat, k: nat,
      row: ArtifactRow)
    requires Valid(rules, r) && Resolvable(r) && Faithful(rows, r)
    requires n < |r.actions| && k < |r.actions[n].artifacts|
    requires row.resultPosition == LastIndex(r.results, r.actions[n].artifacts[k].subject)
    requires row.executionPosition == LastIndex(Producers(r), Producer("action", r.actions[n].action))
    requires row.file == r.actions[n].artifacts[k].file
    ensures row.executionPosition == |r.sources| + n
    ensures ReadArtifact(rows, made, row) ==
              Ok(made[|r.sources| + n := At(made, |r.sources| + n) + [r.actions[n].artifacts[k]]])
  {
    hide FindResult, FindProducer, Resolvable, Valid, Faithful, SoundArtifact, Producers, At, LastIndex;
    var a := r.actions[n].artifacts[k];
    ActionAt(rules, r, n);
    ArtifactResolves(r, n, k);
    ArtifactSound(rules, r, n, k);
    LookupResult(rows, r, a.subject);
    LookupProducer(rows, r, Producer("action", r.actions[n].action));
    assert Artifact(a.subject, row.file) == a;
  }

  function ArtifactBlock(r: CompletedResult, n: nat): seq<ArtifactRow>
    requires Resolvable(r) && n < |r.actions|
  {
    var a, before := r.actions[n], ArtifactRows(r, n);
    seq(|a.artifacts|, k requires 0 <= k < |a.artifacts| =>
      ArtifactRow(|before| + k, LastIndex(r.results, a.artifacts[k].subject),
                  LastIndex(Producers(r), Producer("action", a.action)), a.artifacts[k].file))
  }

  /** The artifacts of the execution at p once those of n actions, and k more, are read. */
  function Shelf(r: CompletedResult, n: nat, k: nat, p: nat): seq<Artifact>
    requires n < |r.actions| ==> k <= |r.actions[n].artifacts|
    requires n <= |r.actions| && |r.sources| <= p
  {
    var i := p - |r.sources|;
    if i < n then r.actions[i].artifacts
    else if i == n < |r.actions| then r.actions[n].artifacts[..k]
    else []
  }

  lemma ShelfStep(r: CompletedResult, n: nat, k: nat, p: nat)
    requires n < |r.actions| && 0 < k <= |r.actions[n].artifacts| && |r.sources| <= p
    ensures Shelf(r, n, k, p) ==
              if p == |r.sources| + n then Shelf(r, n, k - 1, p) + [r.actions[n].artifacts[k - 1]]
                  else Shelf(r, n, k - 1, p)
  {
    assert r.actions[n].artifacts[..k] == r.actions[n].artifacts[..k - 1] + [r.actions[n].artifacts[k - 1]];
  }

  lemma ShelfTurn(r: CompletedResult, n: nat, p: nat)
    requires n < |r.actions| && |r.sources| <= p
    ensures Shelf(r, n, |r.actions[n].artifacts|, p) == Shelf(r, n + 1, 0, p)
  {
    assert r.actions[n].artifacts[..|r.actions[n].artifacts|] == r.actions[n].artifacts;
  }

  /** Each artifact read so far is filed under its action, in order. */
  ghost predicate Filed(r: CompletedResult, made: map<nat, seq<Artifact>>, n: nat, k: nat)
    requires n <= |r.actions| && (n < |r.actions| ==> k <= |r.actions[n].artifacts|)
  {
    forall p: nat | |r.sources| <= p :: At(made, p) == Shelf(r, n, k, p)
  }

  lemma FiledStep(r: CompletedResult, made: map<nat, seq<Artifact>>, n: nat, k: nat)
    requires n < |r.actions| && 0 < k <= |r.actions[n].artifacts| && Filed(r, made, n, k - 1)
    ensures var p := |r.sources| + n;
            Filed(r, made[p := At(made, p) + [r.actions[n].artifacts[k - 1]]], n, k)
  {
    hide Shelf;
    forall p: nat | |r.sources| <= p { ShelfStep(r, n, k, p); }
  }

  lemma {:induction false} BlockReadsBack(rules: Rules, r: CompletedResult, rows: RunRows, n: nat, k: nat)
    requires Valid(rules, r) && Resolvable(r) && Faithful(rows, r)
    requires n < |r.actions| && k <= |r.actions[n].artifacts|
    requires var start := ReadArtifacts(rows, ArtifactRows(r, n)); start.Ok? && Filed(r, start.value, n, 0)
    ensures var read := ReadArtifacts(rows, ArtifactRows(r, n) + ArtifactBlock(r, n)[..k]);
            read.Ok? && Filed(r, read.value, n, k)
  {
    hide Valid, Resolvable, ArtifactRows, ReadArtifact, Faithful, Producers, Filed, LastIndex;
    var before, block := ArtifactRows(r, n), ArtifactBlock(r, n);
    if k == 0 {
      assert before + block[..0] == before;
    } else {
      BlockReadsBack(rules, r, rows, n, k - 1);
      var rest := before + block[..k - 1];
      var made := ReadArtifacts(rows, rest).value;
      assert before + block[..k] == rest + [block[k - 1]];
      OneArtifact(rules, r, rows, made, n, k - 1, block[k - 1]);
      FiledStep(r, made, n, k);
      ReadOneMore(rows, rest, block[k - 1]);
    }
  }

  lemma ReadOneMore(rows: RunRows, rest: seq<ArtifactRow>, row: ArtifactRow)
    requires ReadArtifacts(rows, rest).Ok?
    ensures ReadArtifacts(rows, rest + [row]) == ReadArtifact(rows, ReadArtifacts(rows, rest).value, row)
  {
    assert (rest + [row])[..|rest|] == rest;
  }

  lemma {:induction false} ArtifactsReadBack(rules: Rules, r: CompletedResult, rows: RunRows, n: nat)
    requires Valid(rules, r) && Resolvable(r) && Faithful(rows, r) && n <= |r.actions|
    ensures var read := ReadArtifacts(rows, ArtifactRows(r, n)); read.Ok? && Filed(r, read.value, n, 0)
  {
    hide Valid, Resolvable, ReadArtifact, Faithful, ArtifactRows, ArtifactBlock, Filed;
    if n > 0 {
      ArtifactsReadBack(rules, r, rows, n - 1);
      BlockReadsBack(rules, r, rows, n - 1, |r.actions[n - 1].artifacts|);
      ArtifactRowsSplit(r, n);
      FiledTurn(r, ReadArtifacts(rows, ArtifactRows(r, n)).value, n - 1);
    } else {
      NoArtifactsYet(rows, r);
    }
  }

  lemma NoArtifactsYet(rows: RunRows, r: CompletedResult)
    requires Resolvable(r)
    ensures var read := ReadArtifacts(rows, ArtifactRows(r, 0)); read.Ok? && Filed(r, read.value, 0, 0)
  {
    hide Resolvable;
  }

  lemma ArtifactRowsSplit(r: CompletedResult, n: nat)
    requires Resolvable(r) && 0 < n <= |r.actions|
    ensures var block := ArtifactBlock(r, n - 1);
            && |block| == |r.actions[n - 1].artifacts|
            && ArtifactRows(r, n) == ArtifactRows(r, n - 1) + block[..|r.actions[n - 1].artifacts|]
  {
  }

  lemma FiledTurn(r: CompletedResult, made: map<nat, seq<Artifact>>, n: nat)
    requires n < |r.actions| && Filed(r, made, n, |r.actions[n].artifacts|)
    ensures Filed(r, made, n + 1, 0)
  {
    hide Shelf;
    forall p: nat | |r.sources| <= p ensures At(made, p) == Shelf(r, n + 1, 0, p) { ShelfTurn(r, n, p); }
  }

  // ---- executions ----

  lemma {:induction false} SourcesReadBack(r: CompletedResult, k: nat)
    requires k <= |r.sources| + |r.actions|
    ensures ReadSources(ExecutionRows(r)[..k]) == r.sources[..if k < |r.sources| then k else |r.sources|]
  {
    if k > 0 {
      SourcesReadBack(r, k - 1);
      assert ExecutionRows(r)[..k][..k - 1] == ExecutionRows(r)[..k - 1];
      if k <= |r.sources| { assert r.sources[..k] == r.sources[..k - 1] + [r.sources[k - 1]]; }
    }
  }

  lemma {:induction false} ActionsReadBack(
      r: CompletedResult, found: map<nat, seq<ResultId>>, made: map<nat, seq<Artifact>>, k: nat)
    requires ValidActions(r.results, r.actions) && k <= |r.sources| + |r.actions|
    requires forall p: nat | |r.sources| <= p < |r.sources| + |r.actions| ::
               Sorted(At(found, p), ResultKey) == r.actions[p - |r.sources|].observations
    requires forall p: nat | |r.sources| <= p < |r.sources| + |r.actions| ::
               At(made, p) == r.actions[p - |r.sources|].artifacts
    ensures ReadActions(ExecutionRows(r)[..k], found, made) ==
              Ok(r.actions[..if k < |r.sources| then 0 else k - |r.sources|])
  {
    hide ReadAction, ReadActions, Sorted, At, ValidActions, ExecutionRows;
    if k == 0 {
      NoActionsRead(r, found, made);
    } else {
      ActionsReadBack(r, found, made, k - 1);
      OneMoreRead(r, found, made, k);
      if k > |r.sources| {
        var n := k - 1 - |r.sources|;
        OneAction(r, n);
        assert r.actions[..n + 1] == r.actions[..n] + [r.actions[n]];
        assert Sorted(At(found, k - 1), ResultKey) == r.actions[n].observations;
        assert At(made, k - 1) == r.actions[n].artifacts;
      }
    }
  }

  lemma NoActionsRead(r: CompletedResult, found: map<nat, seq<ResultId>>, made: map<nat, seq<Artifact>>)
    ensures |ExecutionRows(r)| == |r.sources| + |r.actions|
    ensures ReadActions(ExecutionRows(r)[..0], found, made) == Ok([])
  {
  }

  /** The row at k - 1 adds its action, if it is one. */
  lemma OneMoreRead(r: CompletedResult, found: map<nat, seq<ResultId>>, made: map<nat, seq<Artifact>>, k: nat)
    requires 0 < k <= |r.sources| + |r.actions|
    ensures |ExecutionRows(r)| == |r.sources| + |r.actions|
    ensures var e, before := ExecutionRows(r)[k - 1], ReadActions(ExecutionRows(r)[..k - 1], found, made);
            before.Ok? ==>
              ReadActions(ExecutionRows(r)[..k], found, made) ==
                if k <= |r.sources| then before
                else
                  match ReadAction(e, Sorted(At(found, k - 1), ResultKey), Sorted(At(made, k - 1), ArtifactKey))
                  case Err(error) => Err(error)
                  case Ok(action) => Ok(before.value + [action])
  {
    hide ReadAction, Sorted, At;
    assert ExecutionRows(r)[..k][..k - 1] == ExecutionRows(r)[..k - 1];
  }

  lemma OneAction(r: CompletedResult, n: nat)
    requires ValidActions(r.results, r.actions) && n < |r.actions|
    ensures ReadAction(ExecutionRows(r)[|r.sources| + n], r.actions[n].observations,
              Sorted(r.actions[n].artifacts, ArtifactKey))
              == Ok(r.actions[n])
  {
    assert ValidAction(r.results, r.actions[n]);
    ArtifactsSorted(r.actions[n].artifacts);
    hide Sorted, StrictlySorted, NonBlank, ValidOutcome, ValidActions;
  }

  lemma ArtifactsSorted(artifacts: seq<Artifact>)
    requires StrictlySorted(artifacts, ArtifactKey)
    ensures Sorted(artifacts, ArtifactKey) == artifacts
  {
    StrictlySortedDistinct(artifacts, ArtifactKey);
    SortedRestores(artifacts, artifacts, ArtifactKey);
  }

  // ---- attributions ----

  lemma AttributionSound(rules: Rules, r: CompletedResult, a: Attribution)
    requires ValidAttributions(rules, r) && a in r.attributions
    ensures a.producerKind in {"source", "action"} && a.subject.kind in {"hostname", "ip"}
              && rules.attribute(a) == Some(a)
  {
  }

  lemma OneAttribution(rules: Rules, r: CompletedResult, rows: RunRows, k: nat)
    requires ValidAttributions(rules, r) && Resolvable(r) && Faithful(rows, r) && k < |r.attributions|
    ensures ReadAttribution(rules, rows, AttributionRows(r)[k]) == Ok(r.attributions[k])
  {
    var a := r.attributions[k];
    AttributionSound(rules, r, a);
    LookupResult(rows, r, ResultId("asn", a.asn));
    LookupResult(rows, r, a.subject);
    LookupProducer(rows, r, Producer(a.producerKind, a.producer));
    hide FindResult, FindProducer, ValidAttributions, Producers, Faithful, LastIndex;
  }

  lemma {:induction false} AttributionsReadBack(rules: Rules, r: CompletedResult, rows: RunRows, k: nat)
    requires ValidAttributions(rules, r) && Resolvable(r) && Faithful(rows, r) && k <= |r.attributions|
    ensures ReadAttributions(rules, rows, AttributionRows(r)[..k]) == Ok(r.attributions[..k])
  {
    hide ValidAttributions, Resolvable, ReadAttribution, AttributionRows, Faithful;
    if k > 0 {
      AttributionCount(r);
      AttributionsReadBack(rules, r, rows, k - 1);
      OneAttribution(rules, r, rows, k - 1);
      assert AttributionRows(r)[..k][..k - 1] == AttributionRows(r)[..k - 1];
      assert r.attributions[..k] == r.attributions[..k - 1] + [r.attributions[k - 1]];
    }
  }

  lemma AttributionCount(r: CompletedResult)
    requires Resolvable(r)
    ensures |AttributionRows(r)| == |r.attributions|
  {
  }

  // ---- the whole run ----

  lemma CanonicalByNameRestores<T(!new)>(xs: seq<T>, canonical: seq<T>, name: T -> string, key: T -> Key)
    requires CanonicalByName(canonical, name, key) == Some(canonical) && StrictlySorted(canonical, key)
    requires forall x :: x in xs <==> x in canonical
    ensures CanonicalByName(xs, name, key) == Some(canonical)
  {
    forall i, j | 0 <= i < |xs| && 0 <= j < |xs| && name(xs[i]) == name(xs[j]) ensures xs[i] == xs[j] {
      assert xs[i] in canonical && xs[j] in canonical;
    }
    SortRestores(xs, canonical, key);
  }

  /** These rows hold the run: what saving writes, with the links in any order. */
  ghost predicate Saved(rules: Rules, r: CompletedResult, rows: RunRows) {
    && Resolvable(r)
    && Listing(rows.origins, r)
    && rows == RowsOf(rules, r).(origins := rows.origins)
  }

  lemma SavedRows(rules: Rules, r: CompletedResult, rows: RunRows)
    requires Saved(rules, r, rows)
    ensures Resolvable(r) && Listing(rows.origins, r)
    ensures rows.results == ResultRows(rules, r) && rows.executions == ExecutionRows(r)
    ensures rows.artifacts == ArtifactRows(r, |r.actions|) && rows.attributions == AttributionRows(r)
    ensures |rows.executions| == |r.sources| + |r.actions|
  {
  }

  lemma ValidParts(rules: Rules, r: CompletedResult)
    requires Valid(rules, r)
    ensures ValidSources(r.results, r.sources, r.observations) && ValidActions(r.results, r.actions)
    ensures ValidAttributions(rules, r) && StrictlySorted(r.attributions, AttributionKey)
  {
  }

  lemma ActionNamesDiffer(rules: Rules, r: CompletedResult)
    requires Valid(rules, r)
    ensures forall i, j | 0 <= i < j < |r.actions| :: r.actions[i].action != r.actions[j].action
  {
    hide ValidAction;
  }

  lemma StructuredReadBack(rules: Rules, r: CompletedResult, rows: RunRows)
    requires Valid(rules, r) && Encodable(rules, r) && Saved(rules, r, rows)
    ensures ReadRows(rules, rows.results, VhostResults(rows.executions, rows.origins)) ==
              if SoundUpTo(rules, r, |r.results|) then Ok(Parts(r, |r.results|)) else Err(InvalidDetails)
  {
    SavedRows(rules, r, rows);
    hide *;
    ActionNamesDiffer(rules, r);
    forall i: nat | i < |r.results|
      ensures i in VhostResults(rows.executions, rows.origins) <==> r.results[i] in FoundBy(r.actions, "vhost")
    {
      ProvenanceExact(r, rows.origins, i);
    }
    RowsReadBack(rules, r, VhostResults(rows.executions, rows.origins), |r.results|);
    WholeRows(rules, r);
  }

  lemma WholeRows(rules: Rules, r: CompletedResult)
    ensures ResultRows(rules, r)[..|r.results|] == ResultRows(rules, r)
  {
  }

  lemma ProducersKnown(r: CompletedResult)
    ensures KnownProducers(ExecutionRows(r))
    ensures ReadSources(ExecutionRows(r)) == r.sources
  {
    SourcesReadBack(r, |r.sources| + |r.actions|);
    assert ExecutionRows(r)[..|r.sources| + |r.actions|] == ExecutionRows(r);
    assert r.sources[..|r.sources|] == r.sources;
    hide ReadSources;
  }

  /** What each execution's links and artifacts restore. */
  lemma OneExecution(rules: Rules, r: CompletedResult, os: seq<OriginRow>, links: Links, made: map<nat, seq<Artifact>>,
      p: nat)
    requires Valid(rules, r) && Listing(os, r) && |r.sources| <= p < |r.sources| + |r.actions|
    requires forall q: nat | |r.sources| <= q :: At(links.byAction, q) == Targets(r.results, os, q)
    requires Filed(r, made, |r.actions|, 0)
    ensures Sorted(At(links.byAction, p), ResultKey) == r.actions[p - |r.sources|].observations
    ensures At(made, p) == r.actions[p - |r.sources|].artifacts
  {
    hide Valid, Listing, Sorted, Targets, At, ValidActions, ValidSources, ValidAttributions, PartsDistinct,
      StrictlySorted;
    var n := p - |r.sources|;
    ValidParts(rules, r);
    ValidIsDistinct(rules, r);
    ActionResolves(r, n);
    assert forall x | x in r.actions[n].observations :: x in r.results;
    ActionTargets(r, os, n);
    assert At(made, p) == Shelf(r, |r.actions|, 0, p);
  }

  lemma LinksRestored(rules: Rules, r: CompletedResult, rows: RunRows)
    requires Valid(rules, r) && Saved(rules, r, rows)
    ensures var links := ReadOrigins(rules, rows, rows.origins);
            && links.Ok?
            && Sorted(links.value.bySource, ObservationKey) == r.observations
            && forall p: nat | |r.sources| <= p :: At(links.value.byAction, p) == Targets(r.results, rows.origins, p)
  {
    SavedRows(rules, r, rows);
    LinksAreLinked(rows.origins, r);
    hide Valid, Saved, Resolvable, Faithful, Listing, Linked, ReadOrigins, Sorted, SourceItems, Targets,
      ValidSources, ValidActions, ValidAttributions, StrictlySorted, At, ResultRows, ExecutionRows, ArtifactRows,
      AttributionRows, PartsDistinct;
    RowsAreFaithful(rules, r, rows);
    ValidIsDistinct(rules, r);
    ValidParts(rules, r);
    LinksReadBack(rules, r, rows, rows.origins);
    SourcesRestored(r, rows.origins);
  }

  lemma ArtifactsRestored(rules: Rules, r: CompletedResult, rows: RunRows)
    requires Valid(rules, r) && Saved(rules, r, rows)
    ensures var made := ReadArtifacts(rows, rows.artifacts); made.Ok? && Filed(r, made.value, |r.actions|, 0)
  {
    hide Valid, Saved, Resolvable, Faithful, Listing, ReadArtifacts, Filed, ResultRows, ExecutionRows, ArtifactRows,
      AttributionRows;
    SavedRows(rules, r, rows);
    RowsAreFaithful(rules, r, rows);
    ArtifactsReadBack(rules, r, rows, |r.actions|);
  }

  lemma ActionsRestored(rules: Rules, r: CompletedResult, os: seq<OriginRow>, links: Links,
      made: map<nat, seq<Artifact>>)
    requires Valid(rules, r) && Listing(os, r)
    requires forall q: nat | |r.sources| <= q :: At(links.byAction, q) == Targets(r.results, os, q)
    requires Filed(r, made, |r.actions|, 0)
    ensures ReadActions(ExecutionRows(r), links.byAction, made) == Ok(r.actions)
  {
    hide Valid, Listing, ReadActions, Sorted, Targets, ValidSources, ValidActions, ValidAttributions,
      StrictlySorted, Filed, At;
    ValidParts(rules, r);
    forall p: nat | |r.sources| <= p < |r.sources| + |r.actions|
      ensures Sorted(At(links.byAction, p), ResultKey) == r.actions[p - |r.sources|].observations
      ensures At(made, p) == r.actions[p - |r.sources|].artifacts
    {
      OneExecution(rules, r, os, links, made, p);
    }
    ActionsReadBack(r, links.byAction, made, |r.sources| + |r.actions|);
    assert ExecutionRows(r)[..|r.sources| + |r.actions|] == ExecutionRows(r) && r.actions[..|r.actions|] == r.actions;
  }

  lemma ExecutionsReadBack(rules: Rules, r: CompletedResult, rows: RunRows)
    requires Valid(rules, r) && Saved(rules, r, rows)
    ensures KnownProducers(rows.executions) && ReadSources(rows.executions) == r.sources
    ensures var links := ReadOrigins(rules, rows, rows.origins);
            var made := ReadArtifacts(rows, rows.artifacts);
            && links.Ok? && made.Ok?
            && Sorted(links.value.bySource, ObservationKey) == r.observations
            && ReadActions(rows.executions, links.value.byAction, made.value) == Ok(r.actions)
  {
    hide *;
    SavedRows(rules, r, rows);
    ProducersKnown(r);
    LinksRestored(rules, r, rows);
    ArtifactsRestored(rules, r, rows);
    ActionsRestored(rules, r, rows.origins, ReadOrigins(rules, rows, rows.origins).value,
        ReadArtifacts(rows, rows.artifacts).value);
  }

  lemma LinksAreLinked(os: seq<OriginRow>, r: CompletedResult)
    requires Listing(os, r)
    ensures forall o | o in os :: Linked(r, o)
  {
  }

  lemma AttributionsRestored(rules: Rules, r: CompletedResult, rows: RunRows)
    requires Valid(rules, r) && Saved(rules, r, rows)
    ensures ReadAttributions(rules, rows, rows.attributions) == Ok(r.attributions)
    ensures SortedUnique(r.attributions, AttributionKey) == r.attributions
  {
    hide Valid, Saved, Resolvable, Faithful, Listing, ReadAttributions, ValidSources, ValidActions,
      ValidAttributions, StrictlySorted, SortedUnique, ResultRows, ExecutionRows, ArtifactRows, AttributionRows;
    SavedRows(rules, r, rows);
    ValidParts(rules, r);
    RowsAreFaithful(rules, r, rows);
    AttributionsReadBack(rules, r, rows, |r.attributions|);
    AttributionCount(r);
    assert AttributionRows(r)[..|r.attributions|] == AttributionRows(r);
    assert r.attributions[..|r.attributions|] == r.attributions;
    SortRestores(r.attributions, r.attributions, AttributionKey);
  }

  /** The parts assemble to the run. */
  /** Each kind of structured evidence comes back from its parts. */
  lemma StructuredRestored(rules: Rules, r: CompletedResult)
    requires Valid(rules, r)
    ensures var parts := Parts(r, |r.results|);
            && CanonicalByName(parts.shodan, ShodanIp, ShodanKey(rules)) == Some(r.shodanHosts)
            && CanonicalByName(parts.takeovers, TakeoverName, TakeoverKey) == Some(r.takeovers)
            && SortedUnique(parts.hosts, VirtualHostKey) == r.virtualHosts
            && SortedUnique(parts.network, NetworkKey) == r.network
  {
    var parts := Parts(r, |r.results|);
    PartsExact(rules, r);
    ShodanKeysName(rules);
    CanonicalByNameFixed(r.shodanHosts, ShodanIp, ShodanKey(rules));
    TakeoverKeysName();
    CanonicalByNameFixed(r.takeovers, TakeoverName, TakeoverKey);
    CanonicalNetworkFixed(r.network);
    assert ValidShodan(rules, r) && ValidTakeovers(rules, r) && ValidNetwork(r) && ValidVirtualHosts(rules, r);
    hide Parts, StrictlySorted, SortedUnique, CanonicalByName, CanonicalNetwork, NamesDiffer, ShodanKey, Valid;
    CanonicalByNameRestores(parts.shodan, r.shodanHosts, ShodanIp, ShodanKey(rules));
    CanonicalByNameRestores(parts.takeovers, r.takeovers, TakeoverName, TakeoverKey);
    SortRestores(parts.hosts, r.virtualHosts, VirtualHostKey);
    SortRestores(parts.network, r.network, NetworkKey);
  }

  lemma AssembleRestores(rules: Rules, r: CompletedResult, rows: RunRows, links: Links)
    requires Valid(rules, r) && Saved(rules, r, rows)
    requires Sorted(links.bySource, ObservationKey) == r.observations && ReadSources(rows.executions) == r.sources
    ensures Assemble(rules, rows, Parts(r, |r.results|), links, r.actions, r.attributions) == Ok(r)
  {
    hide Parts, Sorted, SortedUnique, CanonicalByName, ReadSources, ShodanKey, Valid;
    StructuredRestored(rules, r);
    assert Items(rows.results) == r.results;
  }

  /** Loading a saved run takes no error branch and returns the very value that was
      saved, in whatever order its links come back, exactly when every Shodan host of the
      run has canonical details; the constructor does not ask for that, and without it
      loading reports invalid details. */
  lemma LoadRestores(rules: Rules, r: CompletedResult, rows: RunRows)
    requires Valid(rules, r) && Fits(rules, r) && Saved(rules, r, rows)
    ensures ReadRun(rules, rows) ==
              if forall h | h in r.shodanHosts :: rules.canonicalShodan(h) then Ok(r) else Err(InvalidDetails)
  {
    EncodableIffFits(rules, r);
    SoundIffCanonical(rules, r);
    StructuredReadBack(rules, r, rows);
    ExecutionsReadBack(rules, r, rows);
    AttributionsRestored(rules, r, rows);
    AssembleRestores(rules, r, rows, ReadOrigins(rules, rows, rows.origins).value);
    hide Valid, Fits, Saved, Encodable, SoundUpTo, ReadRows, ReadOrigins, ReadArtifacts, ReadActions,
      ReadAttributions, Assemble, Parts, VhostResults, KnownProducers, SortedUnique, Sorted;
  }
}
