/** The tables a completed run is written to, and the rows that saving it writes. */
module EvidenceRows {
  import opened Wrappers
  import opened Ordering
  import opened EvidenceModel

  /** details_json, read as JSON: the hostname, prefix, or address itself is left out. */
  datatype Details =
    | HostDetails(hosts: seq<HostDetail>)
    | NetworkDetails(details: seq<NetworkDetail>)
    | ShodanDetails(text: string)
    | TakeoverDetails(text: string)

  datatype HostDetail = HostDetail(endpoint: string, evidence: Key)

  datatype RunRow = RunRow(runId: string, target: string, startedAt: Time, completedAt: Time,
      evidenceStatus: Option<string>)

  datatype ResultRow = ResultRow(position: nat, item: ResultId, details: Option<Details>)

  datatype Producer = Producer(kind: string, name: string)

  datatype ExecutionRow = ExecutionRow(position: nat, producer: Producer, outcome: Outcome, resultCount: int)

  datatype OriginRow = OriginRow(resultPosition: nat, executionPosition: nat)

  datatype ArtifactRow = ArtifactRow(position: nat, resultPosition: nat, executionPosition: nat, file: ArtifactFile)

  datatype AttributionRow = AttributionRow(
    position: nat, asnPosition: nat, subjectPosition: nat, executionPosition: nat,
    organizationLabel: string, collectedAt: Time)

  /** Everything the tables hold about one run. */
  datatype RunRows = RunRows(
    run: RunRow, results: seq<ResultRow>, executions: seq<ExecutionRow>, origins: seq<OriginRow>,
    artifacts: seq<ArtifactRow>, attributions: seq<AttributionRow>)

  // ---- the constraints the tables declare ----

  predicate HasResult(rows: RunRows, p: nat) { exists i | 0 <= i < |rows.results| :: rows.results[i].position == p }

  predicate HasExecution(rows: RunRows, p: nat) {
    exists i | 0 <= i < |rows.executions| :: rows.executions[i].position == p
  }

  predicate PrimaryKeys(rows: RunRows) {
    && (forall i, j | 0 <= i < j < |rows.results| :: rows.results[i].position != rows.results[j].position)
    && (forall i, j | 0 <= i < j < |rows.executions| :: rows.executions[i].position != rows.executions[j].position)
    && (forall i, j | 0 <= i < j < |rows.artifacts| :: rows.artifacts[i].position != rows.artifacts[j].position)
    && (forall i, j | 0 <= i < j < |rows.attributions| ::
        rows.attributions[i].position != rows.attributions[j].position)
    && NoDuplicates(rows.origins)
  }

  predicate UniqueKeys(rows: RunRows) {
    && (forall i, j | 0 <= i < j < |rows.results| :: rows.results[i].item != rows.results[j].item)
    && (forall i, j | 0 <= i < j < |rows.executions| :: rows.executions[i].producer != rows.executions[j].producer)
  }

  predicate ForeignKeys(rows: RunRows) {
    && (forall o | o in rows.origins :: HasResult(rows, o.resultPosition) && HasExecution(rows, o.executionPosition))
    && (forall a | a in rows.artifacts :: HasResult(rows, a.resultPosition) && HasExecution(rows, a.executionPosition))
    && (forall a | a in rows.attributions ::
          HasResult(rows, a.asnPosition) && HasResult(rows, a.subjectPosition)
              && HasExecution(rows, a.executionPosition))
  }

  predicate Checks(rows: RunRows) {
    forall a | a in rows.artifacts :: a.file.sizeBytes >= 0 && ValidSha256(a.file.sha256)
  }

  predicate Constraints(rows: RunRows) {
    PrimaryKeys(rows) && UniqueKeys(rows) && ForeignKeys(rows) && Checks(rows)
  }

  // ---- saving ----

  function ToHostDetail(v: VirtualHost): HostDetail { HostDetail(v.endpoint, v.evidence) }

  function HostDetailsOf(hosts: seq<VirtualHost>): seq<HostDetail> {
    var ordered := SortedUnique(hosts, VirtualHostKey);
    seq(|ordered|, i requires 0 <= i < |ordered| => ToHostDetail(ordered[i]))
  }

  /** Bytes of the encoded array: brackets, items, commas. */
  function DetailsSize(rules: Rules, details: seq<NetworkDetail>): nat {
    if details == [] then 2
    else
      var n := |details| - 1;
      DetailsSize(rules, details[..n]) + rules.encodedSize(details[n]) + (if n > 0 then 1 else 0)
  }

  function StripPrefix(xs: seq<NetworkObservation>): seq<NetworkDetail> {
    seq(|xs|, i requires 0 <= i < |xs| => xs[i].detail)
  }

  /** network_observation_details; None when it raises. */
  function NetworkDetailsOf(rules: Rules, xs: seq<NetworkObservation>): Option<seq<NetworkDetail>> {
    match CanonicalNetwork(xs)
    case None => None
    case Some(canonical) =>
      if DetailsSize(rules, StripPrefix(canonical)) > MAX_DETAILS_BYTES then None else Some(StripPrefix(canonical))
  }

  datatype Encoded = Plain | Stored(details: Details) | TooLarge

  /** The details saved with one result. */
  function DetailsOf(rules: Rules, r: CompletedResult, x: ResultId): Encoded {
    var hosts := Group(r.virtualHosts, VirtualHostName, x.value);
    var network := Group(r.network, NetworkPrefix, x.value);
    var shodan := Group(r.shodanHosts, ShodanIp, x.value);
    var takeovers := Group(r.takeovers, TakeoverName, x.value);
    if x.kind == "hostname" && hosts != [] then Stored(HostDetails(HostDetailsOf(hosts)))
    else if x.kind == "prefix" && network != [] then
      match NetworkDetailsOf(rules, network)
      case Some(details) => Stored(NetworkDetails(details))
      case None => TooLarge
    else if x.kind == "shodan-host" && shodan != [] then Stored(ShodanDetails(shodan[|shodan| - 1].details))
    else if x.kind == "takeover" && takeovers != [] then Stored(TakeoverDetails(takeovers[|takeovers| - 1].details))
    else Plain
  }

  /** No prefix carries more encoded details than the cap. */
  predicate Fits(rules: Rules, r: CompletedResult) {
    forall x | x in r.results && x.kind == "prefix" ::
      DetailsSize(rules, StripPrefix(Group(r.network, NetworkPrefix, x.value))) <= MAX_DETAILS_BYTES
  }

  predicate Encodable(rules: Rules, r: CompletedResult) {
    forall x | x in r.results :: !DetailsOf(rules, r, x).TooLarge?
  }

  function Producers(r: CompletedResult): seq<Producer> {
    seq(|r.sources| + |r.actions|, i requires 0 <= i < |r.sources| + |r.actions| =>
      if i < |r.sources| then Producer("source", r.sources[i].source)
      else Producer("action", r.actions[i - |r.sources|].action))
  }

  /** Every position that saving looks up is there. */
  predicate Resolvable(r: CompletedResult) {
    var producers := Producers(r);
    && (forall k | 0 <= k < |r.observations| ::
          r.observations[k].item in r.results && Producer("source", r.observations[k].source) in producers)
    && (forall i, k | 0 <= i < |r.actions| && 0 <= k < |r.actions[i].observations| ::
          r.actions[i].observations[k] in r.results)
    && (forall i, k | 0 <= i < |r.actions| && 0 <= k < |r.actions[i].artifacts| ::
          r.actions[i].artifacts[k].subject in r.results)
    && (forall i | 0 <= i < |r.actions| :: Producer("action", r.actions[i].action) in producers)
    && (forall k | 0 <= k < |r.attributions| ::
          && ResultId("asn", r.attributions[k].asn) in r.results && r.attributions[k].subject in r.results
          && Producer(r.attributions[k].producerKind, r.attributions[k].producer) in producers)
  }

  function ResultRows(rules: Rules, r: CompletedResult): seq<ResultRow> {
    seq(|r.results|, i requires 0 <= i < |r.results| =>
      var encoded := DetailsOf(rules, r, r.results[i]);
      ResultRow(i, r.results[i], if encoded.Stored? then Some(encoded.details) else None))
  }

  function ExecutionRows(r: CompletedResult): seq<ExecutionRow> {
    seq(|r.sources| + |r.actions|, i requires 0 <= i < |r.sources| + |r.actions| =>
      if i < |r.sources| then
        ExecutionRow(i, Producer("source", r.sources[i].source), r.sources[i].outcome, r.sources[i].resultCount)
      else
        var a := r.actions[i - |r.sources|];
        ExecutionRow(i, Producer("action", a.action), a.outcome, |a.observations|))
  }

  function SourceOrigins(r: CompletedResult): seq<OriginRow>
    requires Resolvable(r)
  {
    seq(|r.observations|, k requires 0 <= k < |r.observations| =>
      OriginRow(LastIndex(r.results, r.observations[k].item),
                LastIndex(Producers(r), Producer("source", r.observations[k].source))))
  }

  function ActionOrigins(r: CompletedResult, n: nat): seq<OriginRow>
    requires Resolvable(r) && n <= |r.actions|
  {
    if n == 0 then []
    else
      var a := r.actions[n - 1];
      ActionOrigins(r, n - 1) + seq(|a.observations|, k requires 0 <= k < |a.observations| =>
        OriginRow(LastIndex(r.results, a.observations[k]), LastIndex(Producers(r), Producer("action", a.action))))
  }

  function ArtifactRows(r: CompletedResult, n: nat): seq<ArtifactRow>
    requires Resolvable(r) && n <= |r.actions|
  {
    if n == 0 then []
    else
      var a, before := r.actions[n - 1], ArtifactRows(r, n - 1);
      before + seq(|a.artifacts|, k requires 0 <= k < |a.artifacts| =>
        ArtifactRow(|before| + k, LastIndex(r.results, a.artifacts[k].subject),
                    LastIndex(Producers(r), Producer("action", a.action)), a.artifacts[k].file))
  }

  function AttributionRows(r: CompletedResult): seq<AttributionRow>
    requires Resolvable(r)
  {
    seq(|r.attributions|, k requires 0 <= k < |r.attributions| =>
      var a := r.attributions[k];
      AttributionRow(k, LastIndex(r.results, ResultId("asn", a.asn)), LastIndex(r.results, a.subject),
                     LastIndex(Producers(r), Producer(a.producerKind, a.producer)), a.organizationLabel, a.collectedAt))
  }

  function RowsOf(rules: Rules, r: CompletedResult): RunRows
    requires Resolvable(r)
  {
    RunRows(
      RunRow(r.runId, r.target, r.startedAt, r.completedAt, r.evidenceStatus),
      ResultRows(rules, r), ExecutionRows(r), SourceOrigins(r) + ActionOrigins(r, |r.actions|),
      ArtifactRows(r, |r.actions|), AttributionRows(r))
  }

  // ---- what a valid run guarantees ----

  lemma {:induction false} FoundByIsAction(actions: seq<ActionExecution>, name: string, x: ResultId)
    requires x in FoundBy(actions, name)
    ensures exists i :: 0 <= i < |actions| && actions[i].action == name && x in actions[i].observations
  {
    if actions[|actions| - 1].action != name {
      FoundByIsAction(actions[..|actions| - 1], name, x);
      var i :| 0 <= i < |actions| - 1 && actions[i].action == name && x in actions[i].observations;
    }
  }

  lemma {:induction false} ActionIsFound(actions: seq<ActionExecution>, i: nat)
    requires forall i, j | 0 <= i < j < |actions| :: actions[i].action != actions[j].action
    requires i < |actions|
    ensures FoundBy(actions, actions[i].action) == actions[i].observations
  {
    if i < |actions| - 1 { ActionIsFound(actions[..|actions| - 1], i); }
  }

  lemma SourcePosition(r: CompletedResult, i: nat)
    requires i < |r.sources|
    requires forall i, j | 0 <= i < j < |r.sources| :: r.sources[i].source != r.sources[j].source
    ensures Producer("source", r.sources[i].source) in Producers(r)
    ensures LastIndex(Producers(r), Producer("source", r.sources[i].source)) == i
  {
    assert Producers(r)[i] == Producer("source", r.sources[i].source);
  }

  lemma ActionPosition(r: CompletedResult, i: nat)
    requires i < |r.actions|
    requires forall i, j | 0 <= i < j < |r.actions| :: r.actions[i].action != r.actions[j].action
    ensures Producer("action", r.actions[i].action) in Producers(r)
    ensures LastIndex(Producers(r), Producer("action", r.actions[i].action)) == |r.sources| + i
  {
    assert Producers(r)[|r.sources| + i] == Producer("action", r.actions[i].action);
  }

  lemma AttributionResolves(rules: Rules, r: CompletedResult, a: Attribution)
    requires ValidSources(r.results, r.sources, r.observations) && ValidActions(r.results, r.actions)
    requires ValidAttributions(rules, r) && a in r.attributions
    ensures Producer(a.producerKind, a.producer) in Producers(r)
  {
    hide ValidAction, ValidOutcome, AttributionKey;
    if a.producerKind == "source" {
      var i :| 0 <= i < |r.sources| && r.sources[i].source == a.producer;
      SourcePosition(r, i);
    } else {
      FoundByIsAction(r.actions, a.producer, a.subject);
      var i :| 0 <= i < |r.actions| && r.actions[i].action == a.producer;
      ActionPosition(r, i);
    }
  }

  lemma ObservationResolves(r: CompletedResult, k: nat)
    requires ValidSources(r.results, r.sources, r.observations) && k < |r.observations|
    ensures r.observations[k].item in r.results && Producer("source", r.observations[k].source) in Producers(r)
  {
    hide ValidOutcome;
    assert r.observations[k] in r.observations;
    var i :| 0 <= i < |r.sources| && r.sources[i].source == r.observations[k].source;
    SourcePosition(r, i);
  }

  lemma ActionResolves(r: CompletedResult, i: nat)
    requires ValidActions(r.results, r.actions) && i < |r.actions|
    ensures Producer("action", r.actions[i].action) in Producers(r)
    ensures forall k | 0 <= k < |r.actions[i].observations| :: r.actions[i].observations[k] in r.results
    ensures forall k | 0 <= k < |r.actions[i].artifacts| :: r.actions[i].artifacts[k].subject in r.results
  {
    ActionPosition(r, i);
    assert ValidAction(r.results, r.actions[i]);
    forall k | 0 <= k < |r.actions[i].artifacts| ensures r.actions[i].artifacts[k].subject in r.results {
      assert ValidArtifact(r.results, r.actions[i].artifacts[k]);
    }
  }

  /** Saving a valid run finds every position it looks up. */
  lemma ValidResolves(rules: Rules, r: CompletedResult)
    requires Valid(rules, r)
    ensures Resolvable(r)
  {
    hide ValidResults, ValidSources, ValidActions, ValidVirtualHosts, ValidNetwork, ValidShodan, ValidTakeovers,
      Producers;
    forall k | 0 <= k < |r.observations|
      ensures r.observations[k].item in r.results && Producer("source", r.observations[k].source) in Producers(r)
    { ObservationResolves(r, k); }
    forall i | 0 <= i < |r.actions|
      ensures Producer("action", r.actions[i].action) in Producers(r)
      ensures forall k | 0 <= k < |r.actions[i].observations| :: r.actions[i].observations[k] in r.results
      ensures forall k | 0 <= k < |r.actions[i].artifacts| :: r.actions[i].artifacts[k].subject in r.results
    { ActionResolves(r, i); }
    forall k | 0 <= k < |r.attributions|
      ensures Producer(r.attributions[k].producerKind, r.attributions[k].producer) in Producers(r)
      ensures ResultId("asn", r.attributions[k].asn) in r.results && r.attributions[k].subject in r.results
    { AttributionResolves(rules, r, r.attributions[k]); }
  }
}
