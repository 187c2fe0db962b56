/** Rebuilding a run from its rows: every check and every error of load_run, row by row. */
module EvidenceLoad {
  import opened Wrappers
  import opened Ordering
  import opened Texts
  import opened EvidenceModel
  import opened EvidenceRows

  datatype StoreError =
    | DuplicateRun
    | DetailsTooLarge
    | NotFound
    | MissingDetails
    | InvalidDetails
    | NotCanonicalDetails
    | UnprovenDetails              // virtual-host details without vhost provenance
    | UnsupportedDetails           // details on a result kind that has none
    | UnknownProducerKind
    | DanglingReference
    | ArtifactWithoutAction
    | CountMismatch
    | InvalidAttribution
    | InvalidValue

  datatype Result<+T> = Ok(value: T) | Err(error: StoreError)

  // ---- structured details ----

  datatype Structured = Structured(
    hosts: seq<VirtualHost>, network: seq<NetworkObservation>, shodan: seq<ShodanHost>, takeovers: seq<TakeoverOutcome>)

  const NOTHING := Structured([], [], [], [])

  function Join(a: Structured, b: Structured): Structured {
    Structured(a.hosts + b.hosts, a.network + b.network, a.shodan + b.shodan, a.takeovers + b.takeovers)
  }

  function WithHostname(details: seq<HostDetail>, hostname: string): seq<VirtualHost> {
    seq(|details|, i requires 0 <= i < |details| => VirtualHost(details[i].endpoint, hostname, details[i].evidence))
  }

  function WithPrefix(details: seq<NetworkDetail>, prefix: string): seq<NetworkObservation> {
    seq(|details|, i requires 0 <= i < |details| => NetworkObservation(prefix, details[i]))
  }

  function ParseHosts(rules: Rules, hostname: string, d: Details): Option<seq<VirtualHost>> {
    if !d.HostDetails? || d.hosts == [] then None
    else
      var hosts := WithHostname(d.hosts, hostname);
      if exists i | 0 <= i < |hosts| :: !rules.canonicalHost(hosts[i]) then None
      else Some(SortedUnique(hosts, VirtualHostKey))
  }

  function ParseNetwork(rules: Rules, prefix: string, d: Details): Option<seq<NetworkObservation>> {
    if !d.NetworkDetails? || d.details == [] || |d.details| > MAX_OBSERVATIONS_PER_PREFIX
       || DetailsSize(rules, d.details) > MAX_DETAILS_BYTES || rules.normalize("prefix", prefix) != Some(prefix)
    then None
    else
      match CanonicalNetwork(WithPrefix(d.details, prefix))
      case None => None
      case Some(canonical) =>
        if NetworkDetailsOf(rules, canonical) == Some(d.details) then Some(canonical) else None
  }

  /** What one result row contributes; provenance says the vhost action found it. */
  function ReadRow(rules: Rules, row: ResultRow, provenance: bool): Result<Structured> {
    var kind, value := row.item.kind, row.item.value;
    if provenance then
      if kind != "hostname" || row.details.None? then Err(MissingDetails)
      else
        match ParseHosts(rules, value, row.details.value)
        case None => Err(InvalidDetails)
        case Some(hosts) =>
          if row.details.value.hosts != HostDetailsOf(hosts) then Err(NotCanonicalDetails)
          else Ok(NOTHING.(hosts := hosts))
    else if kind == "shodan-host" then
      if row.details.None? then Err(MissingDetails)
      else if !row.details.value.ShodanDetails?
          || !rules.canonicalShodan(ShodanHost(value, row.details.value.text)) then
        Err(InvalidDetails)
      else Ok(NOTHING.(shodan := [ShodanHost(value, row.details.value.text)]))
    else if kind == "takeover" then
      if row.details.None? then Err(MissingDetails)
      else if !row.details.value.TakeoverDetails?
              || !rules.canonicalTakeover(TakeoverOutcome(value, row.details.value.text)) then
        Err(InvalidDetails)
      else Ok(NOTHING.(takeovers := [TakeoverOutcome(value, row.details.value.text)]))
    else if row.details.None? then Ok(NOTHING)
    else if kind == "prefix" then
      match ParseNetwork(rules, value, row.details.value)
      case None => Err(InvalidDetails)
      case Some(network) => Ok(NOTHING.(network := network))
    else if kind == "hostname" then Err(UnprovenDetails)
    else Err(UnsupportedDetails)
  }

  function ReadRows(rules: Rules, rows: seq<ResultRow>, vhostResults: set<nat>): Result<Structured> {
    if rows == [] then Ok(NOTHING)
    else
      var row := rows[|rows| - 1];
      match ReadRows(rules, rows[..|rows| - 1], vhostResults)
      case Err(e) => Err(e)
      case Ok(before) =>
        match ReadRow(rules, row, row.position in vhostResults)
        case Err(e) => Err(e)
        case Ok(part) => Ok(Join(before, part))
  }

  // ---- links ----

  function FindResult(rows: seq<ResultRow>, p: nat): Option<ResultId> {
    if rows == [] then None
    else if rows[|rows| - 1].position == p then Some(rows[|rows| - 1].item)
    else FindResult(rows[..|rows| - 1], p)
  }

  lemma {:induction false} FoundResult(rows: seq<ResultRow>, p: nat)
    requires FindResult(rows, p).Some?
    ensures exists i :: 0 <= i < |rows| && rows[i].item == FindResult(rows, p).value
  {
    if rows[|rows| - 1].position != p { FoundResult(rows[..|rows| - 1], p); }
  }

  function FindProducer(rows: seq<ExecutionRow>, p: nat): Option<Producer> {
    if rows == [] then None
    else if rows[|rows| - 1].position == p then Some(rows[|rows| - 1].producer)
    else FindProducer(rows[..|rows| - 1], p)
  }

  const VHOST := Producer("action", "vhost")

  function VhostExecutions(executions: seq<ExecutionRow>): set<nat> {
    set e | e in executions && e.producer == VHOST :: e.position
  }

  function VhostResults(executions: seq<ExecutionRow>, origins: seq<OriginRow>): set<nat> {
    set o | o in origins && o.executionPosition in VhostExecutions(executions) :: o.resultPosition
  }

  /** The value constructors: an unknown kind, a blank or a rejected value raises. */
  function Observe(rules: Rules, x: ResultId): Option<ResultId> {
    if x.kind !in RESULT_KINDS || !NonBlank(x.value) then None
    else
      match rules.normalize(x.kind, x.value)
      case None => None
      case Some(v) => Some(ResultId(x.kind, v))
  }

  datatype Links = Links(bySource: seq<ResultObservation>, byAction: map<nat, seq<ResultId>>)

  function At<T>(m: map<nat, seq<T>>, p: nat): seq<T> { if p in m then m[p] else [] }

  function ReadOrigin(rules: Rules, rows: RunRows, links: Links, o: OriginRow): Result<Links> {
    match (FindProducer(rows.executions, o.executionPosition), FindResult(rows.results, o.resultPosition))
    case (Some(producer), Some(item)) =>
      (match Observe(rules, item)
       case None => Err(InvalidValue)
       case Some(x) =>
         if producer.kind == "source" then
           if NonBlank(producer.name)
               then Ok(links.(bySource := links.bySource + [ResultObservation(producer.name, x)]))
           else Err(InvalidValue)
         else if x.kind == "screenshot" then Err(InvalidValue)
         else
           var p := o.executionPosition;
           Ok(links.(byAction := links.byAction[p := At(links.byAction, p) + [x]])))
    case _ => Err(DanglingReference)
  }

  function ReadOrigins(rules: Rules, rows: RunRows, origins: seq<OriginRow>): Result<Links> {
    if origins == [] then Ok(Links([], map[]))
    else
      match ReadOrigins(rules, rows, origins[..|origins| - 1])
      case Err(e) => Err(e)
      case Ok(links) => ReadOrigin(rules, rows, links, origins[|origins| - 1])
  }

  predicate SoundArtifact(a: Artifact) {
    && NonBlank(a.file.kind) && NonBlank(a.file.path) && NonBlank(a.file.mediaType)
    && a.subject.kind in RESULT_KINDS && a.subject.kind != "screenshot" && NonBlank(a.subject.value)
    && a.file.sizeBytes >= 0 && ValidSha256(a.file.sha256)
  }

  function ReadArtifact(rows: RunRows, made: map<nat, seq<Artifact>>,
      row: ArtifactRow): Result<map<nat, seq<Artifact>>> {
    match FindProducer(rows.executions, row.executionPosition)
    case None => Err(DanglingReference)
    case Some(producer) =>
      if producer.kind != "action" then Err(ArtifactWithoutAction)
      else
        match FindResult(rows.results, row.resultPosition)
        case None => Err(DanglingReference)
        case Some(subject) =>
          if !SoundArtifact(Artifact(subject, row.file)) then Err(InvalidValue)
          else
            var p := row.executionPosition;
            Ok(made[p := At(made, p) + [Artifact(subject, row.file)]])
  }

  function ReadArtifacts(rows: RunRows, artifacts: seq<ArtifactRow>): Result<map<nat, seq<Artifact>>> {
    if artifacts == [] then Ok(map[])
    else
      match ReadArtifacts(rows, artifacts[..|artifacts| - 1])
      case Err(e) => Err(e)
      case Ok(made) => ReadArtifact(rows, made, artifacts[|artifacts| - 1])
  }

  function ReadAction(e: ExecutionRow, observations: seq<ResultId>, artifacts: seq<Artifact>): Result<ActionExecution> {
    if e.resultCount != |observations| then Err(CountMismatch)
    else if !NonBlank(e.producer.name) || !ValidOutcome(e.outcome)
            || !StrictlySorted(observations, ResultKey) || !StrictlySorted(artifacts, ArtifactKey) then
      Err(InvalidValue)
    else Ok(ActionExecution(e.producer.name, e.outcome, observations, artifacts))
  }

  function ReadActions(executions: seq<ExecutionRow>, found: map<nat, seq<ResultId>>, made: map<nat, seq<Artifact>>)
    : Result<seq<ActionExecution>>
  {
    if executions == [] then Ok([])
    else
      var e := executions[|executions| - 1];
      match ReadActions(executions[..|executions| - 1], found, made)
      case Err(error) => Err(error)
      case Ok(before) =>
        if e.producer.kind != "action" then Ok(before)
        else
          match ReadAction(e, Sorted(At(found, e.position), ResultKey), Sorted(At(made, e.position), ArtifactKey))
          case Err(error) => Err(error)
          case Ok(action) => Ok(before + [action])
  }

  function ReadAttribution(rules: Rules, rows: RunRows, row: AttributionRow): Result<Attribution> {
    match (FindResult(rows.results, row.asnPosition), FindResult(rows.results, row.subjectPosition),
           FindProducer(rows.executions, row.executionPosition))
    case (Some(asn), Some(subject), Some(producer)) =>
      if asn.kind != "asn" || producer.kind !in {"source", "action"} || subject.kind !in {"hostname", "ip"} then
        Err(InvalidAttribution)
      else
        (match rules.attribute(Attribution(producer.kind, producer.name, asn.value, row.organizationLabel, subject,
            row.collectedAt))
         case None => Err(InvalidAttribution)
         case Some(a) => Ok(a))
    case _ => Err(DanglingReference)
  }

  function ReadAttributions(rules: Rules, rows: RunRows, attributions: seq<AttributionRow>): Result<seq<Attribution>> {
    if attributions == [] then Ok([])
    else
      match ReadAttributions(rules, rows, attributions[..|attributions| - 1])
      case Err(e) => Err(e)
      case Ok(before) =>
        match ReadAttribution(rules, rows, attributions[|attributions| - 1])
        case Err(e) => Err(e)
        case Ok(a) => Ok(before + [a])
  }

  // ---- the run ----

  function ReadSources(executions: seq<ExecutionRow>): seq<SourceExecution> {
    if executions == [] then []
    else
      var e, before := executions[|executions| - 1], ReadSources(executions[..|executions| - 1]);
      if e.producer.kind == "source" then before + [SourceExecution(e.producer.name, e.outcome, e.resultCount)]
          else before
  }

  predicate KnownProducers(executions: seq<ExecutionRow>) {
    forall e | e in executions :: e.producer.kind in {"source", "action"}
  }

  function Items(rows: seq<ResultRow>): seq<ResultId> {
    seq(|rows|, i requires 0 <= i < |rows| => rows[i].item)
  }

  /** The value the parts make up, if the constructor takes it. */
  function Assemble(rules: Rules, rows: RunRows, s: Structured, links: Links,
                    actions: seq<ActionExecution>, attributions: seq<Attribution>): Result<CompletedResult> {
    match (CanonicalByName(s.shodan, ShodanIp, ShodanKey(rules)),
        CanonicalByName(s.takeovers, TakeoverName, TakeoverKey))
    case (Some(shodan), Some(takeovers)) =>
      var r := CompletedResult(
        rows.run.runId, rows.run.target, rows.run.startedAt, rows.run.completedAt,
        Items(rows.results), ReadSources(rows.executions), Sorted(links.bySource, ObservationKey), actions,
        SortedUnique(s.hosts, VirtualHostKey), SortedUnique(s.network, NetworkKey), attributions,
        shodan, takeovers, rows.run.evidenceStatus);
      if Valid(rules, r) then Ok(r) else Err(InvalidValue)
    case _ => Err(InvalidValue)
  }

  function ReadRun(rules: Rules, rows: RunRows): Result<CompletedResult> {
    match ReadRows(rules, rows.results, VhostResults(rows.executions, rows.origins))
    case Err(e) => Err(e)
    case Ok(structured) =>
      if !KnownProducers(rows.executions) then Err(UnknownProducerKind)
      else
        match ReadOrigins(rules, rows, rows.origins)
        case Err(e) => Err(e)
        case Ok(links) =>
          match ReadArtifacts(rows, rows.artifacts)
          case Err(e) => Err(e)
          case Ok(made) =>
            match ReadActions(rows.executions, links.byAction, made)
            case Err(e) => Err(e)
            case Ok(actions) =>
              match ReadAttributions(rules, rows, rows.attributions)
              case Err(e) => Err(e)
              case Ok(attributions) =>
                if SortedUnique(attributions, AttributionKey) != attributions then Err(InvalidAttribution)
                else Assemble(rules, rows, structured, links, actions, attributions)
  }
}
