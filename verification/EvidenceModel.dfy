/** A completed run: results, who found them, and the structured evidence beside them,
    with the cross-field conditions its constructor demands. */
module EvidenceModel {
  import opened Wrappers
  import opened Ordering
  import opened Texts

  /** A timezone-aware instant. */
  type Time = int

  datatype ResultId = ResultId(kind: string, value: string)

  datatype Outcome = Outcome(status: string, durationMs: real, errorType: Option<string>, stopReason: Option<string>)

  datatype SourceExecution = SourceExecution(source: string, outcome: Outcome, resultCount: int)

  datatype ResultObservation = ResultObservation(source: string, item: ResultId)

  datatype ArtifactFile = ArtifactFile(
    kind: string, path: string, mediaType: string, sizeBytes: int, sha256: string, createdAt: Time)

  datatype Artifact = Artifact(subject: ResultId, file: ArtifactFile)

  datatype ActionExecution = ActionExecution(
    action: string, outcome: Outcome, observations: seq<ResultId>, artifacts: seq<Artifact>)

  /** evidence holds the remaining fields in the order they are compared. */
  datatype VirtualHost = VirtualHost(endpoint: string, hostname: string, evidence: Key)

  datatype Form =
    | ObservedOrigin
    | BgpRoute(asPath: string, collector: string, communities: string, observedAt: Time,
               peerAddress: string, peerAsn: string)
    | RpkiValidation(observedAt: Time, state: string)

  datatype NetworkDetail = NetworkDetail(action: string, originAsn: string, form: Form, collectedAt: Time)

  datatype NetworkObservation = NetworkObservation(prefix: string, detail: NetworkDetail)

  datatype ShodanHost = ShodanHost(ip: string, details: string)

  datatype TakeoverOutcome = TakeoverOutcome(hostname: string, details: string)

  datatype Attribution = Attribution(
    producerKind: string, producer: string, asn: string, organizationLabel: string, subject: ResultId,
        collectedAt: Time)

  datatype CompletedResult = CompletedResult(
    runId: string, target: string, startedAt: Time, completedAt: Time,
    results: seq<ResultId>,
    sources: seq<SourceExecution>,
    observations: seq<ResultObservation>,
    actions: seq<ActionExecution>,
    virtualHosts: seq<VirtualHost>,
    network: seq<NetworkObservation>,
    attributions: seq<Attribution>,
    shodanHosts: seq<ShodanHost>,
    takeovers: seq<TakeoverOutcome>,
    evidenceStatus: Option<string>)

  /** The codecs this model leaves open.  normalize is normalize_result_value and attribute
      the attribution constructor, None for a rejected value; the canonical predicates say
      that reading the details written for an entity gives the entity back; addressKey is
      the numeric form of an address; encodedSize the bytes of one encoded detail. */
  datatype Rules = Rules(
    normalize: (string, string) -> Option<string>,
    canonicalHost: VirtualHost -> bool,
    canonicalShodan: ShodanHost -> bool,
    canonicalTakeover: TakeoverOutcome -> bool,
    attribute: Attribution -> Option<Attribution>,
    addressKey: string -> Key,
    encodedSize: NetworkDetail -> nat)

  const RESULT_KINDS: set<string> := {
    "analytics", "asn", "breach", "cms", "dns-recursive-classification", "dns-recursive-finding",
    "dns-recursive-summary", "email", "framework", "hostname", "infostealer", "ip", "language",
    "linkedin-person", "person", "prefix", "server", "screenshot", "shodan-host", "takeover",
    "twitter-person", "url" }

  const EXECUTION_STATUSES: set<string> := { "completed", "partial", "failed", "rate-limited", "skipped" }

  const EVIDENCE_STATUSES: set<string> := { "complete", "partial", "failed" }

  const MAX_OBSERVATIONS_PER_PREFIX: nat := 10000

  const MAX_DETAILS_BYTES: nat := 8 * 1024 * 1024

  // ---- sort keys ----

  function ResultKey(x: ResultId): Key { [Text(x.kind), Text(x.value)] }

  function ObservationKey(o: ResultObservation): Key { [Text(o.source), Text(o.item.kind), Text(o.item.value)] }

  function ArtifactKey(a: Artifact): Key {
    [Text(a.file.kind), Text(a.subject.kind), Text(a.subject.value), Text(a.file.path), Text(a.file.mediaType),
     Num(a.file.sizeBytes), Text(a.file.sha256), Num(a.file.createdAt)]
  }

  function VirtualHostKey(v: VirtualHost): Key { [Text(v.endpoint), Text(v.hostname)] + v.evidence }

  function FormKey(f: Form, collectedAt: Time): Key {
    match f
    case ObservedOrigin => [Num(0), Num(collectedAt)]
    case BgpRoute(asPath, collector, communities, observedAt, peerAddress, peerAsn) =>
      [Num(1), Text(asPath), Num(collectedAt), Text(collector), Text(communities), Num(observedAt),
       Text(peerAddress), Text(peerAsn)]
    case RpkiValidation(observedAt, state) => [Num(2), Num(collectedAt), Num(observedAt), Text(state)]
  }

  function NetworkKey(o: NetworkObservation): Key {
    [Text(o.prefix), Text(o.detail.originAsn), Text(o.detail.action)] + FormKey(o.detail.form, o.detail.collectedAt)
  }

  function ShodanKey(rules: Rules): ShodanHost -> Key {
    (h: ShodanHost) => rules.addressKey(h.ip) + [Text(h.ip)]
  }

  function TakeoverKey(o: TakeoverOutcome): Key { [Text(o.hostname)] }

  function AttributionKey(a: Attribution): Key {
    [Text(a.asn), Text(a.producerKind), Text(a.producer), Text(a.organizationLabel), Text(a.subject.kind),
     Text(a.subject.value), Num(a.collectedAt)]
  }

  lemma ResultKeysDiffer()
    ensures forall x: ResultId, y: ResultId :: ResultKey(x) == ResultKey(y) ==> x == y
  {
    forall x: ResultId, y: ResultId | ResultKey(x) == ResultKey(y) ensures x == y {
      assert ResultKey(x)[0] == ResultKey(y)[0] && ResultKey(x)[1] == ResultKey(y)[1];
    }
  }

  lemma AttributionKeysDiffer()
    ensures forall x: Attribution, y: Attribution :: AttributionKey(x) == AttributionKey(y) ==> x == y
  {
    forall x: Attribution, y: Attribution | AttributionKey(x) == AttributionKey(y) ensures x == y {
      var a, b := AttributionKey(x), AttributionKey(y);
      assert a[0] == b[0] && a[1] == b[1] && a[2] == b[2] && a[3] == b[3] && a[4] == b[4] && a[5] == b[5]
          && a[6] == b[6];
    }
  }

  // ---- canonical forms ----

  function NetworkPrefix(o: NetworkObservation): string { o.prefix }

  function ShodanIp(h: ShodanHost): string { h.ip }

  function TakeoverName(o: TakeoverOutcome): string { o.hostname }

  function VirtualHostName(v: VirtualHost): string { v.hostname }

  function ObservationSource(o: ResultObservation): string { o.source }

  function AttributionAsn(a: Attribution): string { a.asn }

  /** One entity per name, in key order; None when two entities of one name differ. */
  function CanonicalByName<T(==)>(xs: seq<T>, name: T -> string, key: T -> Key): Option<seq<T>> {
    if exists i, j | 0 <= i < |xs| && 0 <= j < |xs| :: name(xs[i]) == name(xs[j]) && xs[i] != xs[j] then None
    else Some(SortedUnique(xs, key))
  }

  predicate NamesDiffer<T>(xs: seq<T>, name: T -> string) {
    forall i, j | 0 <= i < j < |xs| :: name(xs[i]) != name(xs[j])
  }

  lemma CanonicalByNameFixed<T(!new)>(xs: seq<T>, name: T -> string, key: T -> Key)
    requires forall x: T, y: T :: key(x) == key(y) ==> name(x) == name(y)
    ensures CanonicalByName(xs, name, key) == Some(xs) <==> StrictlySorted(xs, key) && NamesDiffer(xs, name)
  {
    if CanonicalByName(xs, name, key) == Some(xs) {
      forall x, y | x in xs && y in xs && key(x) == key(y) ensures x == y { }
      SortedFixedPoint(xs, key);
      StrictlySortedDistinct(xs, key);
    }
    if StrictlySorted(xs, key) && NamesDiffer(xs, name) {
      SortRestores(xs, xs, key);
    }
  }

  /** What makes two network observations the same: all but the collection time, and for
      a validation also all but the time it was observed. */
  function Identity(o: NetworkObservation): NetworkObservation {
    var d := o.detail.(collectedAt := 0);
    o.(detail := if d.form.RpkiValidation? then d.(form := d.form.(observedAt := 0)) else d)
  }

  /** Two states for one validation at one instant. */
  predicate Conflicts(a: NetworkObservation, b: NetworkObservation) {
    && a.detail.form.RpkiValidation? && b.detail.form.RpkiValidation?
    && a.prefix == b.prefix && a.detail.action == b.detail.action && a.detail.originAsn == b.detail.originAsn
    && a.detail.form.observedAt == b.detail.form.observedAt && a.detail.form.state != b.detail.form.state
  }

  predicate NoConflicts(xs: seq<NetworkObservation>) {
    forall i, j | 0 <= i < |xs| && 0 <= j < |xs| :: !Conflicts(xs[i], xs[j])
  }

  predicate Seen(xs: seq<NetworkObservation>, o: NetworkObservation) {
    exists i | 0 <= i < |xs| :: Identity(xs[i]) == Identity(o)
  }

  predicate Apart(xs: seq<NetworkObservation>) {
    forall i, j | 0 <= i < j < |xs| :: Identity(xs[i]) != Identity(xs[j])
  }

  function KeepFirst(xs: seq<NetworkObservation>): seq<NetworkObservation> {
    if xs == [] then []
    else
      var before, last := KeepFirst(xs[..|xs| - 1]), xs[|xs| - 1];
      if Seen(before, last) then before else before + [last]
  }

  predicate FewPerPrefix(xs: seq<NetworkObservation>) {
    forall i | 0 <= i < |xs| :: |Group(xs, NetworkPrefix, xs[i].prefix)| <= MAX_OBSERVATIONS_PER_PREFIX
  }

  function CanonicalNetwork(xs: seq<NetworkObservation>): Option<seq<NetworkObservation>> {
    var ordered := SortedUnique(xs, NetworkKey);
    var canonical := SortedUnique(KeepFirst(ordered), NetworkKey);
    if NoConflicts(ordered) && FewPerPrefix(canonical) then Some(canonical) else None
  }

  predicate NetworkIsCanonical(xs: seq<NetworkObservation>) {
    && StrictlySorted(xs, NetworkKey)
    && Apart(xs)
    && NoConflicts(xs)
    && FewPerPrefix(xs)
  }

  lemma NetworkKeyInjective(a: NetworkObservation, b: NetworkObservation)
    requires NetworkKey(a) == NetworkKey(b)
    ensures a == b
  {
    var x, y := NetworkKey(a), NetworkKey(b);
    assert x[0] == y[0] && x[1] == y[1] && x[2] == y[2] && x[3] == y[3];
    assert x[3..] == FormKey(a.detail.form, a.detail.collectedAt);
    assert y[3..] == FormKey(b.detail.form, b.detail.collectedAt);
    assert x[4] == y[4];
    if a.detail.form.BgpRoute? { assert forall k | 5 <= k < 11 :: x[k] == y[k]; }
    if a.detail.form.RpkiValidation? { assert x[5] == y[5] && x[6] == y[6]; }
  }

  lemma {:induction false} KeepFirstWithin(xs: seq<NetworkObservation>)
    ensures forall x :: x in KeepFirst(xs) ==> x in xs
  {
    hide Seen;
    if xs != [] { KeepFirstWithin(xs[..|xs| - 1]); }
  }

  /** First of its identity: nothing kept shares an identity with anything else kept. */
  lemma {:induction false} KeepFirstApart(xs: seq<NetworkObservation>)
    ensures Apart(KeepFirst(xs))
  {
    hide Identity;
    if xs != [] {
      var before, last := KeepFirst(xs[..|xs| - 1]), xs[|xs| - 1];
      KeepFirstApart(xs[..|xs| - 1]);
      assert !Seen(before, last) ==> Apart(before + [last]);
    }
  }

  lemma {:induction false} KeepFirstKeeps(xs: seq<NetworkObservation>)
    requires Apart(xs)
    ensures KeepFirst(xs) == xs
  {
    hide Identity;
    if xs != [] {
      KeepFirstKeeps(xs[..|xs| - 1]);
      assert xs == xs[..|xs| - 1] + [xs[|xs| - 1]];
    }
  }

  lemma NetworkKeysDiffer()
    ensures forall x: NetworkObservation, y: NetworkObservation :: NetworkKey(x) == NetworkKey(y) ==> x == y
  {
    forall x: NetworkObservation, y: NetworkObservation | NetworkKey(x) == NetworkKey(y) ensures x == y {
      NetworkKeyInjective(x, y);
    }
  }

  lemma NoConflictsWithin(xs: seq<NetworkObservation>, ys: seq<NetworkObservation>)
    requires NoConflicts(ys) && forall x :: x in xs ==> x in ys
    ensures NoConflicts(xs)
  {
    hide Conflicts;
    forall i, j | 0 <= i < |xs| && 0 <= j < |xs| ensures !Conflicts(xs[i], xs[j]) {
      assert xs[i] in ys && xs[j] in ys;
    }
  }

  lemma FixedIsCanonical(xs: seq<NetworkObservation>)
    requires CanonicalNetwork(xs) == Some(xs)
    ensures NetworkIsCanonical(xs)
  {
    NetworkKeysDiffer();
    hide NetworkKey, Identity, Conflicts, SortedUnique, KeepFirst, FewPerPrefix;
    var ordered := SortedUnique(xs, NetworkKey);
    var kept := KeepFirst(ordered);
    SortedUniqueKeeps(xs, NetworkKey);
    KeepFirstWithin(ordered);
    KeepFirstApart(ordered);
    SortedUniqueKeeps(kept, NetworkKey);
    StrictlySortedDistinct(xs, NetworkKey);
    assert forall x :: x in xs <==> x in kept;
    NoConflictsWithin(xs, ordered);
    forall i, j | 0 <= i < j < |xs| ensures Identity(xs[i]) != Identity(xs[j]) {
      assert xs[i] in kept && xs[j] in kept;
      var k :| 0 <= k < |kept| && kept[k] == xs[i];
      var l :| 0 <= l < |kept| && kept[l] == xs[j];
      assert k < l || l < k;
    }
  }

  lemma CanonicalIsFixed(xs: seq<NetworkObservation>)
    requires NetworkIsCanonical(xs)
    ensures CanonicalNetwork(xs) == Some(xs)
  {
    SortRestores(xs, xs, NetworkKey);
    KeepFirstKeeps(xs);
    hide NetworkKey, Identity, Conflicts, SortedUnique, KeepFirst, FewPerPrefix;
  }

  /** "xs equals its canonical form" means: sorted, one observation per identity, no
      conflicting validations, and a bounded number per prefix. */
  lemma CanonicalNetworkFixed(xs: seq<NetworkObservation>)
    ensures CanonicalNetwork(xs) == Some(xs) <==> NetworkIsCanonical(xs)
  {
    if CanonicalNetwork(xs) == Some(xs) { FixedIsCanonical(xs); }
    if NetworkIsCanonical(xs) { CanonicalIsFixed(xs); }
  }

  // ---- the constructor's conditions ----

  /** What the action of this name found; actions are unique by name. */
  function FoundBy(actions: seq<ActionExecution>, name: string): seq<ResultId> {
    if actions == [] then []
    else if actions[|actions| - 1].action == name then actions[|actions| - 1].observations
    else FoundBy(actions[..|actions| - 1], name)
  }

  predicate ValidOutcome(o: Outcome) {
    o.status in EXECUTION_STATUSES && o.durationMs >= 0.0
  }

  predicate ValidItem(rules: Rules, x: ResultId) {
    x.kind in RESULT_KINDS && NonBlank(x.value) && rules.normalize(x.kind, x.value) == Some(x.value)
  }

  predicate ValidResults(rules: Rules, results: seq<ResultId>) {
    (forall x | x in results :: ValidItem(rules, x)) && StrictlySorted(results, ResultKey)
  }

  predicate ValidSources(results: seq<ResultId>, sources: seq<SourceExecution>, observations: seq<ResultObservation>) {
    && (forall i, j | 0 <= i < j < |sources| :: sources[i].source != sources[j].source)
    && (forall s | s in sources ::
          && NonBlank(s.source) && ValidOutcome(s.outcome)
          && s.resultCount == |Group(observations, ObservationSource, s.source)|)
    && StrictlySorted(observations, ObservationKey)
    && (forall o | o in observations ::
          o.item in results && exists i | 0 <= i < |sources| :: sources[i].source == o.source)
  }

  predicate ValidSha256(s: string) {
    |s| == 64 && forall c | c in s :: '0' <= c <= '9' || 'a' <= c <= 'f'
  }

  predicate ValidArtifact(results: seq<ResultId>, a: Artifact) {
    && NonBlank(a.file.kind) && NonBlank(a.file.path) && NonBlank(a.file.mediaType)
    && a.file.sizeBytes >= 0 && ValidSha256(a.file.sha256)
    && a.subject.kind != "screenshot" && a.subject in results
  }

  predicate ValidAction(results: seq<ResultId>, a: ActionExecution) {
    && NonBlank(a.action) && ValidOutcome(a.outcome)
    && StrictlySorted(a.observations, ResultKey) && StrictlySorted(a.artifacts, ArtifactKey)
    && (forall x | x in a.observations :: x in results && x.kind != "screenshot")
    && (forall f | f in a.artifacts :: ValidArtifact(results, f))
  }

  predicate ValidActions(results: seq<ResultId>, actions: seq<ActionExecution>) {
    && (forall i, j | 0 <= i < j < |actions| :: actions[i].action != actions[j].action)
    && (forall a | a in actions :: ValidAction(results, a))
  }

  predicate EndsWith(s: string, suffix: string) {
    |s| >= |suffix| && s[|s| - |suffix|..] == suffix
  }

  /** Structured virtual-host evidence is exactly what the vhost action found. */
  predicate ValidVirtualHosts(rules: Rules, r: CompletedResult) {
    var scope := rules.normalize("hostname", r.target);
    && StrictlySorted(r.virtualHosts, VirtualHostKey)
    && (forall v | v in r.virtualHosts ::
          scope.Some? && EndsWith(v.hostname, "." + scope.value) && rules.canonicalHost(v))
    && (forall v | v in r.virtualHosts :: ResultId("hostname", v.hostname) in FoundBy(r.actions, "vhost"))
    && (forall x | x in FoundBy(r.actions, "vhost") ::
          x.kind == "hostname" && Group(r.virtualHosts, VirtualHostName, x.value) != [])
  }

  const MAX_TEXT_LENGTH: nat := 65536

  /** Category Cc. */
  predicate Control(c: char) { c <= '\U{1F}' || '\U{7F}' <= c <= '\U{9F}' }

  predicate Clear(s: string, limit: nat) { |s| <= limit && forall i | 0 <= i < |s| :: !Control(s[i]) }

  predicate ValidName(s: string) { s != "" && Strip(s) == s && Clear(s, 255) }

  /** The constructors of network observations; the canonical forms of prefix, numbers and
      addresses aside. */
  predicate ValidObservation(o: NetworkObservation) {
    && ValidName(o.detail.action)
    && match o.detail.form
       case ObservedOrigin => true
       case BgpRoute(asPath, collector, communities, observedAt, _, _) =>
         && ValidName(collector) && NonBlank(asPath) && Clear(asPath, MAX_TEXT_LENGTH)
             && Clear(communities, MAX_TEXT_LENGTH)
         && observedAt <= o.detail.collectedAt
       case RpkiValidation(observedAt, state) =>
         state in {"valid", "invalid", "not-found"} && observedAt <= o.detail.collectedAt
  }

  predicate ValidNetwork(r: CompletedResult) {
    && CanonicalNetwork(r.network) == Some(r.network)
    && (forall o | o in r.network :: ValidObservation(o))
    && forall o | o in r.network ::
         && r.startedAt <= o.detail.collectedAt <= r.completedAt
         && ResultId("prefix", o.prefix) in r.results && ResultId("asn", o.detail.originAsn) in r.results
         && ResultId("prefix", o.prefix) in FoundBy(r.actions, o.detail.action)
         && (o.detail.form.ObservedOrigin? ||
             exists b | b in r.network ::
               && b.prefix == o.prefix && b.detail.action == o.detail.action
               && b.detail.originAsn == o.detail.originAsn && b.detail.form.ObservedOrigin?)
  }

  predicate ValidShodan(rules: Rules, r: CompletedResult) {
    && CanonicalByName(r.shodanHosts, ShodanIp, ShodanKey(rules)) == Some(r.shodanHosts)
    && (forall h | h in r.shodanHosts ::
          var x := ResultId("shodan-host", h.ip);
          x in r.results && (ResultObservation("shodan", x) in r.observations || x in FoundBy(r.actions, "shodan")))
    && (forall x | x in r.results && x.kind == "shodan-host" :: Group(r.shodanHosts, ShodanIp, x.value) != [])
  }

  predicate ValidTakeovers(rules: Rules, r: CompletedResult) {
    var scope := rules.normalize("hostname", r.target);
    && CanonicalByName(r.takeovers, TakeoverName, TakeoverKey) == Some(r.takeovers)
    && (forall o | o in r.takeovers ::
          && rules.canonicalTakeover(o)
          && scope.Some? && (o.hostname == scope.value || EndsWith(o.hostname, "." + scope.value))
          && ResultId("takeover", o.hostname) in r.results
          && ResultId("takeover", o.hostname) in FoundBy(r.actions, "takeover"))
    && (forall x | x in r.results && x.kind == "takeover" :: Group(r.takeovers, TakeoverName, x.value) != [])
  }

  predicate ProducerFound(r: CompletedResult, producerKind: string, producer: string, x: ResultId) {
    if producerKind == "source" then ResultObservation(producer, x) in r.observations
    else x in FoundBy(r.actions, producer)
  }

  predicate ValidAttributions(rules: Rules, r: CompletedResult) {
    && StrictlySorted(r.attributions, AttributionKey)
    && forall a | a in r.attributions ::
         && a.producerKind in {"source", "action"} && a.subject.kind in {"hostname", "ip"}
         && rules.attribute(a) == Some(a)
         && r.startedAt <= a.collectedAt <= r.completedAt
         && ResultId("asn", a.asn) in r.results && a.subject in r.results
         && ProducerFound(r, a.producerKind, a.producer, ResultId("asn", a.asn))
         && ProducerFound(r, a.producerKind, a.producer, a.subject)
  }

  /** CompletedResult.__post_init__ and the constructors of its parts. */
  predicate Valid(rules: Rules, r: CompletedResult) {
    && NonBlank(r.target) && r.startedAt <= r.completedAt
    && (r.evidenceStatus.Some? ==> r.evidenceStatus.value in EVIDENCE_STATUSES)
    && ValidResults(rules, r.results)
    && ValidSources(r.results, r.sources, r.observations)
    && ValidActions(r.results, r.actions)
    && ValidVirtualHosts(rules, r)
    && ValidNetwork(r)
    && ValidShodan(rules, r)
    && ValidTakeovers(rules, r)
    && ValidAttributions(rules, r)
  }
}
