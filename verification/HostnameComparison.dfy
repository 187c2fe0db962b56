/** The light loader for hostname comparison: it reads only executions, results and links,
    yet what it reports is what the fully loaded run says. */
module HostnameComparison {
  import opened Wrappers
  import opened Ordering
  import opened EvidenceModel
  import opened EvidenceRows
  import opened EvidenceConstraints
  import opened EvidenceLoad
  import opened EvidenceRoundTrip
  import opened Contributions

  datatype SourceOutcome = SourceOutcome(
    source: string, status: string, errorType: Option<string>, stopReason: Option<string>)

  datatype Comparable = Comparable(
    runId: string, target: string, completedAt: Time,
    outcomes: seq<SourceOutcome>, hostnameSources: map<string, set<string>>, resolved: set<string>,
    dnsStatus: Option<string>, addressability: map<string, string>)

  /** The hostname and the addressability that a classification's JSON text names, if it is
      an object that names both, the second a known one. */
  type Classifier = string -> Option<(string, string)>

  function SourcesOf(m: map<string, set<string>>, hostname: string): set<string> {
    if hostname in m then m[hostname] else {}
  }

  // ---- the light loader ----

  function LinkedHostname(rows: RunRows, o: OriginRow): Option<(Producer, string)> {
    match (FindProducer(rows.executions, o.executionPosition), FindResult(rows.results, o.resultPosition))
    case (Some(producer), Some(x)) => if x.kind == "hostname" then Some((producer, x.value)) else None
    case _ => None
  }

  const DNS_RESOLVE := Producer("action", "dns-resolve")

  function HostnameSources(rows: RunRows, os: seq<OriginRow>): map<string, set<string>> {
    if os == [] then map[]
    else
      var before := HostnameSources(rows, os[..|os| - 1]);
      match LinkedHostname(rows, os[|os| - 1])
      case Some((producer, hostname)) =>
        if producer.kind == "source" then before[hostname := SourcesOf(before, hostname) + {producer.name}] else before
      case None => before
  }

  function ResolvedHostnames(rows: RunRows, os: seq<OriginRow>): set<string> {
    if os == [] then {}
    else
      var before := ResolvedHostnames(rows, os[..|os| - 1]);
      match LinkedHostname(rows, os[|os| - 1])
      case Some((producer, hostname)) => if producer == DNS_RESOLVE then before + {hostname} else before
      case None => before
  }

  function ExecutionName(e: ExecutionRow): Key { [Text(e.producer.name)] }

  function OutcomesOf(executions: seq<ExecutionRow>): seq<SourceOutcome> {
    if executions == [] then []
    else
      var e, before := executions[|executions| - 1], OutcomesOf(executions[..|executions| - 1]);
      if e.producer.kind == "source" then
        before + [SourceOutcome(e.producer.name, e.outcome.status, e.outcome.errorType, e.outcome.stopReason)]
      else before
  }

  function DnsStatus(executions: seq<ExecutionRow>): Option<string> {
    if executions == [] then None
    else if executions[0].producer == DNS_RESOLVE then Some(executions[0].outcome.status)
    else DnsStatus(executions[1..])
  }

  function Classified(x: ResultId, classify: Classifier): Option<(string, string)> {
    if x.kind == "dns-recursive-classification" then classify(x.value) else None
  }

  /** The last result that classifies a hostname decides. */
  function Addressability(items: seq<ResultId>, classify: Classifier): map<string, string> {
    if items == [] then map[]
    else
      var before := Addressability(items[..|items| - 1], classify);
      match Classified(items[|items| - 1], classify)
      case Some((hostname, value)) => before[hostname := value]
      case None => before
  }

  function ItemsOf(rows: seq<ResultRow>): seq<ResultId> {
    seq(|rows|, i requires 0 <= i < |rows| => rows[i].item)
  }

  /** What the light loader reports about these rows. */
  function LightComparable(rows: RunRows, classify: Classifier): Comparable {
    Comparable(rows.run.runId, rows.run.target, rows.run.completedAt,
               OutcomesOf(Sorted(rows.executions, ExecutionName)), HostnameSources(rows, rows.origins),
               ResolvedHostnames(rows, rows.origins), DnsStatus(rows.executions),
               Addressability(ItemsOf(rows.results), classify))
  }

  method LoadHostnameComparisonRun(rows: RunRows, classify: Classifier) returns (c: Comparable)
    ensures c == LightComparable(rows, classify)
  {
    var hostnameSources: map<string, set<string>> := map[];
    var resolvedHostnames: set<string> := {};
    for i := 0 to |rows.origins|
      invariant hostnameSources == HostnameSources(rows, rows.origins[..i])
      invariant resolvedHostnames == ResolvedHostnames(rows, rows.origins[..i])
    {
      assert rows.origins[..i + 1][..i] == rows.origins[..i];
      var linked := LinkedHostname(rows, rows.origins[i]);
      if linked.Some? {
        var producer, hostname := linked.value.0, linked.value.1;
        if producer.kind == "source" {
          hostnameSources := hostnameSources[hostname := SourcesOf(hostnameSources, hostname) + {producer.name}];
        } else if producer.kind == "action" && producer.name == "dns-resolve" {
          resolvedHostnames := resolvedHostnames + {hostname};
        }
      }
    }
    assert rows.origins[..|rows.origins|] == rows.origins;
    var addressability := ClassifyResults(rows.results, classify);
    c := Comparable(rows.run.runId, rows.run.target, rows.run.completedAt,
                    OutcomesOf(Sorted(rows.executions, ExecutionName)), hostnameSources, resolvedHostnames,
                    DnsStatus(rows.executions), addressability);
  }

  method ClassifyResults(results: seq<ResultRow>, classify: Classifier) returns (addressability: map<string, string>)
    ensures addressability == Addressability(ItemsOf(results), classify)
  {
    addressability := map[];
    for i := 0 to |results|
      invariant addressability == Addressability(ItemsOf(results[..i]), classify)
    {
      assert ItemsOf(results[..i + 1]) == ItemsOf(results[..i]) + [results[i].item];
      if results[i].item.kind == "dns-recursive-classification" {
        var classification := classify(results[i].item.value);
        if classification.Some? {
          addressability := addressability[classification.value.0 := classification.value.1];
        }
      }
    }
    assert results[..|results|] == results;
  }

  // ---- the same, from the loaded run ----

  function FullSources(observations: seq<ResultObservation>): map<string, set<string>> {
    if observations == [] then map[]
    else
      var before, o := FullSources(observations[..|observations| - 1]), observations[|observations| - 1];
      if o.item.kind == "hostname" then before[o.item.value := SourcesOf(before, o.item.value) + {o.source}] else before
  }

  function SourceName(s: SourceExecution): Key { [Text(s.source)] }

  function FullOutcomes(sources: seq<SourceExecution>): seq<SourceOutcome> {
    seq(|sources|, i requires 0 <= i < |sources| =>
      SourceOutcome(sources[i].source, sources[i].outcome.status, sources[i].outcome.errorType,
          sources[i].outcome.stopReason))
  }

  function FullResolved(actions: seq<ActionExecution>): set<string> {
    set x | x in FoundBy(actions, "dns-resolve") && x.kind == "hostname" :: x.value
  }

  function FullDnsStatus(actions: seq<ActionExecution>): Option<string> {
    if actions == [] then None
    else if actions[0].action == "dns-resolve" then Some(actions[0].outcome.status)
    else FullDnsStatus(actions[1..])
  }

  /** What a loaded run says about its hostnames. */
  function FullComparable(r: CompletedResult, classify: Classifier): Comparable {
    Comparable(r.runId, r.target, r.completedAt,
               FullOutcomes(Sorted(r.sources, SourceName)), FullSources(r.observations), FullResolved(r.actions),
               FullDnsStatus(r.actions), Addressability(r.results, classify))
  }

  // ---- hostname sources agree ----

  lemma {:induction false} LightIsAttributed(rows: RunRows, os: seq<OriginRow>, hostname: string)
    ensures SourcesOf(HostnameSources(rows, os), hostname)
         == Names(Attribute(rows, "source", None, os), ResultId("hostname", hostname))
    ensures forall h | h in HostnameSources(rows, os) :: HostnameSources(rows, os)[h] != {}
  {
    if os != [] {
      LightIsAttributed(rows, os[..|os| - 1], hostname);
      hide FindProducer, FindResult;
    }
  }

  lemma {:induction false} FullSourcesMembers(observations: seq<ResultObservation>, hostname: string, source: string)
    ensures source in SourcesOf(FullSources(observations), hostname) <==>
              ResultObservation(source, ResultId("hostname", hostname)) in observations
    ensures forall h | h in FullSources(observations) :: FullSources(observations)[h] != {}
  {
    if observations != [] {
      FullSourcesMembers(observations[..|observations| - 1], hostname, source);
      assert observations == observations[..|observations| - 1] + [observations[|observations| - 1]];
    }
  }

  lemma SourceNamed(rules: Rules, r: CompletedResult, rows: RunRows, x: ResultId, source: string)
    requires Valid(rules, r) && Faithful(rows, r) && Listing(rows.origins, r)
    ensures source in Names(Attribute(rows, "source", None, rows.origins), x) <==>
              ResultObservation(source, x) in r.observations
  {
    hide *;
    ListedIsLinked(rows.origins, r);
    AttributeExact(rows, "source", rows.origins, x, source);
    if o :| o in rows.origins && Reports(rows, "source", o, x, source) {
      ReportedBySource(rows, r, o, x, source);
    }
    if ResultObservation(source, x) in r.observations {
      var p := ObservedBySource(rules, r, ResultObservation(source, x));
      SourceAttribution(rules, r, rows, p, x);
    }
  }

  lemma ObservedBySource(rules: Rules, r: CompletedResult, o: ResultObservation) returns (p: nat)
    requires Valid(rules, r) && o in r.observations
    ensures p < |r.sources| && r.sources[p].source == o.source
  {
    p :| p < |r.sources| && r.sources[p].source == o.source;
  }

  lemma ActionNamed(rules: Rules, r: CompletedResult, rows: RunRows, x: ResultId, name: string)
    requires Valid(rules, r) && Faithful(rows, r) && Listing(rows.origins, r)
    ensures name in Names(Attribute(rows, "action", None, rows.origins), x) <==> x in FoundBy(r.actions, name)
  {
    hide *;
    ListedIsLinked(rows.origins, r);
    ActionNamesDiffer(rules, r);
    AttributeExact(rows, "action", rows.origins, x, name);
    if o :| o in rows.origins && Reports(rows, "action", o, x, name) {
      var n := ReportingAction(rows, r, o, x, name);
      ActionAttribution(rules, r, rows, n, x);
      ActionIsFound(r.actions, n);
    }
    if x in FoundBy(r.actions, name) {
      FoundByIsAction(r.actions, name, x);
      var n: nat :| n < |r.actions| && r.actions[n].action == name && x in r.actions[n].observations;
      ActionAttribution(rules, r, rows, n, x);
    }
  }

  lemma ReportingAction(rows: RunRows, r: CompletedResult, o: OriginRow, x: ResultId, name: string) returns (n: nat)
    requires Faithful(rows, r) && Linked(r, o) && Reports(rows, "action", o, x, name)
    ensures n < |r.actions| && r.actions[n].action == name
  {
    NameAtPosition(rows, r, o);
    LinkedInRange(r, o);
    hide Faithful, NameAt, ItemAt;
    n := o.executionPosition - |r.sources|;
  }

  lemma SourcesAgree(rules: Rules, r: CompletedResult, rows: RunRows)
    requires Valid(rules, r) && Faithful(rows, r) && Listing(rows.origins, r)
    ensures HostnameSources(rows, rows.origins) == FullSources(r.observations)
  {
    hide Valid, Faithful, Listing, HostnameSources, FullSources, Names, Attribute;
    var light, full := HostnameSources(rows, rows.origins), FullSources(r.observations);
    forall h, s ensures s in SourcesOf(light, h) <==> s in SourcesOf(full, h) {
      LightIsAttributed(rows, rows.origins, h);
      FullSourcesMembers(r.observations, h, s);
      SourceNamed(rules, r, rows, ResultId("hostname", h), s);
    }
    LightIsAttributed(rows, rows.origins, "");
    FullSourcesMembers(r.observations, "", "");
    SameGroups(light, full);
  }

  lemma SameGroups(a: map<string, set<string>>, b: map<string, set<string>>)
    requires forall h, s :: s in SourcesOf(a, h) <==> s in SourcesOf(b, h)
    requires (forall h | h in a :: a[h] != {}) && forall h | h in b :: b[h] != {}
    ensures a == b
  {
    forall h ensures SourcesOf(a, h) == SourcesOf(b, h) { }
    forall h ensures h in a <==> h in b {
      assert h in a <==> SourcesOf(a, h) != {};
      assert h in b <==> SourcesOf(b, h) != {};
    }
    forall h | h in a ensures a[h] == b[h] { assert SourcesOf(a, h) == SourcesOf(b, h); }
  }

  // ---- resolved hostnames agree ----

  lemma {:induction false} LightResolvedAttributed(rows: RunRows, os: seq<OriginRow>, hostname: string)
    ensures hostname in ResolvedHostnames(rows, os) <==>
              "dns-resolve" in Names(Attribute(rows, "action", None, os), ResultId("hostname", hostname))
  {
    if os != [] {
      LightResolvedAttributed(rows, os[..|os| - 1], hostname);
      hide FindProducer, FindResult;
    }
  }

  lemma ResolvedAgree(rules: Rules, r: CompletedResult, rows: RunRows)
    requires Valid(rules, r) && Faithful(rows, r) && Listing(rows.origins, r)
    ensures ResolvedHostnames(rows, rows.origins) == FullResolved(r.actions)
  {
    hide Valid, Faithful, Listing, ResolvedHostnames, FoundBy, Names, Attribute;
    forall h ensures h in ResolvedHostnames(rows, rows.origins) <==> h in FullResolved(r.actions) {
      LightResolvedAttributed(rows, rows.origins, h);
      ActionNamed(rules, r, rows, ResultId("hostname", h), "dns-resolve");
      assert h in FullResolved(r.actions) <==> ResultId("hostname", h) in FoundBy(r.actions, "dns-resolve");
    }
  }

  // ---- outcomes agree ----

  function ToSource(e: ExecutionRow): SourceExecution { SourceExecution(e.producer.name, e.outcome, e.resultCount) }

  predicate IsSource(executions: seq<ExecutionRow>, s: SourceExecution) {
    exists i | 0 <= i < |executions| :: executions[i].producer.kind == "source" && ToSource(executions[i]) == s
  }

  lemma {:induction false} SourceMembers(executions: seq<ExecutionRow>)
    ensures forall s :: s in ReadSources(executions) <==> IsSource(executions, s)
    ensures OutcomesOf(executions) == FullOutcomes(ReadSources(executions))
  {
    if executions != [] {
      var before, last := executions[..|executions| - 1], executions[|executions| - 1];
      SourceMembers(before);
      forall s ensures IsSource(executions, s) <==>
          IsSource(before, s) || (last.producer.kind == "source" && ToSource(last) == s)
      {
        if i :| 0 <= i < |before| && before[i].producer.kind == "source" && ToSource(before[i]) == s {
          assert executions[i] == before[i];
        }
      }
    }
  }

  /** The source executions among rows ordered by name are themselves ordered by name. */
  lemma {:induction false} SourcesAmong(executions: seq<ExecutionRow>)
    requires InOrder(executions, ExecutionName)
    requires forall i, j | 0 <= i < j < |executions| :: executions[i].producer != executions[j].producer
    ensures StrictlySorted(ReadSources(executions), SourceName)
  {
    if executions != [] {
      var before, last := executions[..|executions| - 1], executions[|executions| - 1];
      SourcesAmong(before);
      SourceMembers(before);
      if last.producer.kind == "source" {
        forall s | s in ReadSources(before) ensures KeyLt(SourceName(s), SourceName(ToSource(last))) {
          assert IsSource(before, s);
          var i :| 0 <= i < |before| && before[i].producer.kind == "source" && ToSource(before[i]) == s;
          var e := executions[i];
          assert !KeyLt(ExecutionName(last), ExecutionName(e)) && e.producer != last.producer;
          KeyOrder(ExecutionName(last), ExecutionName(e));
          assert ExecutionName(last)[0] != ExecutionName(e)[0];
        }
      }
    }
  }

  lemma SourceRowsMatch(r: CompletedResult, s: SourceExecution)
    ensures s in r.sources <==> IsSource(ExecutionRows(r), s)
  {
    if s in r.sources {
      var i :| 0 <= i < |r.sources| && r.sources[i] == s;
      assert ToSource(ExecutionRows(r)[i]) == s;
    }
  }

  lemma SourcesSurvive(xs: seq<ExecutionRow>, ys: seq<ExecutionRow>, s: SourceExecution)
    requires (forall e :: e in xs ==> e in ys) && IsSource(xs, s)
    ensures IsSource(ys, s)
  {
    var i :| 0 <= i < |xs| && xs[i].producer.kind == "source" && ToSource(xs[i]) == s;
    assert xs[i] in ys;
    var j :| 0 <= j < |ys| && ys[j] == xs[i];
  }

  lemma ProducersDistinct(rules: Rules, r: CompletedResult, executions: seq<ExecutionRow>)
    requires PartsDistinct(r) && Permuted(executions, ExecutionRows(r))
    ensures forall i, j | 0 <= i < j < |executions| :: executions[i].producer != executions[j].producer
  {
    ExecutionsUnique(r);
    hide PartsDistinct, ExecutionRows;
    forall i, j | 0 <= i < j < |executions| ensures executions[i].producer != executions[j].producer {
      assert executions[i] in ExecutionRows(r) && executions[j] in ExecutionRows(r);
      var k :| 0 <= k < |ExecutionRows(r)| && ExecutionRows(r)[k] == executions[i];
      var l :| 0 <= l < |ExecutionRows(r)| && ExecutionRows(r)[l] == executions[j];
      assert k < l || l < k;
    }
  }

  lemma SourcesInOrder(r: CompletedResult)
    requires PartsDistinct(r)
    ensures StrictlySorted(Sorted(r.sources, SourceName), SourceName)
    ensures forall s :: s in Sorted(r.sources, SourceName) <==> s in r.sources
  {
    SortedKeeps(r.sources, SourceName);
    var sorted := Sorted(r.sources, SourceName);
    assert NoDuplicates(r.sources);
    forall i, j | 0 <= i < j < |sorted| ensures KeyLt(SourceName(sorted[i]), SourceName(sorted[j])) {
      assert sorted[i] in r.sources && sorted[j] in r.sources && sorted[i] != sorted[j];
      var k :| 0 <= k < |r.sources| && r.sources[k] == sorted[i];
      var l :| 0 <= l < |r.sources| && r.sources[l] == sorted[j];
      assert r.sources[k].source != r.sources[l].source by { assert k < l || l < k; }
      assert SourceName(sorted[i])[0] != SourceName(sorted[j])[0];
      KeyOrder(SourceName(sorted[i]), SourceName(sorted[j]));
    }
  }

  lemma OutcomesAgree(rules: Rules, r: CompletedResult, executions: seq<ExecutionRow>)
    requires PartsDistinct(r) && Permuted(executions, ExecutionRows(r))
    ensures OutcomesOf(Sorted(executions, ExecutionName)) == FullOutcomes(Sorted(r.sources, SourceName))
  {
    var sorted := Sorted(executions, ExecutionName);
    SortedKeeps(executions, ExecutionName);
    SourcesInOrder(r);
    hide PartsDistinct, ExecutionRows, Sorted, StrictlySorted, OutcomesOf, ReadSources, NoDuplicates, InOrder,
      FullOutcomes;
    ProducersDistinct(rules, r, sorted);
    SourcesAmong(sorted);
    SourceMembers(sorted);
    forall s ensures s in ReadSources(sorted) <==> s in Sorted(r.sources, SourceName) {
      SourceRowsMatch(r, s);
      if IsSource(ExecutionRows(r), s) { SourcesSurvive(ExecutionRows(r), sorted, s); }
      if IsSource(sorted, s) { SourcesSurvive(sorted, ExecutionRows(r), s); }
    }
    SortedDetermined(ReadSources(sorted), Sorted(r.sources, SourceName), SourceName);
  }

  // ---- DNS status agrees ----

  lemma {:induction false} DnsStatusIs(executions: seq<ExecutionRow>, e: ExecutionRow)
    requires forall i, j | 0 <= i < j < |executions| :: executions[i].producer != executions[j].producer
    requires e in executions && e.producer == DNS_RESOLVE
    ensures DnsStatus(executions) == Some(e.outcome.status)
  {
    if executions[0] != e {
      assert e in executions[1..];
      DnsStatusIs(executions[1..], e);
    }
  }

  lemma {:induction false} NoDnsStatus(executions: seq<ExecutionRow>)
    requires forall e | e in executions :: e.producer != DNS_RESOLVE
    ensures DnsStatus(executions) == None
  {
    if executions != [] { NoDnsStatus(executions[1..]); }
  }

  lemma {:induction false} FullDnsStatusIs(actions: seq<ActionExecution>)
    ensures FullDnsStatus(actions).None? ==> forall i | 0 <= i < |actions| :: actions[i].action != "dns-resolve"
    ensures FullDnsStatus(actions).Some? ==>
              exists i :: 0 <= i < |actions| && actions[i].action == "dns-resolve"
                          && FullDnsStatus(actions) == Some(actions[i].outcome.status)
  {
    if actions != [] {
      FullDnsStatusIs(actions[1..]);
      assert forall i | 1 <= i < |actions| :: actions[i] == actions[1..][i - 1];
      if actions[0].action != "dns-resolve" && FullDnsStatus(actions[1..]).Some? {
        var i :| 0 <= i < |actions[1..]| && actions[1..][i].action == "dns-resolve"
              && FullDnsStatus(actions) == Some(actions[1..][i].outcome.status);
        assert actions[i + 1].action == "dns-resolve";
      }
    }
  }

  lemma DnsStatusAgrees(rules: Rules, r: CompletedResult, executions: seq<ExecutionRow>)
    requires PartsDistinct(r) && Permuted(executions, ExecutionRows(r))
    ensures DnsStatus(executions) == FullDnsStatus(r.actions)
  {
    ProducersDistinct(rules, r, executions);
    FullDnsStatusIs(r.actions);
    hide PartsDistinct, DnsStatus, FullDnsStatus, NoDuplicates;
    if FullDnsStatus(r.actions).Some? {
      var i :| 0 <= i < |r.actions| && r.actions[i].action == "dns-resolve"
            && FullDnsStatus(r.actions) == Some(r.actions[i].outcome.status);
      var e := ExecutionRows(r)[|r.sources| + i];
      assert e in ExecutionRows(r) && e in executions;
      DnsStatusIs(executions, e);
    } else {
      NoDnsStatus(executions);
    }
  }

  // ---- addressability ----

  /** No two results classify one hostname differently. */
  predicate Unanimous(items: seq<ResultId>, classify: Classifier) {
    forall i, j | 0 <= i < |items| && 0 <= j < |items| :: !Contradict(items[i], items[j], classify)
  }

  predicate Contradict(x: ResultId, y: ResultId, classify: Classifier) {
    match (Classified(x, classify), Classified(y, classify))
    case (Some((hostname, value)), Some((other, differing))) => hostname == other && value != differing
    case _ => false
  }

  lemma {:induction false} AddressabilityIs(items: seq<ResultId>, classify: Classifier, hostname: string)
    ensures var a := Addressability(items, classify);
            && (hostname in a ==>
                exists i :: 0 <= i < |items| && Classified(items[i], classify) == Some((hostname, a[hostname])))
            && (forall i | 0 <= i < |items| && Classified(items[i], classify).Some? ::
                  Classified(items[i], classify).value.0 == hostname ==> hostname in a)
  {
    if items != [] {
      var init := items[..|items| - 1];
      AddressabilityIs(init, classify, hostname);
      var a, before := Addressability(items, classify), Addressability(init, classify);
      assert forall i | 0 <= i < |init| :: items[i] == init[i];
      if hostname in a && Classified(items[|items| - 1], classify) != Some((hostname, a[hostname])) {
        var i :| 0 <= i < |init| && Classified(init[i], classify) == Some((hostname, before[hostname]));
        assert Classified(items[i], classify) == Some((hostname, a[hostname]));
      }
    }
  }

  /** Where the results are unanimous, the order in which they come does not matter. */
  lemma AnyOrderAgrees(items: seq<ResultId>, others: seq<ResultId>, classify: Classifier)
    requires Unanimous(items, classify) && forall x :: x in items <==> x in others
    ensures Addressability(items, classify) == Addressability(others, classify)
  {
    var a, b := Addressability(items, classify), Addressability(others, classify);
    forall hostname ensures hostname in a <==> hostname in b
      ensures hostname in a && hostname in b ==> a[hostname] == b[hostname]
    {
      AddressabilityIs(items, classify, hostname);
      AddressabilityIs(others, classify, hostname);
      hide Addressability, Classified;
      if hostname in a {
        var i :| 0 <= i < |items| && Classified(items[i], classify) == Some((hostname, a[hostname]));
        assert items[i] in items && items[i] in others;
        var k :| 0 <= k < |others| && others[k] == items[i];
      }
      if hostname in b {
        var j :| 0 <= j < |others| && Classified(others[j], classify) == Some((hostname, b[hostname]));
        assert others[j] in others && others[j] in items;
        var k :| 0 <= k < |items| && items[k] == others[j];
        if hostname in a {
          var i :| 0 <= i < |items| && Classified(items[i], classify) == Some((hostname, a[hostname]));
          assert !Contradict(items[i], items[k], classify);
        }
      }
    }
  }

  /** The rows with the one at i moved to the end. */
  function MovedLast(rows: seq<ResultRow>, i: nat): seq<ResultRow>
    requires i < |rows|
  {
    rows[..i] + rows[i + 1..] + [rows[i]]
  }

  lemma MovedIsPermuted(rows: seq<ResultRow>, i: nat)
    requires i < |rows| && NoDuplicates(rows)
    ensures Permuted(MovedLast(rows, i), rows)
  {
    var moved := MovedLast(rows, i);
    assert rows == rows[..i] + [rows[i]] + rows[i + 1..];
    forall j, k | 0 <= j < k < |moved| ensures moved[j] != moved[k] {
      var from := (n: nat) => if n < i then n else if n < |rows| - 1 then n + 1 else i;
      assert moved[j] == rows[from(j)] && moved[k] == rows[from(k)];
    }
  }

  lemma LastDecides(items: seq<ResultId>, classify: Classifier)
    requires items != [] && Classified(items[|items| - 1], classify).Some?
    ensures var last := Classified(items[|items| - 1], classify).value;
            last.0 in Addressability(items, classify) && Addressability(items, classify)[last.0] == last.1
  {
  }

  /** Where two results contradict each other, some order of the rows reports otherwise. */
  lemma SomeOrderDiffers(rows: seq<ResultRow>, classify: Classifier, expected: map<string, string>)
      returns (other: seq<ResultRow>)
    requires NoDuplicates(rows) && !Unanimous(ItemsOf(rows), classify)
    ensures Permuted(other, rows) && Addressability(ItemsOf(other), classify) != expected
  {
    var items := ItemsOf(rows);
    var i, j :| 0 <= i < |items| && 0 <= j < |items| && Contradict(items[i], items[j], classify);
    var mine, theirs := Classified(items[i], classify).value, Classified(items[j], classify).value;
    MovedIsPermuted(rows, i);
    MovedIsPermuted(rows, j);
    var first, second := MovedLast(rows, i), MovedLast(rows, j);
    LastDecides(ItemsOf(first), classify);
    LastDecides(ItemsOf(second), classify);
    hide Addressability, Classified, Permuted;
    other := if mine.0 in expected && expected[mine.0] == mine.1 then second else first;
  }

  /** The light loader's addressability is that of the loaded run in every order of the rows
      exactly when no two results classify one hostname differently. */
  lemma AddressabilityAgreesIff(rules: Rules, r: CompletedResult, classify: Classifier)
    ensures (forall rows | Permuted(rows, ResultRows(rules, r)) ::
               Addressability(ItemsOf(rows), classify) == Addressability(r.results, classify))
       <==> Unanimous(r.results, classify)
  {
    hide Addressability, Classified;
    var saved := ResultRows(rules, r);
    assert ItemsOf(saved) == r.results;
    RowsOnce(rules, r);
    if Unanimous(r.results, classify) {
      forall rows | Permuted(rows, saved)
        ensures Addressability(ItemsOf(rows), classify) == Addressability(r.results, classify)
      {
        SameItems(rows, saved);
        AnyOrderAgrees(r.results, ItemsOf(rows), classify);
      }
    } else {
      var other := SomeOrderDiffers(saved, classify, Addressability(r.results, classify));
      assert Permuted(other, saved);
    }
  }

  lemma RowsOnce(rules: Rules, r: CompletedResult)
    ensures NoDuplicates(ResultRows(rules, r))
  {
    var rows := ResultRows(rules, r);
    assert forall i | 0 <= i < |rows| :: rows[i].position == i;
  }

  lemma SameItems(rows: seq<ResultRow>, saved: seq<ResultRow>)
    requires Permuted(rows, saved)
    ensures forall x :: x in ItemsOf(rows) <==> x in ItemsOf(saved)
  {
    forall x ensures x in ItemsOf(rows) <==> x in ItemsOf(saved) {
      if i :| 0 <= i < |rows| && rows[i].item == x {
        assert rows[i] in rows && rows[i] in saved;
        var k :| 0 <= k < |saved| && saved[k] == rows[i];
        assert ItemsOf(saved)[k] == x;
      }
      if i :| 0 <= i < |saved| && saved[i].item == x {
        assert saved[i] in saved && saved[i] in rows;
        var k :| 0 <= k < |rows| && rows[k] == saved[i];
        assert ItemsOf(rows)[k] == x;
      }
    }
  }

  /** The light loader's report on a saved run, whatever order its rows come back in, is
      what the loaded run itself says; its addressability is where no results contradict. */
  lemma LightAgreesWithFull(rules: Rules, r: CompletedResult, rows: RunRows, classify: Classifier)
    requires Valid(rules, r) && Returned(rules, r, rows)
    requires rows.run == RunRow(r.runId, r.target, r.startedAt, r.completedAt, r.evidenceStatus)
    ensures var light, full := LightComparable(rows, classify), FullComparable(r, classify);
            && light.(addressability := map[]) == full.(addressability := map[])
            && (Unanimous(r.results, classify) ==> light == full)
  {
    ReturnedIsFaithful(rules, r, rows);
    ValidIsDistinct(rules, r);
    assert Permuted(rows.results, ResultRows(rules, r));
    hide Valid, Faithful, Listing, HostnameSources, ResolvedHostnames, OutcomesOf, DnsStatus, Sorted, Permuted,
      PartsDistinct, FullSources, FullResolved, FullDnsStatus, FullOutcomes, Addressability, Unanimous;
    SourcesAgree(rules, r, rows);
    ResolvedAgree(rules, r, rows);
    OutcomesAgree(rules, r, rows.executions);
    DnsStatusAgrees(rules, r, rows.executions);
    AddressabilityAgreesIff(rules, r, classify);
  }
}
