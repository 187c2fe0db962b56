/** The findings of a printed run and what parsing makes of them. */
module ResultJsonl {
  import opened Wrappers
  import opened Ordering
  import opened Texts
  import opened EvidenceModel
  import opened EvidenceRows
  import opened EvidenceLoad
  import opened EvidenceDetails
  import Lines = JsonLines

  datatype AttributionDetail = AttributionDetail(
    producerKind: string, producer: string, organizationLabel: string, subject: ResultId, collectedAt: Time)

  /** The structured part of a finding: observations, or the details of a host or takeover. */
  datatype Extra =
    | Hosts(hosts: seq<HostDetail>)
    | Network(details: seq<NetworkDetail>)
    | Attributions(attributions: seq<AttributionDetail>)
    | Shodan(text: string)
    | Takeover(text: string)

  datatype Finding = Finding(
    item: ResultId, sources: seq<string>, actions: Option<seq<string>>, scope: Option<string>, extra: Option<Extra>)

  const EXTERNAL := "external-relationship"

  // ---- printing ----

  function SourcesOf(observations: seq<ResultObservation>, x: ResultId): seq<string> {
    if observations == [] then []
    else
      var before, last := SourcesOf(observations[..|observations| - 1], x), observations[|observations| - 1];
      if last.item == x then before + [last.source] else before
  }

  function ActionsOf(actions: seq<ActionExecution>, x: ResultId): seq<string> {
    if actions == [] then []
    else
      var before, last := ActionsOf(actions[..|actions| - 1], x), actions[|actions| - 1];
      if x in last.observations then before + [last.action] else before
  }

  function ToAttributionDetail(a: Attribution): AttributionDetail {
    AttributionDetail(a.producerKind, a.producer, a.organizationLabel, a.subject, a.collectedAt)
  }

  function StripAsn(xs: seq<Attribution>): seq<AttributionDetail> {
    var ordered := SortedUnique(xs, AttributionKey);
    seq(|ordered|, i requires 0 <= i < |ordered| => ToAttributionDetail(ordered[i]))
  }

  /** None when the details of a prefix are too large to print. */
  function ExtraOf(rules: Rules, r: CompletedResult, x: ResultId): Option<Option<Extra>> {
    var attributions := Group(r.attributions, AttributionAsn, x.value);
    match DetailsOf(rules, r, x)
    case TooLarge => None
    case Stored(HostDetails(hosts)) => Some(Some(Hosts(hosts)))
    case Stored(NetworkDetails(details)) => Some(Some(Network(details)))
    case Stored(ShodanDetails(text)) => Some(Some(Shodan(text)))
    case Stored(TakeoverDetails(text)) => Some(Some(Takeover(text)))
    case Plain => Some(if x.kind == "asn"
        && attributions != [] then Some(Attributions(StripAsn(attributions))) else None)
  }

  function FindingOf(rules: Rules, r: CompletedResult, x: ResultId): Option<Finding> {
    var actions := ActionsOf(r.actions, x);
    match ExtraOf(rules, r, x)
    case None => None
    case Some(extra) =>
      Some(Finding(x, SourcesOf(r.observations, x), if actions != [] then Some(actions) else None,
                   if x.kind == "prefix" then Some(EXTERNAL) else None, extra))
  }

  // ---- parsing ----

  function WithAsn(details: seq<AttributionDetail>, asn: string): seq<Attribution> {
    seq(|details|, i requires 0 <= i < |details| =>
      var d := details[i];
      Attribution(d.producerKind, d.producer, asn, d.organizationLabel, d.subject, d.collectedAt))
  }

  predicate SoundAttributions(rules: Rules, xs: seq<Attribution>) {
    forall i | 0 <= i < |xs| ::
      xs[i].producerKind in {"source", "action"} && xs[i].subject.kind in {"hostname", "ip"}
          && rules.attribute(xs[i]) == Some(xs[i])
  }

  /** The structured part of a finding of this value, checked and in canonical form. */
  function ParseExtra(rules: Rules, x: ResultId, extra: Option<Extra>): Option<Option<Extra>> {
    match extra
    case None => if x.kind in {"shodan-host", "takeover"} then None else Some(None)
    case Some(Hosts(hosts)) =>
      if x.kind != "hostname" then None
      else
        (match ParseHosts(rules, x.value, HostDetails(hosts))
         case None => None
         case Some(parsed) => Some(Some(Hosts(HostDetailsOf(parsed)))))
    case Some(Network(details)) =>
      if x.kind != "prefix" then None
      else
        (match ParseNetwork(rules, x.value, NetworkDetails(details))
         case None => None
         case Some(parsed) =>
           (match NetworkDetailsOf(rules, parsed)
            case None => None
            case Some(canonical) => Some(Some(Network(canonical)))))
    case Some(Attributions(details)) =>
      var read := WithAsn(details, x.value);
      if x.kind != "asn" || details == [] || !SoundAttributions(rules, read) then None
      else Some(Some(Attributions(StripAsn(read))))
    case Some(Shodan(text)) =>
      if x.kind != "shodan-host" || !rules.canonicalShodan(ShodanHost(x.value, text)) then None else Some(extra)
    case Some(Takeover(text)) =>
      if x.kind != "takeover" || !rules.canonicalTakeover(TakeoverOutcome(x.value, text)) then None else Some(extra)
  }

  predicate NamesSound(names: seq<string>) { forall i | 0 <= i < |names| :: NonBlank(names[i]) }

  function Given(names: Option<seq<string>>): seq<string> { if names.Some? then names.value else [] }

  function ParseFinding(rules: Rules, f: Finding): Option<Finding> {
    var kind := f.item.kind;
    if kind !in RESULT_KINDS || !NonBlank(f.item.value) || !NamesSound(f.sources)
        || !NamesSound(Given(f.actions)) then None
    else
      match rules.normalize(kind, f.item.value)
      case None => None
      case Some(value) =>
        if kind == "prefix" && (value != f.item.value || f.scope != Some(EXTERNAL)) then None
        else if kind != "prefix" && f.scope.Some? then None
        else
          match ParseExtra(rules, ResultId(kind, value), f.extra)
          case None => None
          case Some(extra) =>
            Some(Finding(ResultId(kind, value), SortedUnique(f.sources, TextKey),
                         Some(SortedUnique(Given(f.actions), TextKey)), f.scope, extra))
  }

  function ParseFindings(rules: Rules, findings: seq<Finding>): Option<seq<Finding>> {
    if findings == [] then Some([])
    else
      match ParseFindings(rules, findings[..|findings| - 1])
      case None => None
      case Some(before) =>
        match ParseFinding(rules, findings[|findings| - 1])
        case None => None
        case Some(f) => Some(before + [f])
  }

  lemma {:induction false} FailureStays(rules: Rules, findings: seq<Finding>, k: nat)
    requires k <= |findings| && ParseFindings(rules, findings[..k]).None?
    ensures ParseFindings(rules, findings).None?
  {
    hide ParseFinding;
    if k == |findings| {
      assert findings[..k] == findings;
    } else {
      assert findings[..|findings| - 1][..k] == findings[..k];
      FailureStays(rules, findings[..|findings| - 1], k);
    }
  }

  /** The structured part of one record, by the type of its result.  structured is what is
      kept, None when the record has none. */
  method ParseStructured(rules: Rules, x: ResultId, extra: Option<Extra>)
      returns (raised: bool, structured: Option<Extra>)
    ensures raised <==> ParseExtra(rules, x, extra).None?
    ensures !raised ==> structured == ParseExtra(rules, x, extra).value
  {
    hide ParseHosts, ParseNetwork, NetworkDetailsOf, HostDetailsOf, SoundAttributions, WithAsn, StripAsn;
    raised, structured := false, None;
    if extra.Some? && ((extra.value.Hosts? && x.kind != "hostname") || (extra.value.Network? && x.kind != "prefix")
        || (extra.value.Attributions? && x.kind != "asn") || (extra.value.Shodan? && x.kind != "shodan-host")
        || (extra.value.Takeover? && x.kind != "takeover")) {
      return true, None;
    }
    if x.kind == "hostname" && extra.Some? {
      var observations := ParseHosts(rules, x.value, HostDetails(extra.value.hosts));
      if observations.None? { return true, None; }
      structured := Some(Hosts(HostDetailsOf(observations.value)));
    } else if x.kind == "prefix" && extra.Some? {
      var observations := ParseNetwork(rules, x.value, NetworkDetails(extra.value.details));
      if observations.None? { return true, None; }
      var details := NetworkDetailsOf(rules, observations.value);
      if details.None? { return true, None; }
      structured := Some(Network(details.value));
    } else if x.kind == "asn" && extra.Some? {
      var attributions := WithAsn(extra.value.attributions, x.value);
      if extra.value.attributions == [] { return true, None; }
      if !SoundAttributions(rules, attributions) { return true, None; }
      structured := Some(Attributions(StripAsn(attributions)));
    } else if x.kind == "shodan-host" {
      if extra.None? { return true, None; }
      if !rules.canonicalShodan(ShodanHost(x.value, extra.value.text)) { return true, None; }
      structured := extra;
    } else if x.kind == "takeover" {
      if extra.None? { return true, None; }
      if !rules.canonicalTakeover(TakeoverOutcome(x.value, extra.value.text)) { return true, None; }
      structured := extra;
    }
  }

  /** The checks of one record, each of which raises, and what the record becomes. */
  method ParseRecord(rules: Rules, f: Finding) returns (parsed: Option<Finding>)
    ensures parsed == ParseFinding(rules, f)
  {
    hide ParseExtra, SortedUnique;
    var kind, value := f.item.kind, f.item.value;
    var actions := if f.actions.Some? then f.actions.value else [];
    if kind != "prefix" && f.scope.Some? { return None; }
    if kind !in RESULT_KINDS || !NonBlank(value) { return None; }
    if exists i | 0 <= i < |f.sources| :: !NonBlank(f.sources[i]) { return None; }
    if exists i | 0 <= i < |actions| :: !NonBlank(actions[i]) { return None; }
    var normalized := rules.normalize(kind, value);
    if normalized.None? { return None; }
    if kind == "prefix" && normalized.value != value { return None; }
    if kind == "prefix" && f.scope != Some(EXTERNAL) { return None; }
    var raised, structured := ParseStructured(rules, ResultId(kind, normalized.value), f.extra);
    if raised { return None; }
    return Some(Finding(ResultId(kind, normalized.value), SortedUnique(f.sources, TextKey),
        Some(SortedUnique(actions, TextKey)), f.scope, structured));
  }

  /** The loop over the findings, which rewrites each record in place. */
  method ParseRecords(rules: Rules, findings: seq<Finding>) returns (parsed: Option<seq<Finding>>)
    ensures parsed == ParseFindings(rules, findings)
  {
    hide ParseFinding;
    var records := findings;
    for i := 0 to |findings|
      invariant |records| == |findings| && records[i..] == findings[i..]
      invariant ParseFindings(rules, findings[..i]) == Some(records[..i])
    {
      assert findings[..i + 1][..i] == findings[..i] && records[i] == records[i..][0] == findings[i];
      var f := ParseRecord(rules, records[i]);
      if f.None? {
        FailureStays(rules, findings, i + 1);
        return None;
      }
      assert records[i := f.value][..i + 1] == records[..i] + [f.value];
      assert records[i := f.value][i + 1..] == records[i..][1..] == findings[i + 1..];
      records := records[i := f.value];
    }
    assert findings[..|findings|] == findings && records[..|records|] == records;
    return Some(records);
  }

  // ---- parsing what was printed ----

  lemma {:induction false} SourcesMembers(observations: seq<ResultObservation>, x: ResultId)
    ensures forall s :: s in SourcesOf(observations, x) <==> ResultObservation(s, x) in observations
  {
    if observations != [] {
      SourcesMembers(observations[..|observations| - 1], x);
      assert observations == observations[..|observations| - 1] + [observations[|observations| - 1]];
    }
  }

  lemma SameItemLess(a: ResultObservation, b: ResultObservation)
    requires a.item == b.item && KeyLt(ObservationKey(a), ObservationKey(b))
    ensures KeyLt(TextKey(a.source), TextKey(b.source))
  {
    var x, y := ObservationKey(a), ObservationKey(b);
    KeyOrder(x[1..], y[1..]);
    assert x[0] == Text(a.source) && y[0] == Text(b.source) && x[1..] == y[1..];
  }

  /** The sources of a result are printed in order, each once. */
  lemma {:induction false} SourcesSorted(observations: seq<ResultObservation>, x: ResultId)
    requires StrictlySorted(observations, ObservationKey)
    ensures StrictlySorted(SourcesOf(observations, x), TextKey)
  {
    if observations != [] {
      var init, last := observations[..|observations| - 1], observations[|observations| - 1];
      SourcesSorted(init, x);
      SourcesMembers(init, x);
      if last.item == x {
        hide ObservationKey, TextKey, KeyLt;
        forall s | s in SourcesOf(init, x) ensures KeyLt(TextKey(s), TextKey(last.source)) {
          var i :| 0 <= i < |init| && init[i] == ResultObservation(s, x);
          assert observations[i] == init[i];
          SameItemLess(observations[i], last);
        }
      }
    }
  }

  lemma SourceNamesSound(rules: Rules, r: CompletedResult, x: ResultId)
    requires Valid(rules, r)
    ensures NamesSound(SourcesOf(r.observations, x))
    ensures SortedUnique(SourcesOf(r.observations, x), TextKey) == SourcesOf(r.observations, x)
  {
    var names := SourcesOf(r.observations, x);
    SourcesMembers(r.observations, x);
    SourcesSorted(r.observations, x);
    SortRestores(names, names, TextKey);
    hide SourcesOf, ValidActions, ValidVirtualHosts, ValidNetwork, ValidShodan, ValidTakeovers, ValidAttributions,
      StrictlySorted;
    forall i | 0 <= i < |names| ensures NonBlank(names[i]) {
      assert names[i] in names;
      assert ResultObservation(names[i], x) in r.observations;
      var k :| 0 <= k < |r.sources| && r.sources[k].source == names[i];
      assert r.sources[k] in r.sources;
    }
  }

  lemma {:induction false} ActionMembers(actions: seq<ActionExecution>, x: ResultId)
    ensures forall n :: n in ActionsOf(actions, x) <==>
              exists i :: 0 <= i < |actions| && actions[i].action == n && x in actions[i].observations
  {
    if actions != [] {
      var init := actions[..|actions| - 1];
      ActionMembers(init, x);
      forall n
        ensures n in ActionsOf(actions, x) <==>
                  exists i :: 0 <= i < |actions| && actions[i].action == n && x in actions[i].observations
      {
        if i :| 0 <= i < |init| && init[i].action == n && x in init[i].observations { assert actions[i] == init[i]; }
      }
    }
  }

  lemma ActionNamesSound(rules: Rules, r: CompletedResult, x: ResultId)
    requires Valid(rules, r)
    ensures NamesSound(ActionsOf(r.actions, x))
  {
    var names := ActionsOf(r.actions, x);
    ActionMembers(r.actions, x);
    hide ActionsOf, ValidSources, ValidVirtualHosts, ValidNetwork, ValidShodan, ValidTakeovers, ValidAttributions,
      StrictlySorted;
    forall i | 0 <= i < |names| ensures NonBlank(names[i]) {
      assert names[i] in names;
      var k :| 0 <= k < |r.actions| && r.actions[k].action == names[i];
      assert ValidAction(r.results, r.actions[k]);
    }
  }

  lemma AttributionsReadBack(rules: Rules, r: CompletedResult, asn: string)
    requires ValidAttributions(rules, r)
    ensures var group := Group(r.attributions, AttributionAsn, asn);
            && WithAsn(StripAsn(group), asn) == group && SoundAttributions(rules, group)
            && SortedUnique(group, AttributionKey) == group && |StripAsn(group)| == |group|
  {
    var group := Group(r.attributions, AttributionAsn, asn);
    GroupMembers(r.attributions, AttributionAsn, asn);
    GroupSorted(r.attributions, AttributionAsn, asn, AttributionKey);
    SortRestores(group, group, AttributionKey);
    hide Group, StrictlySorted, SortedUnique, AttributionKey;
    forall i | 0 <= i < |group|
      ensures group[i].asn == asn && group[i] in r.attributions
    { assert group[i] in group; }
    assert WithAsn(StripAsn(group), asn) == group;
  }

  /** The structured part that was printed reads back as itself. */
  lemma HostExtra(rules: Rules, r: CompletedResult, x: ResultId)
    requires ValidVirtualHosts(rules, r) && x.kind == "hostname"
    ensures ExtraOf(rules, r, x).Some? && ParseExtra(rules, x, ExtraOf(rules, r, x).value) == ExtraOf(rules, r, x)
  {
    var hosts := Group(r.virtualHosts, VirtualHostName, x.value);
    GroupMembers(r.virtualHosts, VirtualHostName, x.value);
    GroupSorted(r.virtualHosts, VirtualHostName, x.value, VirtualHostKey);
    hide StrictlySorted, Group, SortedUnique, HostDetailsOf, ParseHosts;
    if hosts != [] { HostsReadBack(rules, hosts, x.value); }
  }

  lemma NetworkGroup(rules: Rules, r: CompletedResult, x: ResultId)
    requires ValidNetwork(r) && x.kind == "prefix" && !DetailsOf(rules, r, x).TooLarge?
    requires rules.normalize("prefix", x.value) == Some(x.value)
    ensures var group := Group(r.network, NetworkPrefix, x.value);
            group != [] ==>
              && NetworkDetailsOf(rules, group) == Some(StripPrefix(group))
              && ParseNetwork(rules, x.value, NetworkDetails(StripPrefix(group))) == Some(group)
  {
    hide *;
    CanonicalNetworkFixed(r.network);
    ValidNetworkIsFixed(r);
    GroupMembers(r.network, NetworkPrefix, x.value);
    GroupPrefix(r, x.value);
    GroupCanonical(r.network, x.value);
    NetworkEncodes(rules, r, x);
    if Group(r.network, NetworkPrefix, x.value) != [] {
      NetworkReadsBack(rules, Group(r.network, NetworkPrefix, x.value), x.value);
    }
  }

  lemma ValidNetworkIsFixed(r: CompletedResult)
    requires ValidNetwork(r)
    ensures CanonicalNetwork(r.network) == Some(r.network)
  {
  }

  lemma GroupPrefix(r: CompletedResult, prefix: string)
    ensures forall o | o in Group(r.network, NetworkPrefix, prefix) :: o.prefix == prefix
  {
    GroupMembers(r.network, NetworkPrefix, prefix);
  }

  lemma NetworkExtra(rules: Rules, r: CompletedResult, x: ResultId)
    requires ValidNetwork(r) && x.kind == "prefix" && !DetailsOf(rules, r, x).TooLarge?
    requires rules.normalize("prefix", x.value) == Some(x.value)
    ensures ExtraOf(rules, r, x).Some? && ParseExtra(rules, x, ExtraOf(rules, r, x).value) == ExtraOf(rules, r, x)
  {
    hide ValidNetwork, CanonicalNetwork, Group, ParseNetwork, NetworkDetailsOf, StripPrefix;
    NetworkGroup(rules, r, x);
  }

  lemma AsnExtra(rules: Rules, r: CompletedResult, x: ResultId)
    requires ValidAttributions(rules, r) && x.kind == "asn"
    ensures ExtraOf(rules, r, x).Some? && ParseExtra(rules, x, ExtraOf(rules, r, x).value) == ExtraOf(rules, r, x)
  {
    AttributionsReadBack(rules, r, x.value);
    hide Group, SortedUnique, SoundAttributions, WithAsn, StripAsn;
  }

  lemma ShodanExtra(rules: Rules, r: CompletedResult, x: ResultId)
    requires ValidShodan(rules, r) && x in r.results && x.kind == "shodan-host"
    ensures ExtraOf(rules, r, x).Some?
    ensures ParseExtra(rules, x, ExtraOf(rules, r, x).value) == if ShodanSound(rules, r, x) then ExtraOf(rules, r, x)
              else None
  {
    ShodanAlone(rules, r, x);
    hide Group, ValidShodan;
    var group := Group(r.shodanHosts, ShodanIp, x.value);
    assert group == [group[0]] && group[0] == ShodanHost(x.value, group[0].details);
  }

  lemma TakeoverExtra(rules: Rules, r: CompletedResult, x: ResultId)
    requires ValidTakeovers(rules, r) && x in r.results && x.kind == "takeover"
    ensures ExtraOf(rules, r, x).Some? && ParseExtra(rules, x, ExtraOf(rules, r, x).value) == ExtraOf(rules, r, x)
  {
    TakeoverAlone(rules, r, x);
    hide Group, ValidTakeovers;
    var group := Group(r.takeovers, TakeoverName, x.value);
    assert group == [group[0]] && group[0] == TakeoverOutcome(x.value, group[0].details);
  }

  lemma ExtraReadsBack(rules: Rules, r: CompletedResult, x: ResultId)
    requires Valid(rules, r) && Encodable(rules, r) && x in r.results
    ensures ExtraOf(rules, r, x).Some?
    ensures ParseExtra(rules, x, ExtraOf(rules, r, x).value) == if ShodanSound(rules, r, x) then ExtraOf(rules, r, x)
              else None
  {
    hide ValidSources, ValidActions, ParseHosts, ParseNetwork;
    if x.kind == "hostname" {
      HostExtra(rules, r, x);
    } else if x.kind == "prefix" {
      assert ValidItem(rules, x);
      NetworkExtra(rules, r, x);
    } else if x.kind == "asn" {
      AsnExtra(rules, r, x);
    } else if x.kind == "shodan-host" {
      ShodanExtra(rules, r, x);
    } else if x.kind == "takeover" {
      TakeoverExtra(rules, r, x);
    }
  }

  /** What a printed finding reads as: the same type, value, sources and structured
      details; the actions, always present, in order. */
  function Expected(f: Finding): Finding {
    f.(actions := Some(SortedUnique(Given(f.actions), TextKey)))
  }

  /** Parsing a printed finding gives it back, unless it is a Shodan host whose details
      are not canonical. */
  lemma FindingReadsBack(rules: Rules, r: CompletedResult, x: ResultId)
    requires Valid(rules, r) && Encodable(rules, r) && x in r.results
    ensures FindingOf(rules, r, x).Some?
    ensures ParseFinding(rules, FindingOf(rules, r, x).value) ==
              if ShodanSound(rules, r, x) then Some(Expected(FindingOf(rules, r, x).value)) else None
  {
    hide Valid, Encodable, ExtraOf, ParseExtra, SourcesOf, ActionsOf, NonBlank, NamesSound, SortedUnique,
      ShodanSound;
    ItemIsValid(rules, r, x);
    ExtraReadsBack(rules, r, x);
    SourceNamesSound(rules, r, x);
    ActionNamesSound(rules, r, x);
    NoNames();
  }

  lemma NoNames()
    ensures NamesSound([])
  {
  }

  lemma ItemIsValid(rules: Rules, r: CompletedResult, x: ResultId)
    requires Valid(rules, r) && x in r.results
    ensures x.kind in RESULT_KINDS && NonBlank(x.value) && rules.normalize(x.kind, x.value) == Some(x.value)
  {
    assert ValidItem(rules, x);
  }

  function FindingsUpTo(rules: Rules, r: CompletedResult, n: nat): (findings: seq<Finding>)
    requires n <= |r.results| && forall i | 0 <= i < |r.results| :: FindingOf(rules, r, r.results[i]).Some?
  {
    seq(n, i requires 0 <= i < n => FindingOf(rules, r, r.results[i]).value)
  }

  function ExpectedAll(findings: seq<Finding>): seq<Finding> {
    seq(|findings|, i requires 0 <= i < |findings| => Expected(findings[i]))
  }

  lemma ExpectedStep(findings: seq<Finding>)
    requires findings != []
    ensures ExpectedAll(findings) == ExpectedAll(findings[..|findings| - 1]) + [Expected(findings[|findings| - 1])]
  {
    hide Expected;
  }

  lemma {:induction false} FindingsReadBack(rules: Rules, r: CompletedResult, n: nat)
    requires Valid(rules, r) && Encodable(rules, r) && n <= |r.results|
    requires forall i | 0 <= i < |r.results| :: FindingOf(rules, r, r.results[i]).Some?
    ensures var findings := FindingsUpTo(rules, r, n);
            ParseFindings(rules, findings) == if SoundUpTo(rules, r, n) then Some(ExpectedAll(findings)) else None
  {
    hide Valid, Encodable, FindingOf, ParseFinding, ShodanSound, Expected;
    var findings := FindingsUpTo(rules, r, n);
    if n > 0 {
      FindingsReadBack(rules, r, n - 1);
      FindingReadsBack(rules, r, r.results[n - 1]);
      assert findings[..n - 1] == FindingsUpTo(rules, r, n - 1);
      assert findings[n - 1] == FindingOf(rules, r, r.results[n - 1]).value;
      ExpectedStep(findings);
      hide ExpectedAll;
    } else {
      assert findings == [] && ExpectedAll(findings) == [];
    }
  }

  /** Parsing the findings printed for a run succeeds and gives the same types, values,
      source sets, action sets and structured details, exactly when every Shodan host of
      the run is canonical. */
  lemma ParseUndoesPrint(rules: Rules, r: CompletedResult)
    requires Valid(rules, r) && Fits(rules, r)
    ensures forall i | 0 <= i < |r.results| :: FindingOf(rules, r, r.results[i]).Some?
    ensures var findings := FindingsUpTo(rules, r, |r.results|);
            ParseFindings(rules, findings) ==
              if forall h | h in r.shodanHosts :: rules.canonicalShodan(h)
              then Some(ExpectedAll(findings)) else None
  {
    hide Valid, Fits, Encodable, FindingOf, ParseFindings, SoundUpTo, ExpectedAll;
    EncodableIffFits(rules, r);
    SoundIffCanonical(rules, r);
    forall i | 0 <= i < |r.results| ensures FindingOf(rules, r, r.results[i]).Some? {
      FindingReadsBack(rules, r, r.results[i]);
    }
    FindingsReadBack(rules, r, |r.results|);
  }

  // ---- parsing twice ----

  /** Normalising twice is normalising once, and never leaves a blank value. */
  ghost predicate Idempotent(rules: Rules) {
    forall kind: string, v: string ::
      NonBlank(v) && rules.normalize(kind, v).Some? ==>
        NonBlank(rules.normalize(kind, v).value)
        && rules.normalize(kind, rules.normalize(kind, v).value) == rules.normalize(kind, v)
  }

  lemma VirtualHostKeysDiffer(x: VirtualHost, y: VirtualHost)
    requires VirtualHostKey(x) == VirtualHostKey(y)
    ensures x == y
  {
    assert VirtualHostKey(x)[0] == VirtualHostKey(y)[0] && VirtualHostKey(x)[1] == VirtualHostKey(y)[1];
    assert VirtualHostKey(x)[2..] == x.evidence && VirtualHostKey(y)[2..] == y.evidence;
  }

  lemma HostsParseTwice(rules: Rules, hostname: string, hosts: seq<HostDetail>)
    requires ParseHosts(rules, hostname, HostDetails(hosts)).Some?
    ensures var parsed := ParseHosts(rules, hostname, HostDetails(hosts)).value;
            ParseHosts(rules, hostname, HostDetails(HostDetailsOf(parsed))) == Some(parsed)
  {
    var read := WithHostname(hosts, hostname);
    var parsed := SortedUnique(read, VirtualHostKey);
    forall x, y | x in read && y in read && VirtualHostKey(x) == VirtualHostKey(y) ensures x == y {
      VirtualHostKeysDiffer(x, y);
    }
    SortedUniqueKeeps(read, VirtualHostKey);
    assert read[0] in read && read[0] in parsed;
    forall v | v in parsed ensures v.hostname == hostname && rules.canonicalHost(v) {
      assert v in read;
      var i :| 0 <= i < |read| && read[i] == v;
    }
    hide SortedUnique, StrictlySorted, VirtualHostKey;
    HostsReadBack(rules, parsed, hostname);
  }

  lemma AttributionsParseTwice(rules: Rules, asn: string, details: seq<AttributionDetail>)
    requires details != [] && SoundAttributions(rules, WithAsn(details, asn))
    ensures var again := WithAsn(StripAsn(WithAsn(details, asn)), asn);
            again != [] && SoundAttributions(rules, again) && StripAsn(again) == StripAsn(WithAsn(details, asn))
  {
    var read := WithAsn(details, asn);
    var ordered := SortedUnique(read, AttributionKey);
    AttributionKeysDiffer();
    SortedUniqueKeeps(read, AttributionKey);
    SortRestores(ordered, ordered, AttributionKey);
    assert read[0] in read && read[0] in ordered;
    forall i | 0 <= i < |ordered| ensures ordered[i] in read { assert ordered[i] in ordered; }
    hide SortedUnique, StrictlySorted, AttributionKey;
    var again := WithAsn(StripAsn(read), asn);
    forall i | 0 <= i < |ordered| ensures again[i] == ordered[i] && ordered[i] in read {
      var k :| 0 <= k < |read| && read[k] == ordered[i];
    }
    assert again == ordered;
    forall i | 0 <= i < |again|
      ensures again[i].producerKind in {"source", "action"} && again[i].subject.kind in {"hostname", "ip"}
              && rules.attribute(again[i]) == Some(again[i])
    {
      var k :| 0 <= k < |read| && read[k] == again[i];
    }
  }

  lemma ExtraParsesTwice(rules: Rules, x: ResultId, extra: Option<Extra>)
    requires ParseExtra(rules, x, extra).Some?
    ensures ParseExtra(rules, x, ParseExtra(rules, x, extra).value) == ParseExtra(rules, x, extra)
  {
    hide ParseHosts, ParseNetwork, NetworkDetailsOf, HostDetailsOf, SoundAttributions, WithAsn, StripAsn;
    match extra
    case None =>
    case Some(Hosts(hosts)) => HostsParseTwice(rules, x.value, hosts);
    case Some(Network(details)) => NetworkParsesSame(rules, x.value, details);
    case Some(Attributions(details)) =>
      AttributionsParseTwice(rules, x.value, details);
      WithAsnNotEmpty(details, x.value);
      StripNotEmpty(WithAsn(details, x.value));
    case Some(Shodan(_)) =>
    case Some(Takeover(_)) =>
  }

  lemma NetworkParsesSame(rules: Rules, prefix: string, details: seq<NetworkDetail>)
    requires ParseNetwork(rules, prefix, NetworkDetails(details)).Some?
    ensures NetworkDetailsOf(rules, ParseNetwork(rules, prefix, NetworkDetails(details)).value) == Some(details)
  {
    hide CanonicalNetwork, NetworkDetailsOf, DetailsSize;
  }

  lemma StripNotEmpty(xs: seq<Attribution>)
    requires xs != []
    ensures StripAsn(xs) != []
  {
    AttributionKeysDiffer();
    SortedUniqueKeeps(xs, AttributionKey);
    assert xs[0] in xs && xs[0] in SortedUnique(xs, AttributionKey);
    hide AttributionKey;
  }

  lemma WithAsnNotEmpty(details: seq<AttributionDetail>, asn: string)
    requires details != []
    ensures WithAsn(details, asn) != []
  {
  }

  lemma NamesParseTwice(names: seq<string>)
    requires NamesSound(names)
    ensures NamesSound(SortedUnique(names, TextKey))
    ensures SortedUnique(SortedUnique(names, TextKey), TextKey) == SortedUnique(names, TextKey)
  {
    TextKeysDiffer();
    var ordered := SortedUnique(names, TextKey);
    SortedUniqueKeeps(names, TextKey);
    SortRestores(ordered, ordered, TextKey);
    hide SortedUnique, NonBlank;
    forall i | 0 <= i < |ordered| ensures NonBlank(ordered[i]) {
      assert ordered[i] in ordered && ordered[i] in names;
      var k :| 0 <= k < |names| && names[k] == ordered[i];
    }
  }

  /** Parsing is idempotent: a parsed finding parses to itself. */
  lemma ParsingIsIdempotent(rules: Rules, f: Finding)
    requires Idempotent(rules) && ParseFinding(rules, f).Some?
    ensures ParseFinding(rules, ParseFinding(rules, f).value) == ParseFinding(rules, f)
  {
    var value := rules.normalize(f.item.kind, f.item.value).value;
    assert NonBlank(value) && rules.normalize(f.item.kind, value) == Some(value);
    hide NonBlank, NamesSound, SortedUnique, ParseExtra;
    ExtraParsesTwice(rules, ResultId(f.item.kind, value), f.extra);
    NamesParseTwice(f.sources);
    NamesParseTwice(Given(f.actions));
  }

  // ---- the whole file ----

  /** A record of the file: the summary, whose body this model does not look into, or a
      finding. */
  datatype Record = Summary(body: string) | Entry(finding: Finding)

  function Entries(findings: seq<Finding>): seq<Record> {
    seq(|findings|, i requires 0 <= i < |findings| => Entry(findings[i]))
  }

  function FindingsOf(records: seq<Record>): Option<seq<Finding>> {
    if forall i | 0 <= i < |records| :: records[i].Entry?
    then Some(seq(|records|, i requires 0 <= i < |records| => records[i].finding)) else None
  }

  /** parse_result_jsonl: a summary, then findings. */
  function ParseFile(rules: Rules, codec: Lines.Codec<Record>, text: string): Option<seq<Finding>> {
    match Lines.Decode(codec, text)
    case None => None
    case Some(records) =>
      if records == [] || !records[0].Summary? then None
      else
        match FindingsOf(records[1..])
        case None => None
        case Some(findings) => ParseFindings(rules, findings)
  }

  function FileRecords(rules: Rules, r: CompletedResult, summary: string): seq<Record>
    requires forall i | 0 <= i < |r.results| :: FindingOf(rules, r, r.results[i]).Some?
  {
    [Summary(summary)] + Entries(FindingsUpTo(rules, r, |r.results|))
  }

  lemma EntriesAreFindings(findings: seq<Finding>)
    ensures FindingsOf(Entries(findings)) == Some(findings)
  {
    var records := Entries(findings);
    assert forall i | 0 <= i < |records| :: records[i] == Entry(findings[i]);
    var found := FindingsOf(records).value;
    assert found == findings;
  }

  /** The file printed for a run parses, to the same findings, exactly when no encoded
      record holds one of the three raw line breaks and every Shodan host is canonical. */
  lemma PrintedFileParses(rules: Rules, codec: Lines.Codec<Record>, r: CompletedResult, summary: string)
    requires Valid(rules, r) && Fits(rules, r)
    requires forall i | 0 <= i < |r.results| :: FindingOf(rules, r, r.results[i]).Some?
    requires Lines.AllSound(codec, FileRecords(rules, r, summary))
    ensures ParseFile(rules, codec, Lines.Encode(codec, FileRecords(rules, r, summary))) ==
              if Lines.AllClean(codec, FileRecords(rules, r, summary))
                  && forall h | h in r.shodanHosts :: rules.canonicalShodan(h)
              then Some(ExpectedAll(FindingsUpTo(rules, r, |r.results|))) else None
  {
    hide Valid, Fits, FindingOf, FindingsUpTo, ParseFindings, ExpectedAll, Entries, FindingsOf, Lines.Decode,
      Lines.Encode;
    var records := FileRecords(rules, r, summary);
    var findings := FindingsUpTo(rules, r, |r.results|);
    Lines.DecodeUndoesEncode(codec, records);
    EntriesAreFindings(findings);
    assert records[1..] == Entries(findings);
    ParseUndoesPrint(rules, r);
  }
}
