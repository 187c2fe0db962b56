/** What a printed and parsed finding tells of the run it comes from: who found the result,
    and which structured evidence the run holds of it. */
module ResultFindings {
  import opened Wrappers
  import opened Ordering
  import opened EvidenceModel
  import opened EvidenceRows
  import opened EvidenceLoad
  import opened EvidenceDetails
  import opened ResultJsonl
  import Lines = JsonLines

  // ---- printing, in the loops of the program ----

  function Listed(byResult: map<ResultId, seq<string>>, x: ResultId): seq<string> {
    if x in byResult then byResult[x] else []
  }

  /** Groups the sources of every result, in the order of the observations. */
  method GroupSources(observations: seq<ResultObservation>) returns (byResult: map<ResultId, seq<string>>)
    ensures forall x: ResultId :: Listed(byResult, x) == SourcesOf(observations, x)
  {
    byResult := map[];
    for i := 0 to |observations|
      invariant forall x: ResultId :: Listed(byResult, x) == SourcesOf(observations[..i], x)
    {
      assert observations[..i + 1][..i] == observations[..i];
      var o := observations[i];
      byResult := byResult[o.item := Listed(byResult, o.item) + [o.source]];
    }
    assert observations[..|observations|] == observations;
  }

  /** Groups the actions of every result, in the order of the executions. */
  method GroupActions(actions: seq<ActionExecution>) returns (byResult: map<ResultId, seq<string>>)
    requires forall i | 0 <= i < |actions| :: NoDuplicates(actions[i].observations)
    ensures forall x: ResultId :: Listed(byResult, x) == ActionsOf(actions, x)
  {
    hide NoDuplicates;
    byResult := map[];
    for i := 0 to |actions|
      invariant forall x: ResultId :: Listed(byResult, x) == ActionsOf(actions[..i], x)
    {
      assert actions[..i + 1][..i] == actions[..i];
      var found := actions[i].observations;
      for j := 0 to |found|
        invariant forall x: ResultId ::
                    Listed(byResult, x) ==
                      ActionsOf(actions[..i], x) + if x in found[..j] then [actions[i].action] else []
      {
        NotBefore(found, j);
        assert found[..j + 1] == found[..j] + [found[j]];
        byResult := byResult[found[j] := Listed(byResult, found[j]) + [actions[i].action]];
      }
      assert found[..|found|] == found;
    }
    assert actions[..|actions|] == actions;
  }

  lemma NotBefore<T>(xs: seq<T>, j: nat)
    requires j < |xs| && NoDuplicates(xs)
    ensures xs[j] !in xs[..j]
  {
  }

  /** One record per result, in order; none when the details of a prefix are too large. */
  method ResultRecords(rules: Rules, r: CompletedResult) returns (records: Option<seq<Finding>>)
    requires forall i | 0 <= i < |r.actions| :: NoDuplicates(r.actions[i].observations)
    ensures records.None? <==> exists i | 0 <= i < |r.results| :: FindingOf(rules, r, r.results[i]).None?
    ensures records.Some? ==> records.value == FindingsUpTo(rules, r, |r.results|)
  {
    hide SourcesOf, ActionsOf, ExtraOf, NoDuplicates, Listed;
    var sources := GroupSources(r.observations);
    var actions := GroupActions(r.actions);
    var written := [];
    for i := 0 to |r.results|
      invariant |written| == i
      invariant forall k | 0 <= k < i :: FindingOf(rules, r, r.results[k]) == Some(written[k])
    {
      var x := r.results[i];
      var extra := ExtraOf(rules, r, x);
      if extra.None? { return None; }
      var finders := Listed(actions, x);
      written := written + [Finding(x, Listed(sources, x), if finders == [] then None else Some(finders),
                                    if x.kind == "prefix" then Some(EXTERNAL) else None, extra.value)];
    }
    assert written == FindingsUpTo(rules, r, |r.results|);
    return Some(written);
  }

  // ---- what a finding tells of its run ----

  ghost predicate FoundByAction(r: CompletedResult, name: string, x: ResultId) {
    exists i :: 0 <= i < |r.actions| && r.actions[i].action == name && x in r.actions[i].observations
  }

  /** The sources named are those that observed the result, and the actions those that did. */
  ghost predicate TellsFinders(f: Finding, r: CompletedResult, x: ResultId) {
    && (forall s :: s in f.sources <==> ResultObservation(s, x) in r.observations)
    && (forall n :: n in Given(f.actions) <==> FoundByAction(r, n, x))
  }

  /** Nothing structured in the run belongs to the result. */
  predicate NothingOf(r: CompletedResult, x: ResultId) {
    && (x.kind == "hostname" ==> forall v | v in r.virtualHosts :: v.hostname != x.value)
    && (x.kind == "prefix" ==> forall o | o in r.network :: o.prefix != x.value)
    && (x.kind == "asn" ==> forall a | a in r.attributions :: a.asn != x.value)
    && (x.kind == "shodan-host" ==> forall h | h in r.shodanHosts :: h.ip != x.value)
    && (x.kind == "takeover" ==> forall o | o in r.takeovers :: o.hostname != x.value)
  }

  /** With the value of the result put back, the details are exactly the structured evidence
      that the run holds of it, each piece once and in order. */
  ghost predicate TellsEvidence(extra: Option<Extra>, r: CompletedResult, x: ResultId) {
    match extra
    case None => NothingOf(r, x)
    case Some(Hosts(ds)) =>
      && x.kind == "hostname" && StrictlySorted(WithHostname(ds, x.value), VirtualHostKey)
      && forall v :: v in WithHostname(ds, x.value) <==> v in r.virtualHosts && v.hostname == x.value
    case Some(Network(ds)) =>
      && x.kind == "prefix" && StrictlySorted(WithPrefix(ds, x.value), NetworkKey)
      && forall o :: o in WithPrefix(ds, x.value) <==> o in r.network && o.prefix == x.value
    case Some(Attributions(ds)) =>
      && x.kind == "asn" && StrictlySorted(WithAsn(ds, x.value), AttributionKey)
      && forall a :: a in WithAsn(ds, x.value) <==> a in r.attributions && a.asn == x.value
    case Some(Shodan(text)) =>
      x.kind == "shodan-host" && forall h :: h in r.shodanHosts && h.ip == x.value <==> h == ShodanHost(x.value, text)
    case Some(Takeover(text)) =>
      x.kind == "takeover"
      && forall o :: o in r.takeovers && o.hostname == x.value <==> o == TakeoverOutcome(x.value, text)
  }

  /** The finding is about this result, and tells all that the run knows of it. */
  ghost predicate Tells(f: Finding, r: CompletedResult, x: ResultId) {
    && f.item == x && (f.scope == if x.kind == "prefix" then Some(EXTERNAL) else None)
    && StrictlySorted(f.sources, TextKey) && TellsFinders(f, r, x) && TellsEvidence(f.extra, r, x)
  }

  lemma NoneOf<T(!new)>(xs: seq<T>, name: T -> string, wanted: string)
    ensures Group(xs, name, wanted) == [] <==> forall x | x in xs :: name(x) != wanted
  {
    GroupMembers(xs, name, wanted);
    hide Group;
    var group := Group(xs, name, wanted);
    if group != [] { assert group[0] in group; }
  }

  lemma HostsTold(rules: Rules, r: CompletedResult, x: ResultId)
    requires ValidVirtualHosts(rules, r) && x.kind == "hostname"
    ensures ExtraOf(rules, r, x).Some? && TellsEvidence(ExtraOf(rules, r, x).value, r, x)
  {
    var hosts := Group(r.virtualHosts, VirtualHostName, x.value);
    NoneOf(r.virtualHosts, VirtualHostName, x.value);
    GroupMembers(r.virtualHosts, VirtualHostName, x.value);
    GroupSorted(r.virtualHosts, VirtualHostName, x.value, VirtualHostKey);
    StrictlySortedIsFixed(hosts, VirtualHostKey);
    hide StrictlySorted, Group, SortedUnique, ValidVirtualHosts, VirtualHostKey;
    var back := WithHostname(HostDetailsOf(hosts), x.value);
    forall i | 0 <= i < |hosts| ensures back[i] == hosts[i] { assert hosts[i] in hosts; }
    assert back == hosts;
  }

  lemma NetworkExtraIs(rules: Rules, r: CompletedResult, x: ResultId)
    requires ValidNetwork(r) && x.kind == "prefix" && !DetailsOf(rules, r, x).TooLarge?
    requires rules.normalize("prefix", x.value) == Some(x.value)
    ensures var group := Group(r.network, NetworkPrefix, x.value);
            ExtraOf(rules, r, x) == Some(if group == [] then None else Some(Network(StripPrefix(group))))
  {
    NetworkGroup(rules, r, x);
    hide ValidNetwork, Group, ParseNetwork, NetworkDetailsOf, StripPrefix;
  }

  lemma PrefixPutBack(group: seq<NetworkObservation>, prefix: string)
    requires forall o | o in group :: o.prefix == prefix
    ensures WithPrefix(StripPrefix(group), prefix) == group
  {
    var back := WithPrefix(StripPrefix(group), prefix);
    forall i | 0 <= i < |group| ensures back[i] == group[i] { assert group[i] in group; }
  }

  lemma NetworkTold(rules: Rules, r: CompletedResult, x: ResultId)
    requires ValidNetwork(r) && x.kind == "prefix" && !DetailsOf(rules, r, x).TooLarge?
    requires rules.normalize("prefix", x.value) == Some(x.value)
    ensures ExtraOf(rules, r, x).Some? && TellsEvidence(ExtraOf(rules, r, x).value, r, x)
  {
    hide *;
    ValidNetworkIsSorted(r);
    var group := Group(r.network, NetworkPrefix, x.value);
    NetworkExtraIs(rules, r, x);
    NoneOf(r.network, NetworkPrefix, x.value);
    GroupMembers(r.network, NetworkPrefix, x.value);
    GroupSorted(r.network, NetworkPrefix, x.value, NetworkKey);
    PrefixName(r.network, x.value);
    PrefixPutBack(group, x.value);
    NetworkTells(r, x, StripPrefix(group));
    NoNetworkTells(r, x);
  }

  lemma ValidNetworkIsSorted(r: CompletedResult)
    requires ValidNetwork(r)
    ensures StrictlySorted(r.network, NetworkKey)
  {
    CanonicalNetworkFixed(r.network);
    hide StrictlySorted, CanonicalNetwork, NetworkKey, Apart, NoConflicts, FewPerPrefix;
  }

  lemma PrefixName(xs: seq<NetworkObservation>, prefix: string)
    ensures forall o :: o in Group(xs, NetworkPrefix, prefix) <==> o in xs && o.prefix == prefix
  {
    GroupMembers(xs, NetworkPrefix, prefix);
  }

  lemma NetworkTells(r: CompletedResult, x: ResultId, ds: seq<NetworkDetail>)
    requires x.kind == "prefix" && StrictlySorted(WithPrefix(ds, x.value), NetworkKey)
    requires forall o :: o in WithPrefix(ds, x.value) <==> o in r.network && o.prefix == x.value
    ensures TellsEvidence(Some(Network(ds)), r, x)
  {
    hide StrictlySorted, WithPrefix, NetworkKey;
  }

  lemma NoNetworkTells(r: CompletedResult, x: ResultId)
    requires x.kind == "prefix"
    ensures (forall o | o in r.network :: NetworkPrefix(o) != x.value) ==> TellsEvidence(None, r, x)
  {
  }

  lemma AsnExtraIs(rules: Rules, r: CompletedResult, x: ResultId)
    requires x.kind == "asn"
    ensures var group := Group(r.attributions, AttributionAsn, x.value);
            ExtraOf(rules, r, x) == Some(if group == [] then None else Some(Attributions(StripAsn(group))))
  {
    hide Group, StripAsn;
  }

  lemma AttributionsTold(rules: Rules, r: CompletedResult, x: ResultId)
    requires ValidAttributions(rules, r) && x.kind == "asn"
    ensures ExtraOf(rules, r, x).Some? && TellsEvidence(ExtraOf(rules, r, x).value, r, x)
  {
    AttributionsReadBack(rules, r, x.value);
    AsnExtraIs(rules, r, x);
    NoneOf(r.attributions, AttributionAsn, x.value);
    GroupMembers(r.attributions, AttributionAsn, x.value);
    GroupSorted(r.attributions, AttributionAsn, x.value, AttributionKey);
    hide StrictlySorted, Group, SortedUnique, StripAsn, WithAsn, SoundAttributions, AttributionKey, ExtraOf,
      ValidAttributions;
  }

  lemma ShodanTold(rules: Rules, r: CompletedResult, x: ResultId)
    requires ValidShodan(rules, r) && x in r.results && x.kind == "shodan-host"
    ensures ExtraOf(rules, r, x).Some? && TellsEvidence(ExtraOf(rules, r, x).value, r, x)
  {
    ShodanAlone(rules, r, x);
    GroupMembers(r.shodanHosts, ShodanIp, x.value);
    hide Group, ValidShodan, ExtraOf;
    var group := Group(r.shodanHosts, ShodanIp, x.value);
    assert group == [group[0]] && group[0] == ShodanHost(x.value, group[0].details);
    ShodanExtraIs(rules, r, x, group[0]);
    assert forall h :: h in group <==> h == group[0];
  }

  lemma ShodanExtraIs(rules: Rules, r: CompletedResult, x: ResultId, h: ShodanHost)
    requires x.kind == "shodan-host" && Group(r.shodanHosts, ShodanIp, x.value) == [h]
    ensures ExtraOf(rules, r, x) == Some(Some(Shodan(h.details)))
  {
    hide Group;
  }

  lemma TakeoverTold(rules: Rules, r: CompletedResult, x: ResultId)
    requires ValidTakeovers(rules, r) && x in r.results && x.kind == "takeover"
    ensures ExtraOf(rules, r, x).Some? && TellsEvidence(ExtraOf(rules, r, x).value, r, x)
  {
    TakeoverAlone(rules, r, x);
    GroupMembers(r.takeovers, TakeoverName, x.value);
    hide Group, ValidTakeovers, ExtraOf;
    var group := Group(r.takeovers, TakeoverName, x.value);
    assert group == [group[0]] && group[0] == TakeoverOutcome(x.value, group[0].details);
    TakeoverExtraIs(rules, r, x, group[0]);
    assert forall o :: o in group <==> o == group[0];
  }

  lemma TakeoverExtraIs(rules: Rules, r: CompletedResult, x: ResultId, o: TakeoverOutcome)
    requires x.kind == "takeover" && Group(r.takeovers, TakeoverName, x.value) == [o]
    ensures ExtraOf(rules, r, x) == Some(Some(Takeover(o.details)))
  {
    hide Group;
  }

  lemma EvidenceTold(rules: Rules, r: CompletedResult, x: ResultId)
    requires Valid(rules, r) && Encodable(rules, r) && x in r.results
    ensures ExtraOf(rules, r, x).Some? && TellsEvidence(ExtraOf(rules, r, x).value, r, x)
  {
    hide ValidSources, ValidActions, ValidVirtualHosts, ValidNetwork, ValidShodan, ValidTakeovers, ValidAttributions,
      TellsEvidence;
    ItemIsValid(rules, r, x);
    if x.kind == "hostname" {
      HostsTold(rules, r, x);
    } else if x.kind == "prefix" {
      NetworkTold(rules, r, x);
    } else if x.kind == "asn" {
      AttributionsTold(rules, r, x);
    } else if x.kind == "shodan-host" {
      ShodanTold(rules, r, x);
    } else if x.kind == "takeover" {
      TakeoverTold(rules, r, x);
    } else {
      OtherTold(rules, r, x);
    }
  }

  lemma OtherTold(rules: Rules, r: CompletedResult, x: ResultId)
    requires x.kind !in {"hostname", "prefix", "asn", "shodan-host", "takeover"}
    ensures ExtraOf(rules, r, x).Some? && TellsEvidence(ExtraOf(rules, r, x).value, r, x)
  {
  }

  /** A printed finding tells all that the run knows of its result. */
  lemma PrintedTells(rules: Rules, r: CompletedResult, x: ResultId)
    requires Valid(rules, r) && Encodable(rules, r) && x in r.results
    ensures FindingOf(rules, r, x).Some? && Tells(FindingOf(rules, r, x).value, r, x)
  {
    hide *;
    EvidenceTold(rules, r, x);
    ObservationsSorted(rules, r);
    SourcesSorted(r.observations, x);
    PrintedParts(rules, r, x);
    FindersTold(FindingOf(rules, r, x).value, r, x);
    TellsFromParts(FindingOf(rules, r, x).value, r, x);
  }

  lemma PrintedParts(rules: Rules, r: CompletedResult, x: ResultId)
    requires ExtraOf(rules, r, x).Some?
    ensures FindingOf(rules, r, x).Some?
    ensures var f := FindingOf(rules, r, x).value;
            && f.item == x && f.sources == SourcesOf(r.observations, x) && Given(f.actions) == ActionsOf(r.actions, x)
            && f.scope == (if x.kind == "prefix" then Some(EXTERNAL) else None)
            && f.extra == ExtraOf(rules, r, x).value
  {
    hide ExtraOf, SourcesOf, ActionsOf;
  }

  lemma FindersTold(f: Finding, r: CompletedResult, x: ResultId)
    requires f.sources == SourcesOf(r.observations, x) && Given(f.actions) == ActionsOf(r.actions, x)
    ensures TellsFinders(f, r, x)
  {
    SourcesMembers(r.observations, x);
    ActionMembers(r.actions, x);
    hide SourcesOf, ActionsOf;
  }

  lemma TellsFromParts(f: Finding, r: CompletedResult, x: ResultId)
    requires f.item == x && f.scope == (if x.kind == "prefix" then Some(EXTERNAL) else None)
    requires StrictlySorted(f.sources, TextKey) && TellsFinders(f, r, x) && TellsEvidence(f.extra, r, x)
    ensures Tells(f, r, x)
  {
    hide TellsFinders, TellsEvidence, StrictlySorted, TextKey;
  }

  lemma ObservationsSorted(rules: Rules, r: CompletedResult)
    requires Valid(rules, r)
    ensures StrictlySorted(r.observations, ObservationKey)
  {
    hide StrictlySorted, ValidActions, ValidVirtualHosts, ValidNetwork, ValidShodan, ValidTakeovers, ValidAttributions;
  }

  /** What parsing changes, the order of the actions, tells nothing. */
  lemma ExpectedTells(f: Finding, r: CompletedResult, x: ResultId)
    requires Tells(f, r, x)
    ensures Tells(Expected(f), r, x)
    ensures Expected(f).actions.Some? && StrictlySorted(Expected(f).actions.value, TextKey)
  {
    TextKeysDiffer();
    SortedUniqueKeeps(Given(f.actions), TextKey);
    hide SortedUnique, TellsEvidence, StrictlySorted, TextKey, FoundByAction;
  }

  /** Printing and parsing the findings of a run whose Shodan hosts are canonical gives one
      finding per result, in order, each telling all that the run knows of it: exactly the
      sources and actions that found it, its scope, and exactly its structured evidence. */
  lemma ParsedFindingsTellTheRun(rules: Rules, r: CompletedResult)
    requires Valid(rules, r) && Fits(rules, r) && forall h | h in r.shodanHosts :: rules.canonicalShodan(h)
    ensures forall i | 0 <= i < |r.results| :: FindingOf(rules, r, r.results[i]).Some?
    ensures var parsed := ParseFindings(rules, FindingsUpTo(rules, r, |r.results|));
            && parsed.Some? && |parsed.value| == |r.results|
            && forall i | 0 <= i < |r.results| ::
                 && Tells(parsed.value[i], r, r.results[i])
                 && parsed.value[i].actions.Some? && StrictlySorted(parsed.value[i].actions.value, TextKey)
  {
    EncodableIffFits(rules, r);
    ParseUndoesPrint(rules, r);
    hide Valid, Fits, Encodable, FindingOf, ParseFindings, Tells, Expected, StrictlySorted, TextKey;
    var findings := FindingsUpTo(rules, r, |r.results|);
    forall i | 0 <= i < |r.results|
      ensures Tells(Expected(findings[i]), r, r.results[i])
      ensures Expected(findings[i]).actions.Some? && StrictlySorted(Expected(findings[i]).actions.value, TextKey)
    {
      PrintedTells(rules, r, r.results[i]);
      ExpectedTells(findings[i], r, r.results[i]);
    }
  }

  /** The same of the whole file, when no encoded record holds a raw line break. */
  lemma PrintedFileTellsTheRun(rules: Rules, codec: Lines.Codec<Record>, r: CompletedResult, summary: string)
    requires Valid(rules, r) && Fits(rules, r) && forall h | h in r.shodanHosts :: rules.canonicalShodan(h)
    requires forall i | 0 <= i < |r.results| :: FindingOf(rules, r, r.results[i]).Some?
    requires Lines.AllSound(codec, FileRecords(rules, r, summary))
    requires Lines.AllClean(codec, FileRecords(rules, r, summary))
    ensures var parsed := ParseFile(rules, codec, Lines.Encode(codec, FileRecords(rules, r, summary)));
            && parsed.Some? && |parsed.value| == |r.results|
            && forall i | 0 <= i < |r.results| :: Tells(parsed.value[i], r, r.results[i])
  {
    hide Valid, Fits, FindingOf, ParseFindings, ParseFile, Tells, FindingsUpTo, FileRecords, Lines.AllSound,
      Lines.AllClean, Lines.Encode, StrictlySorted;
    ParsedFindingsTellTheRun(rules, r);
    ParseUndoesPrint(rules, r);
    PrintedFileParses(rules, codec, r, summary);
  }
}
