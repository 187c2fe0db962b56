/** Runs that the constructor accepts and that do not come back: one whose Shodan details
    are not canonical, one whose network details exceed the cap, and one whose printed form
    holds a raw line separator. */
module EvidenceWitnesses {
  import opened Wrappers
  import opened Ordering
  import opened Texts
  import opened EvidenceModel
  import opened EvidenceRows
  import opened EvidenceConstraints
  import opened EvidenceLoad
  import opened EvidenceStore
  import opened ResultJsonl
  import Lines = JsonLines

  const DONE := Outcome("completed", 0.0, None, None)

  /** A run in which the shodan source reports one host with these details. */
  function OneShodanHost(ip: string, details: string): CompletedResult {
    var x := ResultId("shodan-host", ip);
    CompletedResult("run", "t", 0, 0, [x], [SourceExecution("shodan", DONE, 1)], [ResultObservation("shodan", x)], [],
                    [], [], [], [ShodanHost(ip, details)], [], None)
  }

  lemma OneGroup(o: ResultObservation)
    ensures Group([o], ObservationSource, o.source) == [o]
  {
    assert [o][..0] == [];
  }

  lemma OneShodanIsCanonical(rules: Rules, h: ShodanHost)
    ensures CanonicalByName([h], ShodanIp, ShodanKey(rules)) == Some([h])
    ensures Group([h], ShodanIp, h.ip) == [h]
  {
    assert SortedUnique([h][1..], ShodanKey(rules)) == [];
    assert [h][..0] == [];
  }

  lemma NamesNotBlank()
    ensures NonBlank("t") && NonBlank("shodan") && NonBlank("network")
  {
    assert !Whitespace("t"[0]) && !Whitespace("shodan"[0]) && !Whitespace("network"[0]);
  }

  lemma NoHosts(rules: Rules, r: CompletedResult)
    requires r.virtualHosts == [] && FoundBy(r.actions, "vhost") == []
    ensures ValidVirtualHosts(rules, r)
  {
  }

  lemma NoNetwork(r: CompletedResult)
    requires r.network == []
    ensures ValidNetwork(r)
  {
    assert SortedUnique([], NetworkKey) == [];
    assert KeepFirst([]) == [];
  }

  lemma NoShodan(rules: Rules, r: CompletedResult)
    requires r.shodanHosts == [] && forall x | x in r.results :: x.kind != "shodan-host"
    ensures ValidShodan(rules, r)
  {
  }

  lemma NoTakeovers(rules: Rules, r: CompletedResult)
    requires r.takeovers == [] && forall x | x in r.results :: x.kind != "takeover"
    ensures ValidTakeovers(rules, r)
  {
  }

  lemma NoAttributions(rules: Rules, r: CompletedResult)
    requires r.attributions == []
    ensures ValidAttributions(rules, r)
  {
  }

  lemma OneShodanSources(ip: string, details: string)
    ensures var r := OneShodanHost(ip, details);
            ValidSources(r.results, r.sources, r.observations) && ValidActions(r.results, r.actions)
  {
    var r := OneShodanHost(ip, details);
    NamesNotBlank();
    OneGroup(r.observations[0]);
    assert r.sources[0].source == "shodan";
    hide Group, NonBlank;
  }

  lemma OneShodanResults(rules: Rules, ip: string, details: string)
    requires NonBlank(ip) && rules.normalize("shodan-host", ip) == Some(ip)
    ensures ValidResults(rules, OneShodanHost(ip, details).results)
  {
    hide NonBlank;
  }

  lemma OneShodanDetails(rules: Rules, ip: string, details: string)
    ensures ValidShodan(rules, OneShodanHost(ip, details))
  {
    hide Group, CanonicalByName, ShodanKey;
    OneShodanIsCanonical(rules, ShodanHost(ip, details));
    var x := OneShodanHost(ip, details).results[0];
    assert OneShodanHost(ip, details).observations[0] == ResultObservation("shodan", x);
  }

  lemma OneShodanFits(rules: Rules, ip: string, details: string)
    ensures Fits(rules, OneShodanHost(ip, details))
  {
  }

  /** The constructor accepts the run whatever the details are. */
  lemma OneShodanHostIsValid(rules: Rules, ip: string, details: string)
    requires NonBlank(ip) && rules.normalize("shodan-host", ip) == Some(ip)
    ensures Valid(rules, OneShodanHost(ip, details)) && Fits(rules, OneShodanHost(ip, details))
  {
    var r := OneShodanHost(ip, details);
    hide ValidResults, ValidSources, ValidActions, ValidVirtualHosts, ValidNetwork, ValidShodan, ValidTakeovers,
      ValidAttributions, Fits, NonBlank;
    NamesNotBlank();
    OneShodanResults(rules, ip, details);
    OneShodanSources(ip, details);
    OneShodanDetails(rules, ip, details);
    OneShodanFits(rules, ip, details);
    NoHosts(rules, r);
    NoNetwork(r);
    NoTakeovers(rules, r);
    NoAttributions(rules, r);
  }

  /** Details that do not read back make such a run one that saves but cannot be loaded. */
  lemma SavedButNotLoaded(rules: Rules, ip: string, details: string)
    requires NonBlank(ip) && rules.normalize("shodan-host", ip) == Some(ip)
    requires !rules.canonicalShodan(ShodanHost(ip, details))
    ensures var r := OneShodanHost(ip, details);
            && Valid(rules, r) && Fits(rules, r) && Resolvable(r)
            && ReadRun(rules, RowsOf(rules, r)) == Err(InvalidDetails)
  {
    var r := OneShodanHost(ip, details);
    assert r.shodanHosts[0] in r.shodanHosts && r.shodanHosts[0] == ShodanHost(ip, details);
    hide *;
    OneShodanHostIsValid(rules, ip, details);
    RowsMeetConstraints(rules, r);
    OriginsOnce(rules, r);
    SaveThenLoad(rules, r, RowsOf(rules, r).origins);
    assert RowsOf(rules, r).(origins := RowsOf(rules, r).origins) == RowsOf(rules, r);
  }

  lemma OriginsOnce(rules: Rules, r: CompletedResult)
    requires Resolvable(r) && Constraints(RowsOf(rules, r))
    ensures NoDuplicates(RowsOf(rules, r).origins)
  {
    hide RowsOf, Resolvable;
  }

  // ---- too large to save ----

  function Origin(prefix: string, asn: string): NetworkObservation {
    NetworkObservation(prefix, NetworkDetail("network", asn, ObservedOrigin, 0))
  }

  /** The route with this path as it was seen n - i instants before it was collected. */
  function Route(prefix: string, asn: string, path: string, n: nat, i: nat): NetworkObservation {
    NetworkObservation(prefix, NetworkDetail("network", asn, BgpRoute(path, "rrc", "", i - n, "peer", asn), 0))
  }

  /** One route origin, and n sightings of one route to it. */
  function Sightings(prefix: string, asn: string, path: string, n: nat): seq<NetworkObservation> {
    [Origin(prefix, asn)] + seq(n, i requires 0 <= i < n => Route(prefix, asn, path, n, i))
  }

  /** A run in which one action observes them all. */
  function OnePrefix(prefix: string, asn: string, path: string, n: nat): CompletedResult {
    var found := [ResultId("asn", asn), ResultId("prefix", prefix)];
    CompletedResult("run", "t", 0, 0, found, [], [], [ActionExecution("network", DONE, found, [])],
                    [], Sightings(prefix, asn, path, n), [], [], [], None)
  }

  lemma {:induction false} SharedStart(start: Key, a: Key, b: Key)
    requires KeyLt(a, b)
    ensures KeyLt(start + a, start + b)
  {
    if start == [] {
      assert start + a == a && start + b == b;
    } else {
      SharedStart(start[1..], a, b);
      assert (start + a)[1..] == start[1..] + a && (start + b)[1..] == start[1..] + b;
    }
  }

  lemma RoutesAscend(prefix: string, asn: string, path: string, n: nat, i: nat, j: nat)
    requires i < j
    ensures KeyLt(NetworkKey(Route(prefix, asn, path, n, i)), NetworkKey(Route(prefix, asn, path, n, j)))
  {
    var start := [Text(prefix), Text(asn), Text("network"), Num(1), Text(path), Num(0), Text("rrc"), Text("")];
    var a, b := [Num(i - n), Text("peer"), Text(asn)], [Num(j - n), Text("peer"), Text(asn)];
    assert NetworkKey(Route(prefix, asn, path, n, i)) == start + a;
    assert NetworkKey(Route(prefix, asn, path, n, j)) == start + b;
    hide NetworkKey;
    SharedStart(start, a, b);
  }

  lemma OriginFirst(prefix: string, asn: string, path: string, n: nat, j: nat)
    ensures KeyLt(NetworkKey(Origin(prefix, asn)), NetworkKey(Route(prefix, asn, path, n, j)))
  {
    var start := [Text(prefix), Text(asn), Text("network")];
    var a := [Num(0), Num(0)];
    var b := [Num(1), Text(path), Num(0), Text("rrc"), Text(""), Num(j - n), Text("peer"), Text(asn)];
    assert NetworkKey(Origin(prefix, asn)) == start + a && NetworkKey(Route(prefix, asn, path, n, j)) == start + b;
    hide NetworkKey;
    SharedStart(start, a, b);
  }

  lemma {:induction false} GroupAll<T(!new)>(xs: seq<T>, name: T -> string, wanted: string)
    requires forall i | 0 <= i < |xs| :: name(xs[i]) == wanted
    ensures Group(xs, name, wanted) == xs
  {
    if xs != [] {
      GroupAll(xs[..|xs| - 1], name, wanted);
      assert xs == xs[..|xs| - 1] + [xs[|xs| - 1]];
    }
  }

  lemma SightingsAreCanonical(prefix: string, asn: string, path: string, n: nat)
    requires n < MAX_OBSERVATIONS_PER_PREFIX
    ensures var xs := Sightings(prefix, asn, path, n);
            NetworkIsCanonical(xs) && CanonicalNetwork(xs) == Some(xs) && Group(xs, NetworkPrefix, prefix) == xs
  {
    hide NetworkKey, KeyLt, CanonicalNetwork, Group;
    var xs := Sightings(prefix, asn, path, n);
    forall i, j | 0 <= i < j < |xs|
      ensures KeyLt(NetworkKey(xs[i]), NetworkKey(xs[j])) && Identity(xs[i]) != Identity(xs[j])
    {
      if i == 0 {
        OriginFirst(prefix, asn, path, n, j - 1);
      } else {
        RoutesAscend(prefix, asn, path, n, i - 1, j - 1);
      }
    }
    GroupAll(xs, NetworkPrefix, prefix);
    CanonicalIsFixed(xs);
  }

  lemma AsnBeforePrefix(asn: string, prefix: string)
    ensures StrictlySorted([ResultId("asn", asn), ResultId("prefix", prefix)], ResultKey)
  {
    assert TextLt("asn", "prefix");
  }

  lemma OnePrefixResults(rules: Rules, prefix: string, asn: string, path: string, n: nat)
    requires NonBlank(prefix) && NonBlank(asn)
    requires rules.normalize("prefix", prefix) == Some(prefix) && rules.normalize("asn", asn) == Some(asn)
    ensures var r := OnePrefix(prefix, asn, path, n);
            ValidResults(rules, r.results) && ValidSources(r.results, r.sources, r.observations)
                && ValidActions(r.results, r.actions)
  {
    hide Sightings;
    var r := OnePrefix(prefix, asn, path, n);
    AsnBeforePrefix(asn, prefix);
    NamesNotBlank();
    hide NonBlank, StrictlySorted, Group;
    assert ValidItem(rules, r.results[0]) && ValidItem(rules, r.results[1]);
    NothingSorted();
    assert ValidAction(r.results, r.actions[0]);
  }

  lemma NothingSorted()
    ensures StrictlySorted([], ArtifactKey) && StrictlySorted([], ObservationKey)
  {
  }

  lemma OnePrefixFinds(prefix: string, asn: string, path: string, n: nat)
    ensures var r := OnePrefix(prefix, asn, path, n);
            FoundBy(r.actions, "network") == r.results && FoundBy(r.actions, "vhost") == []
  {
    hide Sightings;
    assert OnePrefix(prefix, asn, path, n).actions[..0] == [];
  }

  lemma OwnNamesAreValid()
    ensures ValidName("network") && ValidName("rrc") && Clear("", MAX_TEXT_LENGTH)
  {
    StripNothing("network");
    StripNothing("rrc");
    hide Strip;
  }

  lemma SightingsAreValid(prefix: string, asn: string, path: string, n: nat)
    requires NonBlank(path) && Clear(path, MAX_TEXT_LENGTH)
    ensures forall o | o in Sightings(prefix, asn, path, n) :: ValidObservation(o)
  {
    OwnNamesAreValid();
    hide ValidName, Clear, NonBlank;
  }

  /** Observations of one prefix by one action, all to the origin that comes first. */
  lemma SameOriginIsValid(r: CompletedResult, o: NetworkObservation)
    requires CanonicalNetwork(r.network) == Some(r.network) && (forall b | b in r.network :: ValidObservation(b))
    requires o in r.network && o.detail.form.ObservedOrigin? && r.startedAt <= o.detail.collectedAt <= r.completedAt
    requires forall b | b in r.network ::
               && b.prefix == o.prefix && b.detail.action == o.detail.action && b.detail.originAsn == o.detail.originAsn
               && b.detail.collectedAt == o.detail.collectedAt
    requires ResultId("prefix", o.prefix) in r.results && ResultId("asn", o.detail.originAsn) in r.results
    requires ResultId("prefix", o.prefix) in FoundBy(r.actions, o.detail.action)
    ensures ValidNetwork(r)
  {
    hide CanonicalNetwork, FoundBy, ValidObservation;
  }

  lemma OnePrefixNetwork(prefix: string, asn: string, path: string, n: nat)
    requires NonBlank(path) && Clear(path, MAX_TEXT_LENGTH) && n < MAX_OBSERVATIONS_PER_PREFIX
    ensures ValidNetwork(OnePrefix(prefix, asn, path, n))
  {
    hide *;
    var r := OnePrefix(prefix, asn, path, n);
    SightingsAreValid(prefix, asn, path, n);
    SightingsAreCanonical(prefix, asn, path, n);
    OnePrefixFinds(prefix, asn, path, n);
    OnePrefixParts(prefix, asn, path, n);
    SameOriginIsValid(r, Origin(prefix, asn));
  }

  lemma OnePrefixParts(prefix: string, asn: string, path: string, n: nat)
    ensures var r, o := OnePrefix(prefix, asn, path, n), Origin(prefix, asn);
            && r.network == Sightings(prefix, asn, path, n) && r.startedAt == r.completedAt == 0
            && ResultId("prefix", prefix) in r.results && ResultId("asn", asn) in r.results
            && o in r.network && o.detail.form.ObservedOrigin? && o.detail.collectedAt == 0
            && o.prefix == prefix && o.detail.action == "network" && o.detail.originAsn == asn
            && (forall b | b in r.network ::
                  && b.prefix == o.prefix && b.detail.action == o.detail.action
                      && b.detail.originAsn == o.detail.originAsn
                  && b.detail.collectedAt == o.detail.collectedAt)
  {
    var r := OnePrefix(prefix, asn, path, n);
    assert r.results[0] == ResultId("asn", asn) && r.results[1] == ResultId("prefix", prefix);
    assert r.network[0] == Origin(prefix, asn);
  }

  lemma OnePrefixIsValid(rules: Rules, prefix: string, asn: string, path: string, n: nat)
    requires NonBlank(prefix) && NonBlank(asn)
    requires rules.normalize("prefix", prefix) == Some(prefix) && rules.normalize("asn", asn) == Some(asn)
    requires NonBlank(path) && Clear(path, MAX_TEXT_LENGTH) && n < MAX_OBSERVATIONS_PER_PREFIX
    ensures Valid(rules, OnePrefix(prefix, asn, path, n))
  {
    var r := OnePrefix(prefix, asn, path, n);
    hide ValidResults, ValidSources, ValidActions, ValidVirtualHosts, ValidNetwork, ValidShodan, ValidTakeovers,
      ValidAttributions, NonBlank, FoundBy, Sightings, Clear;
    NamesNotBlank();
    OnePrefixResults(rules, prefix, asn, path, n);
    OnePrefixFinds(prefix, asn, path, n);
    OnePrefixNetwork(prefix, asn, path, n);
    NoHosts(rules, r);
    NoShodan(rules, r);
    NoTakeovers(rules, r);
    NoAttributions(rules, r);
  }

  /** An encoded route takes at least one byte for each character of its path. */
  ghost predicate PathsTakeSpace(rules: Rules) {
    forall d: NetworkDetail | d.form.BgpRoute? :: rules.encodedSize(d) >= |d.form.asPath|
  }

  lemma {:induction false} RoutesTakeSpace(rules: Rules, details: seq<NetworkDetail>, length: nat)
    requires PathsTakeSpace(rules) && details != []
    requires forall i | 1 <= i < |details| :: details[i].form.BgpRoute? && |details[i].form.asPath| == length
    ensures DetailsSize(rules, details) >= (|details| - 1) * length
  {
    var n := |details| - 1;
    if n > 0 {
      RoutesTakeSpace(rules, details[..n], length);
      assert rules.encodedSize(details[n]) >= length;
      assert n * length == (n - 1) * length + length;
    }
  }

  /** A run of acceptable observations that together exceed the cap passes the constructor
      and cannot be saved.  129 sightings of a route with the longest path are enough. */
  lemma ValidButNotSaved(rules: Rules, prefix: string, asn: string, path: string, n: nat)
    requires NonBlank(prefix) && NonBlank(asn) && PathsTakeSpace(rules)
    requires rules.normalize("prefix", prefix) == Some(prefix) && rules.normalize("asn", asn) == Some(asn)
    requires NonBlank(path) && Clear(path, MAX_TEXT_LENGTH) && n < MAX_OBSERVATIONS_PER_PREFIX
    requires n * |path| > MAX_DETAILS_BYTES
    ensures Valid(rules, OnePrefix(prefix, asn, path, n)) && !Fits(rules, OnePrefix(prefix, asn, path, n))
  {
    hide *;
    OnePrefixIsValid(rules, prefix, asn, path, n);
    SightingsAreCanonical(prefix, asn, path, n);
    OnePrefixParts(prefix, asn, path, n);
    var details := StripPrefix(Sightings(prefix, asn, path, n));
    DetailsOfSightings(prefix, asn, path, n);
    RoutesTakeSpace(rules, details, |path|);
    DoesNotFit(rules, OnePrefix(prefix, asn, path, n), prefix);
  }

  lemma DetailsOfSightings(prefix: string, asn: string, path: string, n: nat)
    ensures var details := StripPrefix(Sightings(prefix, asn, path, n));
            && |details| == n + 1
            && forall i | 1 <= i < |details| :: details[i].form.BgpRoute? && |details[i].form.asPath| == |path|
  {
  }

  lemma DoesNotFit(rules: Rules, r: CompletedResult, prefix: string)
    requires ResultId("prefix", prefix) in r.results
    requires DetailsSize(rules, StripPrefix(Group(r.network, NetworkPrefix, prefix))) > MAX_DETAILS_BYTES
    ensures !Fits(rules, r)
  {
    hide DetailsSize, StripPrefix, Group;
  }

  /** The longest path there may be, 129 times, exceeds the cap: the family is not empty. */
  lemma LongestPathSuffices()
    ensures var path := seq(MAX_TEXT_LENGTH, _ => '1');
            NonBlank(path) && Clear(path, MAX_TEXT_LENGTH) && 129 * |path| > MAX_DETAILS_BYTES
  {
    var path := seq(MAX_TEXT_LENGTH, _ => '1');
    assert !Whitespace(path[0]);
  }

  // ---- printed but not parsed ----

  function OnePerson(name: string): CompletedResult {
    CompletedResult("run", "t", 0, 0, [ResultId("person", name)], [], [], [], [], [], [], [], [], None)
  }

  lemma OnePersonIsValid(rules: Rules, name: string)
    requires NonBlank(name) && rules.normalize("person", name) == Some(name)
    ensures Valid(rules, OnePerson(name)) && Fits(rules, OnePerson(name))
  {
    var r := OnePerson(name);
    NamesNotBlank();
    NothingSorted();
    NoHosts(rules, r);
    NoNetwork(r);
    NoShodan(rules, r);
    NoTakeovers(rules, r);
    NoAttributions(rules, r);
    hide ValidVirtualHosts, ValidNetwork, ValidShodan, ValidTakeovers, ValidAttributions, NonBlank;
  }

  lemma OnePersonPrints(rules: Rules, name: string)
    ensures var r := OnePerson(name);
            && FindingOf(rules, r, r.results[0]).Some?
            && FindingOf(rules, r, r.results[0]).value.item == r.results[0]
  {
    hide ActionsOf, SourcesOf, StripAsn, Group;
  }

  /** json.dumps with ensure_ascii=False escapes control characters only. */
  ghost predicate LeavesRaw(codec: Lines.Codec<Record>) {
    forall f: Finding | !Lines.Clean(f.item.value) :: !Lines.Clean(codec.encode(Entry(f)))
  }

  /** A name that holds U+0085, U+2028 or U+2029 makes a run that prints, and whose printed
      file does not parse. */
  lemma PrintedButNotParsed(rules: Rules, codec: Lines.Codec<Record>, name: string, summary: string)
    requires NonBlank(name) && rules.normalize("person", name) == Some(name) && !Lines.Clean(name) && LeavesRaw(codec)
    requires FindingOf(rules, OnePerson(name), ResultId("person", name)).Some?
    requires Lines.AllSound(codec, FileRecords(rules, OnePerson(name), summary))
    ensures Valid(rules, OnePerson(name)) && Fits(rules, OnePerson(name))
    ensures ParseFile(rules, codec, Lines.Encode(codec, FileRecords(rules, OnePerson(name), summary))) == None
  {
    var r := OnePerson(name);
    OnePersonIsValid(rules, name);
    OnePersonPrints(rules, name);
    hide Valid, Fits, FindingOf, ParseFile, ParseFindings, Lines.Clean, Lines.Encode, Lines.AllSound, NonBlank,
      ExpectedAll;
    PrintedFileParses(rules, codec, r, summary);
    var records := FileRecords(rules, r, summary);
    assert records[1] == Entry(FindingOf(rules, r, r.results[0]).value);
    assert !Lines.Clean(codec.encode(records[1]));
  }

  lemma SeparatedName()
    ensures var name := "a\U{2028}b"; NonBlank(name) && !Lines.Clean(name) && Strip(name) == name
  {
    var name := "a\U{2028}b";
    assert !Whitespace(name[0]) && name[1] in name && Lines.LeftRaw(name[1]);
    StripNothing(name);
  }
}
