/** Reading back the structured details that saving wrote. */
module EvidenceDetails {
  import opened Wrappers
  import opened Ordering
  import opened EvidenceModel
  import opened EvidenceRows
  import opened EvidenceLoad

  /** What result x of the run carries. */
  function Part(r: CompletedResult, x: ResultId): Structured {
    Structured(
      if x.kind == "hostname" then Group(r.virtualHosts, VirtualHostName, x.value) else [],
      if x.kind == "prefix" then Group(r.network, NetworkPrefix, x.value) else [],
      if x.kind == "shodan-host" then Group(r.shodanHosts, ShodanIp, x.value) else [],
      if x.kind == "takeover" then Group(r.takeovers, TakeoverName, x.value) else [])
  }

  function RowFor(rules: Rules, r: CompletedResult, position: nat, x: ResultId): ResultRow {
    var encoded := DetailsOf(rules, r, x);
    ResultRow(position, x, if encoded.Stored? then Some(encoded.details) else None)
  }

  // ---- virtual hosts ----

  lemma HostsReadBack(rules: Rules, hosts: seq<VirtualHost>, hostname: string)
    requires hosts != [] && StrictlySorted(hosts, VirtualHostKey)
    requires forall v | v in hosts :: v.hostname == hostname && rules.canonicalHost(v)
    ensures ParseHosts(rules, hostname, HostDetails(HostDetailsOf(hosts))) == Some(hosts)
  {
    SortRestores(hosts, hosts, VirtualHostKey);
    hide SortedUnique, StrictlySorted, VirtualHostKey;
    var back := WithHostname(HostDetailsOf(hosts), hostname);
    forall i | 0 <= i < |hosts| ensures back[i] == hosts[i] { assert hosts[i] in hosts; }
    assert back == hosts;
  }

  lemma HostnameRow(rules: Rules, r: CompletedResult, position: nat, x: ResultId)
    requires ValidVirtualHosts(rules, r) && x.kind == "hostname"
    ensures ReadRow(rules, RowFor(rules, r, position, x), x in FoundBy(r.actions, "vhost")) == Ok(Part(r, x))
  {
    var hosts := Group(r.virtualHosts, VirtualHostName, x.value);
    GroupMembers(r.virtualHosts, VirtualHostName, x.value);
    GroupSorted(r.virtualHosts, VirtualHostName, x.value, VirtualHostKey);
    hide StrictlySorted, Group, SortedUnique, HostDetailsOf, ParseHosts;
    if hosts != [] {
      assert hosts[0] in hosts;
      assert ResultId("hostname", hosts[0].hostname) == x;
      HostsReadBack(rules, hosts, x.value);
    }
  }

  // ---- network ----

  lemma ApartWithin(xs: seq<NetworkObservation>, ys: seq<NetworkObservation>)
    requires Apart(ys) && forall x :: x in xs ==> x in ys
    requires forall i, j | 0 <= i < j < |xs| :: xs[i] != xs[j]
    ensures Apart(xs)
  {
    hide Identity;
    forall i, j | 0 <= i < j < |xs| ensures Identity(xs[i]) != Identity(xs[j]) {
      assert xs[i] in ys && xs[j] in ys;
      var k :| 0 <= k < |ys| && ys[k] == xs[i];
      var l :| 0 <= l < |ys| && ys[l] == xs[j];
      assert k < l || l < k;
    }
  }

  lemma FewInGroup(xs: seq<NetworkObservation>, prefix: string)
    requires FewPerPrefix(xs)
    ensures |Group(xs, NetworkPrefix, prefix)| <= MAX_OBSERVATIONS_PER_PREFIX
    ensures FewPerPrefix(Group(xs, NetworkPrefix, prefix))
  {
    var g := Group(xs, NetworkPrefix, prefix);
    GroupMembers(xs, NetworkPrefix, prefix);
    GroupOfGroup(g, prefix);
    hide Group;
    if g != [] {
      assert g[0] in g;
      var k :| 0 <= k < |xs| && xs[k] == g[0];
    }
    forall i | 0 <= i < |g| ensures |Group(g, NetworkPrefix, g[i].prefix)| <= MAX_OBSERVATIONS_PER_PREFIX {
      assert g[i] in g;
    }
  }

  lemma GroupCanonical(xs: seq<NetworkObservation>, prefix: string)
    requires NetworkIsCanonical(xs)
    ensures NetworkIsCanonical(Group(xs, NetworkPrefix, prefix))
    ensures |Group(xs, NetworkPrefix, prefix)| <= MAX_OBSERVATIONS_PER_PREFIX
  {
    var g := Group(xs, NetworkPrefix, prefix);
    GroupMembers(xs, NetworkPrefix, prefix);
    GroupSorted(xs, NetworkPrefix, prefix, NetworkKey);
    StrictlySortedDistinct(g, NetworkKey);
    hide Group, StrictlySorted, Apart, NoConflicts, FewPerPrefix;
    NoConflictsWithin(g, xs);
    ApartWithin(g, xs);
    FewInGroup(xs, prefix);
  }

  lemma {:induction false} GroupOfGroup(g: seq<NetworkObservation>, prefix: string)
    requires forall o | o in g :: o.prefix == prefix
    ensures Group(g, NetworkPrefix, prefix) == g
  {
    if g != [] {
      GroupOfGroup(g[..|g| - 1], prefix);
      assert g == g[..|g| - 1] + [g[|g| - 1]];
    }
  }

  lemma NetworkReadsBack(rules: Rules, group: seq<NetworkObservation>, prefix: string)
    requires group != [] && NetworkIsCanonical(group) && |group| <= MAX_OBSERVATIONS_PER_PREFIX
    requires forall o | o in group :: o.prefix == prefix
    requires rules.normalize("prefix", prefix) == Some(prefix)
    requires DetailsSize(rules, StripPrefix(group)) <= MAX_DETAILS_BYTES
    ensures NetworkDetailsOf(rules, group) == Some(StripPrefix(group))
    ensures ParseNetwork(rules, prefix, NetworkDetails(StripPrefix(group))) == Some(group)
  {
    CanonicalIsFixed(group);
    hide CanonicalNetwork, NetworkIsCanonical, DetailsSize;
    var back := WithPrefix(StripPrefix(group), prefix);
    forall i | 0 <= i < |group| ensures back[i] == group[i] { assert group[i] in group; }
    assert back == group;
  }

  /** Writing a prefix's details fails exactly when they exceed the cap. */
  lemma NetworkEncodes(rules: Rules, r: CompletedResult, x: ResultId)
    requires ValidNetwork(r) && x.kind == "prefix"
    ensures DetailsOf(rules, r, x).TooLarge? <==>
              DetailsSize(rules, StripPrefix(Group(r.network, NetworkPrefix, x.value))) > MAX_DETAILS_BYTES
  {
    CanonicalNetworkFixed(r.network);
    GroupCanonical(r.network, x.value);
    CanonicalIsFixed(Group(r.network, NetworkPrefix, x.value));
    hide CanonicalNetwork, NetworkIsCanonical, Group;
  }

  /** Saving fails on details exactly when some prefix carries more than the cap. */
  lemma EncodableIffFits(rules: Rules, r: CompletedResult)
    requires Valid(rules, r)
    ensures Encodable(rules, r) <==> Fits(rules, r)
  {
    forall x | x in r.results && x.kind == "prefix"
      ensures DetailsOf(rules, r, x).TooLarge? <==>
                DetailsSize(rules, StripPrefix(Group(r.network, NetworkPrefix, x.value))) > MAX_DETAILS_BYTES
    {
      NetworkEncodes(rules, r, x);
    }
    forall x | x in r.results && x.kind != "prefix" ensures !DetailsOf(rules, r, x).TooLarge? { }
    hide DetailsOf, DetailsSize, Valid;
  }

  lemma PrefixRow(rules: Rules, r: CompletedResult, position: nat, x: ResultId)
    requires ValidNetwork(r) && x.kind == "prefix" && !DetailsOf(rules, r, x).TooLarge?
    requires rules.normalize("prefix", x.value) == Some(x.value)
    ensures ReadRow(rules, RowFor(rules, r, position, x), false) == Ok(Part(r, x))
  {
    var group := Group(r.network, NetworkPrefix, x.value);
    CanonicalNetworkFixed(r.network);
    GroupMembers(r.network, NetworkPrefix, x.value);
    GroupCanonical(r.network, x.value);
    NetworkEncodes(rules, r, x);
    hide CanonicalNetwork, NetworkIsCanonical, Group, DetailsSize, ParseNetwork, NetworkDetailsOf, StripPrefix;
    if group != [] { NetworkReadsBack(rules, group, x.value); }
  }

  // ---- Shodan hosts and takeovers ----

  lemma {:induction false} OneOfName<T(!new)>(xs: seq<T>, name: T -> string, wanted: string)
    requires NamesDiffer(xs, name)
    ensures |Group(xs, name, wanted)| <= 1
  {
    if xs != [] {
      var init := xs[..|xs| - 1];
      var before := Group(init, name, wanted);
      OneOfName(init, name, wanted);
      GroupMembers(init, name, wanted);
      assert before != [] ==> before[0] in before && before[0] in init;
      assert forall x | x in init :: name(x) != name(xs[|xs| - 1]);
    }
  }

  lemma ShodanKeysName(rules: Rules)
    ensures forall x: ShodanHost, y: ShodanHost :: ShodanKey(rules)(x) == ShodanKey(rules)(y) ==>
              ShodanIp(x) == ShodanIp(y)
  {
    forall x: ShodanHost, y: ShodanHost | ShodanKey(rules)(x) == ShodanKey(rules)(y)
      ensures ShodanIp(x) == ShodanIp(y)
    {
      var a, b := ShodanKey(rules)(x), ShodanKey(rules)(y);
      assert a[|a| - 1] == Text(x.ip) && b[|b| - 1] == Text(y.ip);
    }
  }

  lemma TakeoverKeysName()
    ensures forall x: TakeoverOutcome, y: TakeoverOutcome :: TakeoverKey(x) == TakeoverKey(y) ==>
              TakeoverName(x) == TakeoverName(y)
  {
    forall x: TakeoverOutcome, y: TakeoverOutcome | TakeoverKey(x) == TakeoverKey(y)
      ensures TakeoverName(x) == TakeoverName(y)
    {
      assert TakeoverKey(x)[0] == TakeoverKey(y)[0];
    }
  }

  /** Every Shodan host recorded for x reads back as itself. */
  predicate ShodanSound(rules: Rules, r: CompletedResult, x: ResultId) {
    x.kind == "shodan-host" ==> forall h | h in Group(r.shodanHosts, ShodanIp, x.value) :: rules.canonicalShodan(h)
  }

  lemma ShodanAlone(rules: Rules, r: CompletedResult, x: ResultId)
    requires ValidShodan(rules, r) && x in r.results && x.kind == "shodan-host"
    ensures var group := Group(r.shodanHosts, ShodanIp, x.value);
            |group| == 1 && group[0].ip == x.value && group[0] in group
  {
    ShodanKeysName(rules);
    CanonicalByNameFixed(r.shodanHosts, ShodanIp, ShodanKey(rules));
    OneOfName(r.shodanHosts, ShodanIp, x.value);
    GroupMembers(r.shodanHosts, ShodanIp, x.value);
    hide Group, CanonicalByName, StrictlySorted, NamesDiffer;
    var group := Group(r.shodanHosts, ShodanIp, x.value);
    assert group[0] in group;
  }

  lemma ShodanRow(rules: Rules, r: CompletedResult, position: nat, x: ResultId)
    requires ValidShodan(rules, r) && x in r.results && x.kind == "shodan-host"
    ensures ReadRow(rules, RowFor(rules, r, position, x), false) ==
              if ShodanSound(rules, r, x) then Ok(Part(r, x)) else Err(InvalidDetails)
  {
    ShodanAlone(rules, r, x);
    hide Group, ValidShodan;
    var group := Group(r.shodanHosts, ShodanIp, x.value);
    assert group == [group[0]];
    assert group[0] == ShodanHost(x.value, group[0].details);
  }

  lemma TakeoverAlone(rules: Rules, r: CompletedResult, x: ResultId)
    requires ValidTakeovers(rules, r) && x in r.results && x.kind == "takeover"
    ensures var group := Group(r.takeovers, TakeoverName, x.value);
            |group| == 1 && group[0].hostname == x.value && rules.canonicalTakeover(group[0])
  {
    TakeoverKeysName();
    CanonicalByNameFixed(r.takeovers, TakeoverName, TakeoverKey);
    OneOfName(r.takeovers, TakeoverName, x.value);
    GroupMembers(r.takeovers, TakeoverName, x.value);
    hide Group, CanonicalByName, StrictlySorted, NamesDiffer, EndsWith, FoundBy;
    var group := Group(r.takeovers, TakeoverName, x.value);
    assert group[0] in group;
  }

  lemma TakeoverRow(rules: Rules, r: CompletedResult, position: nat, x: ResultId)
    requires ValidTakeovers(rules, r) && x in r.results && x.kind == "takeover"
    ensures ReadRow(rules, RowFor(rules, r, position, x), false) == Ok(Part(r, x))
  {
    TakeoverAlone(rules, r, x);
    hide Group, ValidTakeovers;
    var group := Group(r.takeovers, TakeoverName, x.value);
    assert group == [group[0]];
    assert group[0] == TakeoverOutcome(x.value, group[0].details);
  }

  /** Each saved row reads back as what its result carried, unless it is a Shodan host
      whose details are not canonical. */
  lemma RowReadsBack(rules: Rules, r: CompletedResult, position: nat, x: ResultId)
    requires Valid(rules, r) && Encodable(rules, r) && x in r.results
    ensures ReadRow(rules, RowFor(rules, r, position, x), x in FoundBy(r.actions, "vhost")) ==
              if ShodanSound(rules, r, x) then Ok(Part(r, x)) else Err(InvalidDetails)
  {
    hide ValidSources, ValidActions, ValidAttributions;
    if x.kind == "hostname" {
      HostnameRow(rules, r, position, x);
    } else {
      assert x !in FoundBy(r.actions, "vhost");
      if x.kind == "prefix" {
        assert ValidItem(rules, x);
        PrefixRow(rules, r, position, x);
      } else if x.kind == "shodan-host" {
        ShodanRow(rules, r, position, x);
      } else if x.kind == "takeover" {
        TakeoverRow(rules, r, position, x);
      }
    }
  }

  // ---- all rows ----

  function Parts(r: CompletedResult, n: nat): Structured
    requires n <= |r.results|
  {
    if n == 0 then NOTHING else Join(Parts(r, n - 1), Part(r, r.results[n - 1]))
  }

  predicate SoundUpTo(rules: Rules, r: CompletedResult, n: nat)
    requires n <= |r.results|
  {
    forall i | 0 <= i < n :: ShodanSound(rules, r, r.results[i])
  }

  lemma {:induction false} RowsReadBack(rules: Rules, r: CompletedResult, vhostResults: set<nat>, n: nat)
    requires Valid(rules, r) && Encodable(rules, r) && n <= |r.results|
    requires forall i: nat | i < |r.results| :: i in vhostResults <==> r.results[i] in FoundBy(r.actions, "vhost")
    ensures ReadRows(rules, ResultRows(rules, r)[..n], vhostResults) ==
              if SoundUpTo(rules, r, n) then Ok(Parts(r, n)) else Err(InvalidDetails)
  {
    hide Valid, Encodable, ReadRow, Part, ShodanSound, DetailsOf;
    if n > 0 {
      var rows := ResultRows(rules, r);
      RowsReadBack(rules, r, vhostResults, n - 1);
      RowReadsBack(rules, r, n - 1, r.results[n - 1]);
      assert rows[..n][..n - 1] == rows[..n - 1];
      assert rows[n - 1] == RowFor(rules, r, n - 1, r.results[n - 1]);
    }
  }

  lemma {:induction false} PartsWithin(r: CompletedResult, n: nat)
    requires n <= |r.results|
    ensures forall v | v in Parts(r, n).hosts :: v in r.virtualHosts
    ensures forall v | v in Parts(r, n).network :: v in r.network
    ensures forall v | v in Parts(r, n).shodan :: v in r.shodanHosts
    ensures forall v | v in Parts(r, n).takeovers :: v in r.takeovers
  {
    if n > 0 {
      PartsWithin(r, n - 1);
      var value := r.results[n - 1].value;
      GroupMembers(r.virtualHosts, VirtualHostName, value);
      GroupMembers(r.network, NetworkPrefix, value);
      GroupMembers(r.shodanHosts, ShodanIp, value);
      GroupMembers(r.takeovers, TakeoverName, value);
      hide Group;
    }
  }

  lemma {:induction false} PartsCover(r: CompletedResult, n: nat, i: nat)
    requires i < n <= |r.results|
    ensures forall v | v in Part(r, r.results[i]).hosts :: v in Parts(r, n).hosts
    ensures forall v | v in Part(r, r.results[i]).network :: v in Parts(r, n).network
    ensures forall v | v in Part(r, r.results[i]).shodan :: v in Parts(r, n).shodan
    ensures forall v | v in Part(r, r.results[i]).takeovers :: v in Parts(r, n).takeovers
  {
    hide Part;
    if i < n - 1 { PartsCover(r, n - 1, i); }
  }

  lemma FoundAreResults(r: CompletedResult, name: string, x: ResultId)
    requires ValidActions(r.results, r.actions) && x in FoundBy(r.actions, name)
    ensures x in r.results
  {
    hide StrictlySorted, ValidOutcome;
    FoundByIsAction(r.actions, name, x);
    var i :| 0 <= i < |r.actions| && x in r.actions[i].observations;
    assert ValidAction(r.results, r.actions[i]);
  }

  lemma HostsCovered(rules: Rules, r: CompletedResult, v: VirtualHost)
    requires ValidActions(r.results, r.actions) && ValidVirtualHosts(rules, r) && v in r.virtualHosts
    ensures v in Parts(r, |r.results|).hosts
  {
    hide ValidActions, StrictlySorted, Parts, Group;
    var x := ResultId("hostname", v.hostname);
    FoundAreResults(r, "vhost", x);
    var i :| 0 <= i < |r.results| && r.results[i] == x;
    GroupMembers(r.virtualHosts, VirtualHostName, v.hostname);
    PartsCover(r, |r.results|, i);
  }

  lemma NetworkCovered(r: CompletedResult, o: NetworkObservation)
    requires ValidNetwork(r) && o in r.network
    ensures o in Parts(r, |r.results|).network
  {
    hide Parts, Group, CanonicalNetwork;
    var i :| 0 <= i < |r.results| && r.results[i] == ResultId("prefix", o.prefix);
    GroupMembers(r.network, NetworkPrefix, o.prefix);
    PartsCover(r, |r.results|, i);
  }

  lemma ShodanCovered(rules: Rules, r: CompletedResult, h: ShodanHost)
    requires ValidShodan(rules, r) && h in r.shodanHosts
    ensures h in Parts(r, |r.results|).shodan
    ensures exists i :: 0 <= i < |r.results| && r.results[i] == ResultId("shodan-host", h.ip)
  {
    hide Parts, Group, CanonicalByName;
    var i :| 0 <= i < |r.results| && r.results[i] == ResultId("shodan-host", h.ip);
    GroupMembers(r.shodanHosts, ShodanIp, h.ip);
    PartsCover(r, |r.results|, i);
  }

  lemma TakeoverCovered(rules: Rules, r: CompletedResult, o: TakeoverOutcome)
    requires ValidTakeovers(rules, r) && o in r.takeovers
    ensures o in Parts(r, |r.results|).takeovers
  {
    hide Parts, Group, CanonicalByName;
    var i :| 0 <= i < |r.results| && r.results[i] == ResultId("takeover", o.hostname);
    GroupMembers(r.takeovers, TakeoverName, o.hostname);
    PartsCover(r, |r.results|, i);
  }

  /** The parts of all rows are the structured evidence of the run, nothing more. */
  lemma PartsExact(rules: Rules, r: CompletedResult)
    requires Valid(rules, r)
    ensures var all := Parts(r, |r.results|);
            && (forall v :: v in all.hosts <==> v in r.virtualHosts)
            && (forall v :: v in all.network <==> v in r.network)
            && (forall v :: v in all.shodan <==> v in r.shodanHosts)
            && (forall v :: v in all.takeovers <==> v in r.takeovers)
  {
    PartsWithin(r, |r.results|);
    forall v | v in r.virtualHosts ensures v in Parts(r, |r.results|).hosts { HostsCovered(rules, r, v); }
    forall v | v in r.network ensures v in Parts(r, |r.results|).network { NetworkCovered(r, v); }
    forall v | v in r.shodanHosts ensures v in Parts(r, |r.results|).shodan { ShodanCovered(rules, r, v); }
    forall v | v in r.takeovers ensures v in Parts(r, |r.results|).takeovers { TakeoverCovered(rules, r, v); }
    hide Parts, Valid;
  }

  /** All Shodan rows are sound exactly when every host of the run is. */
  lemma SoundIffCanonical(rules: Rules, r: CompletedResult)
    requires Valid(rules, r)
    ensures SoundUpTo(rules, r, |r.results|) <==> forall h | h in r.shodanHosts :: rules.canonicalShodan(h)
  {
    if SoundUpTo(rules, r, |r.results|) {
      forall h | h in r.shodanHosts ensures rules.canonicalShodan(h) {
        ShodanCovered(rules, r, h);
        var i :| 0 <= i < |r.results| && r.results[i] == ResultId("shodan-host", h.ip);
        assert ShodanSound(rules, r, r.results[i]);
        GroupMembers(r.shodanHosts, ShodanIp, h.ip);
      }
    }
    if forall h | h in r.shodanHosts :: rules.canonicalShodan(h) {
      forall i | 0 <= i < |r.results| ensures ShodanSound(rules, r, r.results[i]) {
        GroupMembers(r.shodanHosts, ShodanIp, r.results[i].value);
      }
    }
  }
}
