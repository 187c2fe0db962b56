/** Finishing a run: collecting its results and putting every part into canonical form, so
    that the constructor's order and closure checks cannot fail. */
module EvidenceFinish {
  import opened Wrappers
  import opened Ordering
  import opened Texts
  import opened EvidenceModel
  import opened EvidenceConstraints
  import opened EvidenceDetails

  /** The values reported for one result kind. */
  datatype KindGroup = KindGroup(kind: string, values: seq<string>)

  function Take(rules: Rules, kind: string, value: string): Option<ResultId> {
    if kind !in RESULT_KINDS || !NonBlank(value) then None
    else
      match rules.normalize(kind, value)
      case None => None
      case Some(v) => Some(ResultId(kind, v))
  }

  function TakeValues(rules: Rules, kind: string, values: seq<string>): Option<seq<ResultId>> {
    if values == [] then Some([])
    else
      match (TakeValues(rules, kind, values[..|values| - 1]), Take(rules, kind, values[|values| - 1]))
      case (Some(before), Some(x)) => Some(before + [x])
      case _ => None
  }

  /** None for an unknown kind, even one without values, and for a bad value. */
  function TakeGroups(rules: Rules, groups: seq<KindGroup>): Option<seq<ResultId>> {
    if groups == [] then Some([])
    else
      var last := groups[|groups| - 1];
      if last.kind !in RESULT_KINDS then None
      else
        match (TakeGroups(rules, groups[..|groups| - 1]), TakeValues(rules, last.kind, last.values))
        case (Some(before), Some(xs)) => Some(before + xs)
        case _ => None
  }

  function ActionItems(actions: seq<ActionExecution>): seq<ResultId> {
    if actions == [] then [] else ActionItems(actions[..|actions| - 1]) + actions[|actions| - 1].observations
  }

  function HostItems(hosts: seq<VirtualHost>): seq<ResultId> {
    seq(|hosts|, i requires 0 <= i < |hosts| => ResultId("hostname", hosts[i].hostname))
  }

  function ShodanItems(hosts: seq<ShodanHost>): seq<ResultId> {
    seq(|hosts|, i requires 0 <= i < |hosts| => ResultId("shodan-host", hosts[i].ip))
  }

  function TakeoverItems(outcomes: seq<TakeoverOutcome>): seq<ResultId> {
    seq(|outcomes|, i requires 0 <= i < |outcomes| => ResultId("takeover", outcomes[i].hostname))
  }

  /** What finish is given besides the groups: every part may be unordered and repeated. */
  datatype Parts = Parts(
    runId: string, target: string, startedAt: Time, completedAt: Time, sources: seq<SourceExecution>,
    observations: seq<ResultObservation>, actions: seq<ActionExecution>, virtualHosts: seq<VirtualHost>,
    network: seq<NetworkObservation>, attributions: seq<Attribution>, shodanHosts: seq<ShodanHost>,
    takeovers: seq<TakeoverOutcome>, evidenceStatus: Option<string>)

  /** The value handed to the constructor; None when a part has no canonical form. */
  function Finished(rules: Rules, groups: seq<KindGroup>, p: Parts): Option<CompletedResult> {
    match (TakeGroups(rules, groups), CanonicalByName(p.shodanHosts, ShodanIp, ShodanKey(rules)),
           CanonicalByName(p.takeovers, TakeoverName, TakeoverKey), CanonicalNetwork(p.network))
    case (Some(items), Some(shodan), Some(takeovers), Some(network)) =>
      var hosts := SortedUnique(p.virtualHosts, VirtualHostKey);
      var all := items + ActionItems(p.actions) + HostItems(hosts) + ShodanItems(shodan) + TakeoverItems(takeovers);
      Some(CompletedResult(
        p.runId, Strip(p.target), p.startedAt, p.completedAt, SortedUnique(all, ResultKey), p.sources,
        SortedUnique(p.observations, ObservationKey), p.actions, hosts, network,
        SortedUnique(p.attributions, AttributionKey), shodan, takeovers, p.evidenceStatus))
    case _ => None
  }

  method CollectValues(rules: Rules, kind: string, values: seq<string>) returns (items: Option<seq<ResultId>>)
    ensures items == TakeValues(rules, kind, values)
  {
    hide Take;
    var results := [];
    for j := 0 to |values|
      invariant TakeValues(rules, kind, values[..j]) == Some(results)
    {
      assert values[..j + 1][..j] == values[..j];
      var x := Take(rules, kind, values[j]);
      if x.None? {
        ValuesFailureStays(rules, kind, values, j + 1);
        return None;
      }
      results := results + [x.value];
    }
    assert values[..|values|] == values;
    return Some(results);
  }

  method CollectResults(rules: Rules, groups: seq<KindGroup>) returns (items: Option<seq<ResultId>>)
    ensures items == TakeGroups(rules, groups)
  {
    hide TakeValues;
    var results := [];
    for i := 0 to |groups|
      invariant TakeGroups(rules, groups[..i]) == Some(results)
    {
      assert groups[..i + 1][..i] == groups[..i];
      if groups[i].kind !in RESULT_KINDS {
        GroupsFailureStays(rules, groups, i + 1);
        return None;
      }
      var values := CollectValues(rules, groups[i].kind, groups[i].values);
      if values.None? {
        GroupsFailureStays(rules, groups, i + 1);
        return None;
      }
      results := results + values.value;
    }
    assert groups[..|groups|] == groups;
    return Some(results);
  }

  lemma {:induction false} ValuesFailureStays(rules: Rules, kind: string, values: seq<string>, k: nat)
    requires k <= |values| && TakeValues(rules, kind, values[..k]).None?
    ensures TakeValues(rules, kind, values).None?
  {
    if k == |values| {
      assert values[..k] == values;
    } else {
      assert values[..|values| - 1][..k] == values[..k];
      ValuesFailureStays(rules, kind, values[..|values| - 1], k);
    }
  }

  lemma {:induction false} GroupsFailureStays(rules: Rules, groups: seq<KindGroup>, k: nat)
    requires k <= |groups| && TakeGroups(rules, groups[..k]).None?
    ensures TakeGroups(rules, groups).None?
  {
    hide TakeValues;
    if k == |groups| {
      assert groups[..k] == groups;
    } else {
      assert groups[..|groups| - 1][..k] == groups[..k];
      GroupsFailureStays(rules, groups[..|groups| - 1], k);
    }
  }

  // ---- canonical forms are fixed points ----

  lemma ApartBySort(kept: seq<NetworkObservation>, sorted: seq<NetworkObservation>)
    requires Apart(kept) && (forall x :: x in sorted <==> x in kept) && StrictlySorted(sorted, NetworkKey)
    ensures Apart(sorted)
  {
    StrictlySortedDistinct(sorted, NetworkKey);
    ApartWithin(sorted, kept);
  }

  /** Canonicalising network observations twice is doing it once. */
  lemma CanonicalNetworkIdempotent(xs: seq<NetworkObservation>)
    requires CanonicalNetwork(xs).Some?
    ensures CanonicalNetwork(CanonicalNetwork(xs).value) == CanonicalNetwork(xs)
  {
    NetworkKeysDiffer();
    hide NetworkKey, Identity, Conflicts, SortedUnique, KeepFirst, FewPerPrefix, Apart, NoConflicts, StrictlySorted;
    var ordered := SortedUnique(xs, NetworkKey);
    var kept := KeepFirst(ordered);
    var canonical := SortedUnique(kept, NetworkKey);
    SortedUniqueKeeps(xs, NetworkKey);
    KeepFirstWithin(ordered);
    KeepFirstApart(ordered);
    SortedUniqueKeeps(kept, NetworkKey);
    NoConflictsWithin(canonical, ordered);
    ApartBySort(kept, canonical);
    CanonicalIsFixed(canonical);
  }

  lemma CanonicalByNameIdempotent<T(!new)>(xs: seq<T>, name: T -> string, key: T -> Key)
    requires CanonicalByName(xs, name, key).Some?
    requires forall x: T, y: T :: key(x) == key(y) ==> name(x) == name(y)
    ensures CanonicalByName(CanonicalByName(xs, name, key).value, name, key) == CanonicalByName(xs, name, key)
  {
    var ys := SortedUnique(xs, key);
    forall x, y | x in xs && y in xs && key(x) == key(y) ensures x == y {
      var i :| 0 <= i < |xs| && xs[i] == x;
      var j :| 0 <= j < |xs| && xs[j] == y;
    }
    SortedUniqueKeeps(xs, key);
    StrictlySortedDistinct(ys, key);
    forall i, j | 0 <= i < j < |ys| ensures name(ys[i]) != name(ys[j]) {
      assert ys[i] in xs && ys[j] in xs && ys[i] != ys[j];
      var k :| 0 <= k < |xs| && xs[k] == ys[i];
      var l :| 0 <= l < |xs| && xs[l] == ys[j];
    }
    CanonicalByNameFixed(ys, name, key);
  }

  // ---- what finish establishes ----

  lemma {:induction false} ActionItemsMembers(actions: seq<ActionExecution>)
    ensures forall x :: x in ActionItems(actions) <==> exists i :: 0 <= i < |actions| && x in actions[i].observations
  {
    if actions != [] {
      var init := actions[..|actions| - 1];
      ActionItemsMembers(init);
      forall x ensures x in ActionItems(actions) <==> exists i :: 0 <= i < |actions| && x in actions[i].observations {
        if i :| 0 <= i < |init| && x in init[i].observations { assert actions[i] == init[i]; }
      }
    }
  }

  /** The results are exactly the normalised group values, what the actions observed, and
      the subjects of the structured evidence. */
  predicate Source(rules: Rules, groups: seq<KindGroup>, p: Parts, r: CompletedResult, x: ResultId) {
    || (TakeGroups(rules, groups).Some? && x in TakeGroups(rules, groups).value)
    || (exists i | 0 <= i < |p.actions| :: x in p.actions[i].observations)
    || (exists i | 0 <= i < |r.virtualHosts| :: x == ResultId("hostname", r.virtualHosts[i].hostname))
    || (exists i | 0 <= i < |r.shodanHosts| :: x == ResultId("shodan-host", r.shodanHosts[i].ip))
    || (exists i | 0 <= i < |r.takeovers| :: x == ResultId("takeover", r.takeovers[i].hostname))
  }

  lemma ItemMembers(r: CompletedResult, x: ResultId)
    ensures x in HostItems(r.virtualHosts) <==>
              exists i :: 0 <= i < |r.virtualHosts| && x == ResultId("hostname", r.virtualHosts[i].hostname)
    ensures x in ShodanItems(r.shodanHosts) <==>
              exists i :: 0 <= i < |r.shodanHosts| && x == ResultId("shodan-host", r.shodanHosts[i].ip)
    ensures x in TakeoverItems(r.takeovers) <==>
              exists i :: 0 <= i < |r.takeovers| && x == ResultId("takeover", r.takeovers[i].hostname)
  {
    if i :| 0 <= i < |r.virtualHosts| && x == ResultId("hostname", r.virtualHosts[i].hostname) {
      assert HostItems(r.virtualHosts)[i] == x;
    }
    if i :| 0 <= i < |r.shodanHosts| && x == ResultId("shodan-host", r.shodanHosts[i].ip) {
      assert ShodanItems(r.shodanHosts)[i] == x;
    }
    if i :| 0 <= i < |r.takeovers| && x == ResultId("takeover", r.takeovers[i].hostname) {
      assert TakeoverItems(r.takeovers)[i] == x;
    }
  }

  /** Finishing loses no result and adds none. */
  lemma FinishKeepsResults(rules: Rules, groups: seq<KindGroup>, p: Parts, x: ResultId)
    requires Finished(rules, groups, p).Some?
    ensures var r := Finished(rules, groups, p).value;
            && (x in r.results <==> Source(rules, groups, p, r, x))
            && StrictlySorted(r.results, ResultKey)
  {
    var r := Finished(rules, groups, p).value;
    var all := TakeGroups(rules, groups).value + ActionItems(p.actions) + HostItems(r.virtualHosts)
               + ShodanItems(r.shodanHosts) + TakeoverItems(r.takeovers);
    assert r.results == SortedUnique(all, ResultKey);
    ResultKeysDiffer();
    SortedUniqueKeeps(all, ResultKey);
    ActionItemsMembers(p.actions);
    ItemMembers(r, x);
    hide Finished, SortedUnique, StrictlySorted, ResultKey, ActionItems, HostItems, ShodanItems, TakeoverItems,
      TakeGroups;
  }

  lemma ObservationKeysDiffer()
    ensures forall x: ResultObservation, y: ResultObservation :: ObservationKey(x) == ObservationKey(y) ==> x == y
  {
    forall x: ResultObservation, y: ResultObservation | ObservationKey(x) == ObservationKey(y) ensures x == y {
      var a, b := ObservationKey(x), ObservationKey(y);
      assert a[0] == b[0] && a[1] == b[1] && a[2] == b[2];
    }
  }

  lemma VirtualHostKeysDiffer()
    ensures forall x: VirtualHost, y: VirtualHost :: VirtualHostKey(x) == VirtualHostKey(y) ==> x == y
  {
    forall x: VirtualHost, y: VirtualHost | VirtualHostKey(x) == VirtualHostKey(y) ensures x == y {
      var a, b := VirtualHostKey(x), VirtualHostKey(y);
      assert a[0] == b[0] && a[1] == b[1] && a[2..] == x.evidence && b[2..] == y.evidence;
    }
  }

  /** After finish, none of the constructor's order and deduplication checks can fail. */
  lemma FinishIsCanonical(rules: Rules, groups: seq<KindGroup>, p: Parts)
    requires Finished(rules, groups, p).Some?
    ensures var r := Finished(rules, groups, p).value;
            && StrictlySorted(r.observations, ObservationKey)
            && StrictlySorted(r.virtualHosts, VirtualHostKey)
            && StrictlySorted(r.attributions, AttributionKey)
            && CanonicalNetwork(r.network) == Some(r.network)
            && CanonicalByName(r.shodanHosts, ShodanIp, ShodanKey(rules)) == Some(r.shodanHosts)
            && CanonicalByName(r.takeovers, TakeoverName, TakeoverKey) == Some(r.takeovers)
  {
    ObservationKeysDiffer();
    VirtualHostKeysDiffer();
    AttributionKeysDiffer();
    ShodanKeysName(rules);
    TakeoverKeysName();
    hide SortedUnique, StrictlySorted, CanonicalByName, CanonicalNetwork, ShodanKey, TakeGroups, ActionItems,
      ObservationKey, VirtualHostKey, AttributionKey;
    SortedUniqueKeeps(p.observations, ObservationKey);
    SortedUniqueKeeps(p.virtualHosts, VirtualHostKey);
    SortedUniqueKeeps(p.attributions, AttributionKey);
    CanonicalNetworkIdempotent(p.network);
    CanonicalByNameIdempotent(p.shodanHosts, ShodanIp, ShodanKey(rules));
    CanonicalByNameIdempotent(p.takeovers, TakeoverName, TakeoverKey);
  }

  /** After finish, every action observation, virtual host, Shodan host and takeover names a
      completed result: those checks cannot fail either. */
  lemma FinishIsClosed(rules: Rules, groups: seq<KindGroup>, p: Parts)
    requires Finished(rules, groups, p).Some?
    ensures var r := Finished(rules, groups, p).value;
            && (forall i, x | 0 <= i < |r.actions| && x in r.actions[i].observations :: x in r.results)
            && (forall i | 0 <= i < |r.virtualHosts| :: ResultId("hostname", r.virtualHosts[i].hostname) in r.results)
            && (forall i | 0 <= i < |r.shodanHosts| :: ResultId("shodan-host", r.shodanHosts[i].ip) in r.results)
            && (forall i | 0 <= i < |r.takeovers| :: ResultId("takeover", r.takeovers[i].hostname) in r.results)
  {
    var r := Finished(rules, groups, p).value;
    assert r.actions == p.actions;
    hide Finished, StrictlySorted;
    forall x ensures x in r.results <==> Source(rules, groups, p, r, x) { FinishKeepsResults(rules, groups, p, x); }
    forall i, x | 0 <= i < |r.actions| && x in r.actions[i].observations ensures x in r.results {
      assert Source(rules, groups, p, r, x);
    }
    forall i | 0 <= i < |r.virtualHosts| ensures ResultId("hostname", r.virtualHosts[i].hostname) in r.results {
      assert Source(rules, groups, p, r, ResultId("hostname", r.virtualHosts[i].hostname));
    }
    forall i | 0 <= i < |r.shodanHosts| ensures ResultId("shodan-host", r.shodanHosts[i].ip) in r.results {
      assert Source(rules, groups, p, r, ResultId("shodan-host", r.shodanHosts[i].ip));
    }
    forall i | 0 <= i < |r.takeovers| ensures ResultId("takeover", r.takeovers[i].hostname) in r.results {
      assert Source(rules, groups, p, r, ResultId("takeover", r.takeovers[i].hostname));
    }
  }

  // ---- what becomes of each part ----

  /** Two observations are the same when they agree in action, prefix and origin and, for a
      route, in everything observed; for a validation, in its state, whenever it was seen. */
  lemma IdentityMeans(a: NetworkObservation, b: NetworkObservation)
    ensures Identity(a) == Identity(b) <==>
              && a.prefix == b.prefix && a.detail.action == b.detail.action && a.detail.originAsn == b.detail.originAsn
              && match (a.detail.form, b.detail.form)
                 case (ObservedOrigin, ObservedOrigin) => true
                 case (BgpRoute(_, _, _, _, _, _), BgpRoute(_, _, _, _, _, _)) => a.detail.form == b.detail.form
                 case (RpkiValidation(_, s), RpkiValidation(_, t)) => s == t
                 case _ => false
  {
    if a.detail.form.RpkiValidation? && b.detail.form.RpkiValidation? {
      assert Identity(a).detail.form == RpkiValidation(0, a.detail.form.state);
      assert Identity(b).detail.form == RpkiValidation(0, b.detail.form.state);
    }
  }

  /** Of the observations with one identity the least is kept. */
  ghost predicate LeastOfIdentity(xs: seq<NetworkObservation>, o: NetworkObservation) {
    o in xs && forall x | x in xs && Identity(x) == Identity(o) :: !KeyLt(NetworkKey(x), NetworkKey(o))
  }

  lemma {:induction false} KeepFirstExact(xs: seq<NetworkObservation>, o: NetworkObservation)
    requires StrictlySorted(xs, NetworkKey)
    ensures o in KeepFirst(xs) <==> LeastOfIdentity(xs, o)
  {
    hide NetworkKey, Identity, KeyLt;
    if xs != [] {
      var init, last := xs[..|xs| - 1], xs[|xs| - 1];
      KeepFirstExact(init, o);
      SeenIffKept(init, last);
      LastIsGreatest(xs);
      assert xs == init + [last];
      if o in init { assert !(Identity(last) == Identity(o) && KeyLt(NetworkKey(last), NetworkKey(o))); }
      if o == last && Seen(init, o) {
        var i :| 0 <= i < |init| && Identity(init[i]) == Identity(o);
        assert init[i] in xs && KeyLt(NetworkKey(init[i]), NetworkKey(o));
      }
    }
  }

  lemma LastIsGreatest(xs: seq<NetworkObservation>)
    requires StrictlySorted(xs, NetworkKey) && xs != []
    ensures StrictlySorted(xs[..|xs| - 1], NetworkKey)
    ensures forall x | x in xs[..|xs| - 1] ::
              KeyLt(NetworkKey(x), NetworkKey(xs[|xs| - 1])) && !KeyLt(NetworkKey(xs[|xs| - 1]), NetworkKey(x))
    ensures xs[|xs| - 1] !in xs[..|xs| - 1] && !KeyLt(NetworkKey(xs[|xs| - 1]), NetworkKey(xs[|xs| - 1]))
  {
    var init, last := xs[..|xs| - 1], xs[|xs| - 1];
    hide NetworkKey, KeyLt;
    KeyOrder(NetworkKey(last), NetworkKey(last));
    forall x | x in init
      ensures KeyLt(NetworkKey(x), NetworkKey(last)) && !KeyLt(NetworkKey(last), NetworkKey(x)) && x != last
    {
      var i :| 0 <= i < |init| && init[i] == x;
      assert xs[i] == x;
      KeyOrder(NetworkKey(x), NetworkKey(last));
    }
  }

  /** Something of an identity is kept exactly when something of it was there. */
  lemma {:induction false} SeenIffKept(xs: seq<NetworkObservation>, o: NetworkObservation)
    ensures Seen(KeepFirst(xs), o) <==> Seen(xs, o)
  {
    hide Identity;
    if xs != [] {
      var init, last := xs[..|xs| - 1], xs[|xs| - 1];
      var kept := KeepFirst(init);
      SeenIffKept(init, o);
      SeenIffKept(init, last);
      if i :| 0 <= i < |xs| && Identity(xs[i]) == Identity(o) {
        if i < |init| {
          assert Identity(init[i]) == Identity(o);
          var k :| 0 <= k < |kept| && Identity(kept[k]) == Identity(o);
          assert KeepFirst(xs)[k] == kept[k];
        } else if Seen(kept, last) {
          var k :| 0 <= k < |kept| && Identity(kept[k]) == Identity(last);
          assert KeepFirst(xs)[k] == kept[k];
        } else {
          assert KeepFirst(xs)[|kept|] == last;
        }
      }
      if k :| 0 <= k < |KeepFirst(xs)| && Identity(KeepFirst(xs)[k]) == Identity(o) {
        if k < |kept| {
          assert Identity(kept[k]) == Identity(o);
          var i :| 0 <= i < |init| && Identity(init[i]) == Identity(o);
          assert xs[i] == init[i];
        }
      }
    }
  }

  /** What canonicalising network observations keeps. */
  lemma CanonicalNetworkExact(xs: seq<NetworkObservation>, o: NetworkObservation)
    requires CanonicalNetwork(xs).Some?
    ensures o in CanonicalNetwork(xs).value <==> LeastOfIdentity(xs, o)
  {
    NetworkKeysDiffer();
    hide NetworkKey, Identity, Conflicts, SortedUnique, KeepFirst, FewPerPrefix, NoConflicts, StrictlySorted, KeyLt;
    var ordered := SortedUnique(xs, NetworkKey);
    SortedUniqueKeeps(xs, NetworkKey);
    SortedUniqueMembers(KeepFirst(ordered), NetworkKey);
    KeepFirstExact(ordered, o);
  }

  /** Nothing is lost of the other parts and nothing added; equal entries become one. */
  lemma FinishKeepsParts(rules: Rules, groups: seq<KindGroup>, p: Parts)
    requires Finished(rules, groups, p).Some?
    ensures var r := Finished(rules, groups, p).value;
            && r.runId == p.runId && r.target == Strip(p.target) && r.startedAt == p.startedAt
            && r.completedAt == p.completedAt && r.sources == p.sources && r.actions == p.actions
            && r.evidenceStatus == p.evidenceStatus
            && (forall o :: o in r.observations <==> o in p.observations)
            && (forall v :: v in r.virtualHosts <==> v in p.virtualHosts)
            && (forall a :: a in r.attributions <==> a in p.attributions)
            && (forall h :: h in r.shodanHosts <==> h in p.shodanHosts)
            && (forall o :: o in r.takeovers <==> o in p.takeovers)
            && (forall o :: o in r.network <==> LeastOfIdentity(p.network, o))
  {
    SortedUniqueMembers(p.observations, ObservationKey);
    SortedUniqueMembers(p.virtualHosts, VirtualHostKey);
    SortedUniqueMembers(p.attributions, AttributionKey);
    SortedUniqueMembers(p.shodanHosts, ShodanKey(rules));
    SortedUniqueMembers(p.takeovers, TakeoverKey);
    hide SortedUnique, CanonicalNetwork, ShodanKey, TakeGroups, ActionItems, ObservationKey, VirtualHostKey,
      AttributionKey, TakeoverKey, LeastOfIdentity, Strip;
    forall o ensures o in CanonicalNetwork(p.network).value <==> LeastOfIdentity(p.network, o) {
      CanonicalNetworkExact(p.network, o);
    }
  }

  // ---- when finishing fails ----

  predicate Acceptable(rules: Rules, kind: string, value: string) {
    kind in RESULT_KINDS && NonBlank(value) && rules.normalize(kind, value).Some?
  }

  lemma {:induction false} ValuesTaken(rules: Rules, kind: string, values: seq<string>)
    ensures TakeValues(rules, kind, values).Some? <==>
              forall i | 0 <= i < |values| :: Acceptable(rules, kind, values[i])
    ensures TakeValues(rules, kind, values).Some? ==>
              |TakeValues(rules, kind, values).value| == |values|
              && forall i | 0 <= i < |values| ::
                   TakeValues(rules, kind, values).value[i] == ResultId(kind, rules.normalize(kind, values[i]).value)
  {
    hide NonBlank;
    if values != [] {
      var n := |values| - 1;
      ValuesTaken(rules, kind, values[..n]);
      assert forall i | 0 <= i < n :: values[..n][i] == values[i];
    }
  }

  predicate SoundGroup(rules: Rules, g: KindGroup) {
    g.kind in RESULT_KINDS && forall i | 0 <= i < |g.values| :: Acceptable(rules, g.kind, g.values[i])
  }

  /** The result is the normal form of a value of this group. */
  predicate Holds(rules: Rules, g: KindGroup, x: ResultId) {
    x.kind == g.kind && exists i | 0 <= i < |g.values| :: rules.normalize(g.kind, g.values[i]) == Some(x.value)
  }

  lemma GroupTaken(rules: Rules, g: KindGroup, x: ResultId)
    requires SoundGroup(rules, g)
    ensures TakeValues(rules, g.kind, g.values).Some?
    ensures x in TakeValues(rules, g.kind, g.values).value <==> Holds(rules, g, x)
  {
    ValuesTaken(rules, g.kind, g.values);
    hide TakeValues, NonBlank;
    var taken := TakeValues(rules, g.kind, g.values).value;
    if Holds(rules, g, x) {
      var i :| 0 <= i < |g.values| && rules.normalize(g.kind, g.values[i]) == Some(x.value);
      assert taken[i] == x;
    }
  }

  /** The groups are taken exactly when every kind is known and every value is a good one,
      and then they give exactly the normal forms of their values. */
  lemma {:induction false} GroupsTaken(rules: Rules, groups: seq<KindGroup>, x: ResultId)
    ensures TakeGroups(rules, groups).Some? <==> forall i | 0 <= i < |groups| :: SoundGroup(rules, groups[i])
    ensures TakeGroups(rules, groups).Some? ==>
              (x in TakeGroups(rules, groups).value <==> exists i | 0 <= i < |groups| :: Holds(rules, groups[i], x))
  {
    hide Holds, Acceptable, TakeValues;
    if groups != [] {
      var n := |groups| - 1;
      GroupsTaken(rules, groups[..n], x);
      ValuesTaken(rules, groups[n].kind, groups[n].values);
      assert forall i | 0 <= i < n :: groups[..n][i] == groups[i];
      if SoundGroup(rules, groups[n]) { GroupTaken(rules, groups[n], x); }
    }
  }

  predicate Contradicts<T(==)>(xs: seq<T>, name: T -> string) {
    exists i, j | 0 <= i < |xs| && 0 <= j < |xs| :: name(xs[i]) == name(xs[j]) && xs[i] != xs[j]
  }

  /** Finishing fails exactly for a bad group, contradicting Shodan hosts or takeovers of one
      name, conflicting validations, or too many network observations of one prefix. */
  lemma FinishFailsIff(rules: Rules, groups: seq<KindGroup>, p: Parts)
    ensures Finished(rules, groups, p).None? <==>
              || (exists i | 0 <= i < |groups| :: !SoundGroup(rules, groups[i]))
              || Contradicts(p.shodanHosts, ShodanIp) || Contradicts(p.takeovers, TakeoverName)
              || !NoConflicts(p.network)
              || !FewPerPrefix(SortedUnique(KeepFirst(SortedUnique(p.network, NetworkKey)), NetworkKey))
  {
    GroupsTaken(rules, groups, ResultId("", ""));
    NetworkFailsIff(p.network);
    ByNameFailsIff(p.shodanHosts, ShodanIp, ShodanKey(rules));
    ByNameFailsIff(p.takeovers, TakeoverName, TakeoverKey);
    hide SoundGroup, TakeGroups, CanonicalByName, CanonicalNetwork, SortedUnique, NoConflicts, FewPerPrefix,
      ActionItems, HostItems, ShodanItems, TakeoverItems, Contradicts, KeepFirst, ShodanKey, Strip;
  }

  lemma NetworkFailsIff(xs: seq<NetworkObservation>)
    ensures CanonicalNetwork(xs).None? <==>
              !NoConflicts(xs) || !FewPerPrefix(SortedUnique(KeepFirst(SortedUnique(xs, NetworkKey)), NetworkKey))
  {
    hide NoConflicts, FewPerPrefix, SortedUnique, KeepFirst;
    SortedUniqueMembers(xs, NetworkKey);
    var ordered := SortedUnique(xs, NetworkKey);
    if NoConflicts(ordered) { NoConflictsWithin(xs, ordered); }
    if NoConflicts(xs) { NoConflictsWithin(ordered, xs); }
  }

  lemma ByNameFailsIff<T>(xs: seq<T>, name: T -> string, key: T -> Key)
    ensures CanonicalByName(xs, name, key).None? <==> Contradicts(xs, name)
  {
  }

  // ---- the canonical forms, in the loops of the program ----

  /** What two validations of one thing at one time have in common. */
  function ConflictIdentity(o: NetworkObservation): (string, string, string, Time)
    requires o.detail.form.RpkiValidation?
  {
    (o.prefix, o.detail.action, o.detail.originAsn, o.detail.form.observedAt)
  }

  /** The states noted so far are those of the validations met. */
  ghost predicate Notes(states: map<(string, string, string, Time), string>, met: seq<NetworkObservation>) {
    && (forall i | 0 <= i < |met| && met[i].detail.form.RpkiValidation? ::
          ConflictIdentity(met[i]) in states && states[ConflictIdentity(met[i])] == met[i].detail.form.state)
    && forall c | c in states :: exists i | 0 <= i < |met| ::
         met[i].detail.form.RpkiValidation? && ConflictIdentity(met[i]) == c && met[i].detail.form.state == states[c]
  }

  lemma NoConflictStep(met: seq<NetworkObservation>, o: NetworkObservation,
      states: map<(string, string, string, Time), string>)
    requires NoConflicts(met) && Notes(states, met)
    ensures NoConflicts(met + [o]) <==>
              !(o.detail.form.RpkiValidation? && ConflictIdentity(o) in states
                && states[ConflictIdentity(o)] != o.detail.form.state)
  {
    var more := met + [o];
    if o.detail.form.RpkiValidation? && ConflictIdentity(o) in states
       && states[ConflictIdentity(o)] != o.detail.form.state {
      var i :| 0 <= i < |met| && met[i].detail.form.RpkiValidation?
               && ConflictIdentity(met[i]) == ConflictIdentity(o)
               && met[i].detail.form.state == states[ConflictIdentity(o)];
      assert more[i] == met[i] && Conflicts(more[i], more[|met|]);
    } else {
      forall i, j | 0 <= i < |more| && 0 <= j < |more| ensures !Conflicts(more[i], more[j]) {
        if i < |met| && j < |met| { assert !Conflicts(met[i], met[j]); }
      }
    }
  }

  lemma NoConflictsBefore(xs: seq<NetworkObservation>, n: nat)
    requires n <= |xs| && NoConflicts(xs)
    ensures NoConflicts(xs[..n])
  {
    hide Conflicts;
    forall i, j | 0 <= i < n && 0 <= j < n ensures !Conflicts(xs[..n][i], xs[..n][j]) {
      assert !Conflicts(xs[i], xs[j]);
    }
  }

  lemma NotesStep(met: seq<NetworkObservation>, o: NetworkObservation,
      states: map<(string, string, string, Time), string>)
    requires Notes(states, met)
    requires o.detail.form.RpkiValidation? && ConflictIdentity(o) in states ==>
               states[ConflictIdentity(o)] == o.detail.form.state
    ensures Notes(if o.detail.form.RpkiValidation? then states[ConflictIdentity(o) := o.detail.form.state] else states,
                  met + [o])
  {
    var more := met + [o];
    var after := if o.detail.form.RpkiValidation? then states[ConflictIdentity(o) := o.detail.form.state] else states;
    forall c | c in after ensures exists i | 0 <= i < |more| ::
        more[i].detail.form.RpkiValidation? && ConflictIdentity(more[i]) == c && more[i].detail.form.state == after[c]
    {
      if c in states {
        var i :| 0 <= i < |met| && met[i].detail.form.RpkiValidation? && ConflictIdentity(met[i]) == c
                 && met[i].detail.form.state == states[c];
        assert more[i] == met[i];
      } else {
        assert more[|met|] == o;
      }
    }
  }

  /** One pass over the observations in order: conflicting states fail, and the first of each
      identity is kept. */
  method Deduplicate(ordered: seq<NetworkObservation>) returns (kept: Option<seq<NetworkObservation>>)
    ensures kept.Some? <==> NoConflicts(ordered)
    ensures kept.Some? ==> kept.value == KeepFirst(ordered)
  {
    hide Conflicts, Identity, ConflictIdentity, NoConflicts, Notes, Seen;
    var rpkiStates: map<(string, string, string, Time), string> := map[];
    var identities: set<NetworkObservation> := {};
    var first: seq<NetworkObservation> := [];
    StartsClear();
    for i := 0 to |ordered|
      invariant NoConflicts(ordered[..i]) && Notes(rpkiStates, ordered[..i])
      invariant first == KeepFirst(ordered[..i])
      invariant forall o :: Identity(o) in identities <==> Seen(first, o)
    {
      var o := ordered[i];
      assert ordered[..i + 1] == ordered[..i] + [o] && ordered[..i + 1][..i] == ordered[..i];
      NoConflictStep(ordered[..i], o, rpkiStates);
      if o.detail.form.RpkiValidation? {
        var identity := ConflictIdentity(o);
        if identity in rpkiStates && rpkiStates[identity] != o.detail.form.state {
          if NoConflicts(ordered) { NoConflictsBefore(ordered, i + 1); }
          return None;
        }
        NotesStep(ordered[..i], o, rpkiStates);
        rpkiStates := rpkiStates[identity := o.detail.form.state];
      } else {
        NotesStep(ordered[..i], o, rpkiStates);
      }
      SeenStep(first, o);
      if Identity(o) !in identities {
        identities := identities + {Identity(o)};
        first := first + [o];
      }
    }
    assert ordered[..|ordered|] == ordered;
    return Some(first);
  }

  lemma StartsClear()
    ensures NoConflicts([]) && Notes(map[], []) && forall o :: !Seen([], o)
  {
  }

  lemma SeenStep(xs: seq<NetworkObservation>, x: NetworkObservation)
    ensures forall o :: Seen(xs + [x], o) <==> Seen(xs, o) || Identity(o) == Identity(x)
  {
    hide Identity;
    forall o ensures Seen(xs + [x], o) <==> Seen(xs, o) || Identity(o) == Identity(x) {
      if i :| 0 <= i < |xs| && Identity(xs[i]) == Identity(o) { assert (xs + [x])[i] == xs[i]; }
      if Identity(o) == Identity(x) { assert (xs + [x])[|xs|] == x; }
    }
  }

  /** Counts the observations of every prefix. */
  method CountPerPrefix(xs: seq<NetworkObservation>) returns (counts: map<string, nat>)
    ensures forall p: string :: (if p in counts then counts[p] else 0) == |Group(xs, NetworkPrefix, p)|
    ensures forall p :: p in counts <==> exists i | 0 <= i < |xs| :: xs[i].prefix == p
  {
    counts := map[];
    for i := 0 to |xs|
      invariant forall p: string :: (if p in counts then counts[p] else 0) == |Group(xs[..i], NetworkPrefix, p)|
      invariant forall p :: p in counts <==> exists k | 0 <= k < i :: xs[k].prefix == p
    {
      assert xs[..i + 1][..i] == xs[..i];
      var p := xs[i].prefix;
      counts := counts[p := (if p in counts then counts[p] else 0) + 1];
    }
    assert xs[..|xs|] == xs;
  }

  /** canonical_network_observations. */
  method CanonicalObservations(xs: seq<NetworkObservation>) returns (canonical: Option<seq<NetworkObservation>>)
    ensures canonical == CanonicalNetwork(xs)
  {
    hide SortedUnique, KeepFirst, NoConflicts, Group;
    var kept := Deduplicate(SortedUnique(xs, NetworkKey));
    if kept.None? { return None; }
    var sorted := SortedUnique(kept.value, NetworkKey);
    var counts := CountPerPrefix(sorted);
    if exists p | p in counts :: counts[p] > MAX_OBSERVATIONS_PER_PREFIX {
      assert !FewPerPrefix(sorted);
      return None;
    }
    assert FewPerPrefix(sorted);
    return Some(sorted);
  }
}
