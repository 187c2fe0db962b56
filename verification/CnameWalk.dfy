/** Following a CNAME chain through one resolver: no name is asked twice, the walk is
    bounded, and what it reports is decided by the names it passes through. */
module CnameWalk {
  import opened Wrappers
  import opened Ordering
  import opened TakeoverEvidence

  /** A DNS error code of one of the three queries. */
  datatype Code = NotFound | Empty | Other

  /** What the A, AAAA and CNAME queries for one name return together: the CNAME targets
      that are hostnames, whether an address was among the answers, the codes of the DNS
      errors that carry one, and the names of all other faults. */
  datatype Answer = Answer(cnames: seq<string>, addressFound: bool, codes: seq<Code>, faults: seq<string>)

  const MAX_CNAME_HOPS: nat := 32

  function AddNew(chain: seq<string>, names: seq<string>): seq<string> {
    if names == [] then chain
    else
      var before, last := AddNew(chain, names[..|names| - 1]), names[|names| - 1];
      if last in before then before else before + [last]
  }

  /** The name an answer leads to, if it is an alias: the last of its distinct targets. */
  function Next(a: Answer): Option<string> {
    var distinct := AddNew([], a.cnames);
    if distinct == [] then None else Some(distinct[|distinct| - 1])
  }

  /** Every fault by name: a DNS error other than "not found" and "empty" counts as one. */
  function Faults(a: Answer): seq<string> {
    a.faults + if Other in a.codes then ["DNSError"] else []
  }

  lemma LeastFirst(texts: seq<string>)
    requires texts != []
    ensures var sorted := Sorted(texts, TextKey);
            sorted != [] && sorted[0] in texts && forall t | t in texts :: !TextLt(t, sorted[0])
  {
    hide Sorted, TextLt;
    var sorted := Sorted(texts, TextKey);
    SortedKeeps(texts, TextKey);
    assert texts[0] in sorted;
    assert sorted[0] in sorted;
    forall t | t in texts ensures !TextLt(t, sorted[0]) {
      var i :| 0 <= i < |sorted| && sorted[i] == t;
      TextOrder(t, t);
      TextKeyLt(t, sorted[0]);
      assert i > 0 ==> !KeyLt(TextKey(sorted[i]), TextKey(sorted[0]));
    }
  }

  lemma NoneFirst()
    ensures Sorted([], TextKey) == []
  {
  }

  /** The classification of an answer that is no alias. */
  function Terminal(a: Answer): (Rcode, Option<string>) {
    var rcode :=
      if a.addressFound then NoError
      else if a.codes != [] && (forall c | c in a.codes :: c == NotFound) then NxDomain
      else if a.codes != [] && (forall c | c in a.codes :: c != Other) then NoData
      else Error;
    var faults := Sorted(Faults(a), TextKey);
    (rcode, if faults != [] then Some(faults[0]) else if rcode == Error then Some("DNSError") else None)
  }

  /** What the classification says: a name resolves when it has an address, does not exist
      when nothing but "not found" was heard, and is free of error exactly when no query
      failed in any other way and at least one said something; the error reported is the
      least of the faults. */
  lemma TerminalMeans(a: Answer)
    ensures var (rcode, error) := Terminal(a);
            && (rcode == NoError <==> a.addressFound)
            && (rcode == NxDomain <==> !a.addressFound && a.codes != [] && forall c | c in a.codes :: c == NotFound)
            && (rcode == NoData <==> !a.addressFound && Empty in a.codes && Other !in a.codes)
            && (error.None? <==> a.faults == [] && Other !in a.codes && (a.addressFound || a.codes != []))
            && (Faults(a) != [] ==> error.Some? && error.value in Faults(a)
                                    && forall f | f in Faults(a) :: !TextLt(f, error.value))
            && (Faults(a) == [] && error.Some? ==> error.value == "DNSError" && rcode == Error)
  {
    if Faults(a) != [] { LeastFirst(Faults(a)); } else { NoneFirst(); }
    if a.faults != [] { assert Faults(a)[0] == a.faults[0]; }
    hide Sorted, TextLt;
  }

  /** The names asked, in order: each but the first is where the one before leads. */
  ghost predicate Trail(resolve: string -> Answer, hostname: string, asked: seq<string>) {
    && asked != [] && asked[0] == hostname && NoDuplicates(asked)
    && forall i | 0 <= i < |asked| - 1 :: Next(resolve(asked[i])) == Some(asked[i + 1])
  }

  /** All alias targets met along the trail, each once, in order of first appearance. */
  function Targets(resolve: string -> Answer, asked: seq<string>): seq<string> {
    if asked == [] then []
    else AddNew(Targets(resolve, asked[..|asked| - 1]), AddNew([], resolve(asked[|asked| - 1]).cnames))
  }

  /** The report, given the names asked. */
  function Verdict(resolver: string, resolve: string -> Answer, asked: seq<string>): DnsOutcome
    requires asked != []
  {
    var last := resolve(asked[|asked| - 1]);
    var chain := Targets(resolve, asked);
    match Next(last)
    case None => DnsOutcome(resolver, chain, Terminal(last).0, Terminal(last).1)
    case Some(next) =>
      DnsOutcome(resolver, chain, Error, Some(if next in asked then "CNAMECycleError" else "CNAMEHopLimitError"))
  }

  lemma {:induction false} AddNewKeeps(chain: seq<string>, names: seq<string>)
    requires NoDuplicates(chain)
    ensures NoDuplicates(AddNew(chain, names))
    ensures forall n :: n in AddNew(chain, names) <==> n in chain || n in names
  {
    if names != [] {
      AddNewKeeps(chain, names[..|names| - 1]);
      assert names == names[..|names| - 1] + [names[|names| - 1]];
    }
  }

  method AppendNew(chain: seq<string>, names: seq<string>) returns (longer: seq<string>)
    ensures longer == AddNew(chain, names)
  {
    longer := chain;
    for i := 0 to |names|
      invariant longer == AddNew(chain, names[..i])
    {
      assert names[..i + 1][..i] == names[..i];
      if names[i] !in longer { longer := longer + [names[i]]; }
    }
    assert names[..|names|] == names;
  }

  lemma TrailGrows(resolve: string -> Answer, hostname: string, trail: seq<string>, next: string)
    requires Trail(resolve, hostname, trail) && next !in trail
    requires Next(resolve(trail[|trail| - 1])) == Some(next)
    ensures Trail(resolve, hostname, trail + [next])
  {
  }

  lemma TargetsGrow(resolve: string -> Answer, trail: seq<string>, name: string)
    ensures Targets(resolve, trail + [name]) == AddNew(Targets(resolve, trail), AddNew([], resolve(name).cnames))
  {
    assert (trail + [name])[..|trail|] == trail;
  }

  /** asked lists the names queried.  The walk stops at a name that is no alias, or leads
      back to a name asked before, or after the hop limit. */
  method Query(resolver: string, hostname: string, resolve: string -> Answer)
    returns (outcome: DnsOutcome, asked: seq<string>)
    ensures Trail(resolve, hostname, asked) && |asked| <= MAX_CNAME_HOPS
    ensures outcome == Verdict(resolver, resolve, asked)
    ensures var next := Next(resolve(asked[|asked| - 1]));
            next.Some? && next.value !in asked ==> |asked| == MAX_CNAME_HOPS
  {
    hide AddNew, Terminal, Trail, Targets;
    var current := hostname;
    var chain: seq<string> := [];
    var seen := {current};
    asked := [];
    StartsHere(resolve, hostname);
    for hop := 0 to MAX_CNAME_HOPS
      invariant |asked| == hop
      invariant Trail(resolve, hostname, asked + [current])
      invariant seen == (set n | n in asked + [current])
      invariant chain == Targets(resolve, asked)
      invariant hop > 0 ==> Trail(resolve, hostname, asked)
      invariant hop > 0 ==> Next(resolve(asked[hop - 1])) == Some(current) && current !in asked
    {
      var answer := resolve(current);
      TargetsGrow(resolve, asked, current);
      asked := asked + [current];
      var nextCnames := AppendNew([], answer.cnames);
      var longer := AppendNew(chain, nextCnames);
      if nextCnames == [] {
        AddNothing(chain);
        return DnsOutcome(resolver, chain, Terminal(answer).0, Terminal(answer).1), asked;
      }
      chain := longer;
      current := nextCnames[|nextCnames| - 1];
      if current in seen {
        return DnsOutcome(resolver, chain, Error, Some("CNAMECycleError")), asked;
      }
      TrailGrows(resolve, hostname, asked, current);
      seen := seen + {current};
    }
    return DnsOutcome(resolver, chain, Error, Some("CNAMEHopLimitError")), asked;
  }

  lemma StartsHere(resolve: string -> Answer, hostname: string)
    ensures Trail(resolve, hostname, [] + [hostname]) && Targets(resolve, []) == []
  {
  }

  lemma AddNothing(chain: seq<string>)
    ensures AddNew(chain, []) == chain
  {
  }

  /** The reported chain never repeats a name. */
  lemma {:induction false} ChainHasNoRepeats(resolve: string -> Answer, asked: seq<string>)
    ensures NoDuplicates(Targets(resolve, asked))
  {
    if asked != [] {
      ChainHasNoRepeats(resolve, asked[..|asked| - 1]);
      AddNewKeeps(Targets(resolve, asked[..|asked| - 1]), AddNew([], resolve(asked[|asked| - 1]).cnames));
    }
  }

  /** All names in the chain were targets of some name asked. */
  lemma {:induction false} ChainIsOfTargets(resolve: string -> Answer, asked: seq<string>, name: string)
    ensures name in Targets(resolve, asked) <==> exists i :: 0 <= i < |asked| && name in resolve(asked[i]).cnames
  {
    if asked != [] {
      var init, last := asked[..|asked| - 1], asked[|asked| - 1];
      ChainIsOfTargets(resolve, init, name);
      AddNewKeeps([], resolve(last).cnames);
      ChainHasNoRepeats(resolve, init);
      AddNewKeeps(Targets(resolve, init), AddNew([], resolve(last).cnames));
      hide AddNew;
      if i :| 0 <= i < |init| && name in resolve(init[i]).cnames { assert asked[i] == init[i]; }
      if i :| 0 <= i < |asked| && name in resolve(asked[i]).cnames && i < |init| { assert init[i] == asked[i]; }
    }
  }

  /** What a resolver answers when its aliases are canonical names and the names of its
      faults are not overlong. */
  ghost predicate Sound(names: Names, resolve: string -> Answer) {
    forall n :: (forall c | c in resolve(n).cnames :: names(c) == Some(c))
             && (forall f | f in resolve(n).faults :: TextFits(f, 2048))
  }

  lemma OwnErrorsFit()
    ensures TextFits("CNAMECycleError", 2048) && TextFits("CNAMEHopLimitError", 2048) && TextFits("DNSError", 2048)
  {
    ShortTextFits("CNAMECycleError");
    ShortTextFits("CNAMEHopLimitError");
    ShortTextFits("DNSError");
  }

  /** The report of a walk is one that the constructor of DNS outcomes accepts. */
  lemma ReportIsAccepted(names: Names, resolver: string, resolve: string -> Answer, asked: seq<string>)
    requires asked != [] && Sound(names, resolve)
    ensures AcceptsDns(names, Verdict(resolver, resolve, asked))
  {
    hide AddNew, Next, Targets, Terminal, TextFits;
    var last, chain := resolve(asked[|asked| - 1]), Targets(resolve, asked);
    ChainHasNoRepeats(resolve, asked);
    forall i | 0 <= i < |chain| ensures names(chain[i]) == Some(chain[i]) {
      ChainIsOfTargets(resolve, asked, chain[i]);
      var k :| 0 <= k < |asked| && chain[i] in resolve(asked[k]).cnames;
      assert forall c | c in resolve(asked[k]).cnames :: names(c) == Some(c);
    }
    OwnErrorsFit();
    TerminalMeans(last);
    assert forall f | f in last.faults :: TextFits(f, 2048);
    assert forall f | f in Faults(last) :: TextFits(f, 2048);
  }

  /** Trails from one name agree as far as both go, so the walk has no choice. */
  lemma {:induction false} TrailsAgree(resolve: string -> Answer, hostname: string, a: seq<string>, b: seq<string>)
    requires Trail(resolve, hostname, a) && Trail(resolve, hostname, b) && |a| <= |b|
    ensures a == b[..|a|]
  {
    if |a| > 1 {
      var init := a[..|a| - 1];
      assert Trail(resolve, hostname, init);
      TrailsAgree(resolve, hostname, init, b);
      assert a[|a| - 2] == b[|a| - 2];
      assert a == init + [a[|a| - 1]];
    }
  }

  /** Some trail within the bound leads back into itself. */
  ghost predicate ReentersWithin(resolve: string -> Answer, hostname: string, hops: nat) {
    exists t :: Trail(resolve, hostname, t) && |t| <= hops && Reenters(resolve, t)
  }

  predicate Reenters(resolve: string -> Answer, t: seq<string>)
    requires t != []
  {
    var next := Next(resolve(t[|t| - 1]));
    next.Some? && next.value in t
  }

  /** hops distinct names all alias, the last to yet another. */
  ghost predicate AliasesThroughout(resolve: string -> Answer, hostname: string, hops: nat) {
    exists t :: Trail(resolve, hostname, t) && |t| == hops && Escapes(resolve, t)
  }

  predicate Escapes(resolve: string -> Answer, t: seq<string>)
    requires t != []
  {
    var next := Next(resolve(t[|t| - 1]));
    next.Some? && next.value !in t
  }

  ghost predicate EndsAt(resolve: string -> Answer, hostname: string, hops: nat, name: string) {
    exists t :: Trail(resolve, hostname, t) && |t| <= hops && t[|t| - 1] == name && Next(resolve(name)).None?
  }

  /** The walk's trail decides what every trail from its start does, and with it the
      report: a cycle exactly when some trail re-enters itself within the bound, the hop
      limit exactly when as many distinct names all alias, and otherwise the
      classification of the name at which all trails end. */
  lemma WalkDecides(resolver: string, resolve: string -> Answer, hostname: string, asked: seq<string>)
    requires Trail(resolve, hostname, asked) && |asked| <= MAX_CNAME_HOPS
    requires Escapes(resolve, asked) ==> |asked| == MAX_CNAME_HOPS
    ensures var outcome, last := Verdict(resolver, resolve, asked), asked[|asked| - 1];
            && (ReentersWithin(resolve, hostname, MAX_CNAME_HOPS) ==>
                  outcome.rcode == Error && outcome.errorType == Some("CNAMECycleError"))
            && (AliasesThroughout(resolve, hostname, MAX_CNAME_HOPS) ==>
                  outcome.rcode == Error && outcome.errorType == Some("CNAMEHopLimitError"))
            && (EndsAt(resolve, hostname, MAX_CNAME_HOPS, last) ==>
                  (outcome.rcode, outcome.errorType) == Terminal(resolve(last)))
    ensures Reenters(resolve, asked) <==> ReentersWithin(resolve, hostname, MAX_CNAME_HOPS)
    ensures Escapes(resolve, asked) <==> AliasesThroughout(resolve, hostname, MAX_CNAME_HOPS)
    ensures Next(resolve(asked[|asked| - 1])).None? <==> EndsAt(resolve, hostname, MAX_CNAME_HOPS, asked[|asked| - 1])
  {
    hide Next, Terminal, Targets;
    if t :| Trail(resolve, hostname, t) && |t| <= MAX_CNAME_HOPS && Reenters(resolve, t) {
      SameEnd(resolve, hostname, asked, t);
    }
    if t :| Trail(resolve, hostname, t) && |t| == MAX_CNAME_HOPS && Escapes(resolve, t) {
      SameEnd(resolve, hostname, asked, t);
    }
  }

  /** Two trails within the bound end at the same place, unless one can still go on. */
  lemma SameEnd(resolve: string -> Answer, hostname: string, a: seq<string>, b: seq<string>)
    requires Trail(resolve, hostname, a) && Trail(resolve, hostname, b)
    requires Escapes(resolve, a) ==> |a| >= |b|
    requires Escapes(resolve, b) ==> |b| >= |a|
    ensures a == b
  {
    hide Next;
    if |a| < |b| {
      TrailsAgree(resolve, hostname, a, b);
      Continues(resolve, hostname, a, b);
    } else {
      TrailsAgree(resolve, hostname, b, a);
      if |b| < |a| { Continues(resolve, hostname, b, a); }
      assert a[..|a|] == a;
    }
  }

  /** A trail that a longer one extends does escape. */
  lemma Continues(resolve: string -> Answer, hostname: string, a: seq<string>, b: seq<string>)
    requires Trail(resolve, hostname, a) && Trail(resolve, hostname, b) && |a| < |b| && a == b[..|a|]
    ensures Escapes(resolve, a)
  {
    assert a[|a| - 1] == b[|a| - 1];
    assert Next(resolve(b[|a| - 1])) == Some(b[|a|]);
  }

  /** Where every name has at most one target, the chain is the names after the first,
      and once more the name re-entered or left for, if it is not yet there. */
  lemma {:induction false} SingleValuedChain(resolve: string -> Answer, hostname: string, asked: seq<string>)
    requires Trail(resolve, hostname, asked)
    requires forall n | n in asked :: |AddNew([], resolve(n).cnames)| <= 1
    ensures Targets(resolve, asked) ==
              var next := Next(resolve(asked[|asked| - 1]));
              if next.Some? && next.value !in asked[1..] then asked[1..] + [next.value] else asked[1..]
  {
    hide AddNew, Trail, Targets, NoDuplicates;
    TrailParts(resolve, hostname, asked);
    var init, last := asked[..|asked| - 1], asked[|asked| - 1];
    TargetsGrow(resolve, init, last);
    if init == [] {
      StartsHere(resolve, hostname);
      assert asked[1..] == [];
    } else {
      SingleValuedChain(resolve, hostname, init);
      assert asked[1..] == init[1..] + [last];
    }
    assert Targets(resolve, init) == asked[1..];
    assert last in asked;
    AddOne(asked[1..], AddNew([], resolve(last).cnames));
  }

  lemma TrailParts(resolve: string -> Answer, hostname: string, asked: seq<string>)
    requires Trail(resolve, hostname, asked)
    ensures asked != []
    ensures var init, last := asked[..|asked| - 1], asked[|asked| - 1];
            && asked == init + [last] && (forall n | n in init :: n in asked)
            && (init != [] ==>
                  && Trail(resolve, hostname, init)
                  && Next(resolve(init[|init| - 1])) == Some(last) && last !in init[1..])
  {
    hide Next;
    var init, last := asked[..|asked| - 1], asked[|asked| - 1];
    assert asked == init + [last];
    if init != [] { assert Next(resolve(asked[|init| - 1])) == Some(asked[|init|]); }
  }

  lemma AddOne(chain: seq<string>, targets: seq<string>)
    requires |targets| <= 1
    ensures AddNew(chain, targets) == if targets == [] || targets[0] in chain then chain else chain + targets
  {
    if |targets| == 1 { assert targets[..0] == []; }
  }
}
