/** The whole decision of a takeover check, told from the rules and the answers alone: which
    rules it cites and how, its status, its errors, what it asks, and when it raises. */
module TakeoverDecision {
  import opened Wrappers
  import opened Ordering
  import opened Texts
  import opened TakeoverEvidence
  import opened TakeoverVerdict

  // ---- the rules in question ----

  /** The rules in question are those that every resolver matches, each where it stood. */
  lemma {:induction false} CandidatesExact(rules: seq<Rule>, dns: seq<DnsOutcome>) returns (at: seq<nat>)
    ensures |at| == |Candidates(rules, dns)|
    ensures forall i | 0 <= i < |at| :: at[i] < |rules| && Candidates(rules, dns)[i] == rules[at[i]]
    ensures forall i, j | 0 <= i < j < |at| :: at[i] < at[j]
    ensures forall k: nat | k < |rules| :: k in at <==> MatchesAll(rules[k], dns)
  {
    hide MatchesAll;
    at := [];
    if rules != [] {
      var n := |rules| - 1;
      at := CandidatesExact(rules[..n], dns);
      forall k: nat | k < n ensures k in at <==> MatchesAll(rules[k], dns) {
        assert rules[..n][k] == rules[k];
      }
      if MatchesAll(rules[n], dns) { at := at + [n]; }
    }
  }

  lemma CandidateOf(rules: seq<Rule>, dns: seq<DnsOutcome>, k: nat) returns (c: nat)
    requires k < |rules| && MatchesAll(rules[k], dns)
    ensures c < |Candidates(rules, dns)| && Candidates(rules, dns)[c] == rules[k]
  {
    hide MatchesAll, Candidates;
    var at := CandidatesExact(rules, dns);
    c :| c < |at| && at[c] == k;
  }

  lemma RuleOf(rules: seq<Rule>, dns: seq<DnsOutcome>, c: nat) returns (k: nat)
    requires c < |Candidates(rules, dns)|
    ensures k < |rules| && Candidates(rules, dns)[c] == rules[k] && MatchesAll(rules[k], dns)
  {
    hide MatchesAll, Candidates;
    var at := CandidatesExact(rules, dns);
    k := at[c];
    assert k in at;
  }

  predicate SomeMatches(rules: seq<Rule>, dns: seq<DnsOutcome>) {
    exists k | 0 <= k < |rules| :: MatchesAll(rules[k], dns)
  }

  lemma NoneInQuestion(rules: seq<Rule>, dns: seq<DnsOutcome>)
    ensures Candidates(rules, dns) != [] <==> SomeMatches(rules, dns)
  {
    hide MatchesAll, Candidates;
    if k :| 0 <= k < |rules| && MatchesAll(rules[k], dns) { var _ := CandidateOf(rules, dns, k); }
    if Candidates(rules, dns) != [] { var _ := RuleOf(rules, dns, 0); }
  }

  // ---- when a rule fires, and what it is cited with ----

  predicate Shows(rule: Rule, f: Fetched) { f.Answered? && HttpCondition(rule, f.response) }

  /** The rule's own condition: a terminal code of its own on every resolver, or one of the
      two answers that meets its HTTP condition. */
  predicate ConditionMet(rule: Rule, dns: seq<DnsOutcome>, https: Fetched, http: Fetched) {
    if rule.terminalRcodes != [] then forall i | 0 <= i < |dns| :: dns[i].rcode in rule.terminalRcodes
    else Shows(rule, https) || Shows(rule, http)
  }

  predicate Fires(rule: Rule, dns: seq<DnsOutcome>, https: Fetched, http: Fetched) {
    MatchesAll(rule, dns) && ConditionMet(rule, dns, https, http)
  }

  predicate SomeFires(rules: seq<Rule>, dns: seq<DnsOutcome>, https: Fetched, http: Fetched) {
    exists k | 0 <= k < |rules| :: Fires(rules[k], dns, https, http)
  }

  /** The predicate is one of those that a firing rule is cited with. */
  predicate Cited(rule: Rule, https: Fetched, http: Fetched, p: Matched) {
    if rule.terminalRcodes != [] then p.TerminalRcode? && p.rcode in rule.terminalRcodes
    else
      var answer := if Shows(rule, https) then https else http;
      && answer.Answered?
      && match p
         case TerminalRcode(_) => false
         case StatusCode(n) => rule.statusCodes != [] && n == answer.response.status
         case Body(s) => s in rule.bodyAll || (s in rule.bodyAny && answer.response.inBody(s))
         case BodyRegex(s) => s in rule.regexAll || (s in rule.regexAny && answer.response.regexInBody(s))
         case Header(s) => s in rule.headerAny && answer.response.inHeaders(s)
  }

  /** The indicator is the one that stands for the rule: its names, the first scheme that
      shows its condition, and the predicates that hold, each once and in order. */
  ghost predicate StandsFor(ind: Indicator, rule: Rule, https: Fetched, http: Fetched) {
    && ind.ruleId == Strip(rule.ruleId) && ind.service == Strip(rule.service)
    && ind.classification == rule.classification
    && ind.scheme == (if rule.terminalRcodes != [] then None
                      else if Shows(rule, https) then Some(Https) else Some(Http))
    && StrictlySorted(ind.matched, RenderKey)
    && forall p :: p in ind.matched <==> Cited(rule, https, http, p)
  }

  lemma SpeakerShows(rule: Rule, https: Fetched, http: Fetched)
    requires ValidRule(rule) && rule.terminalRcodes == []
    ensures Speaker(rule, https, http) ==
              if Shows(rule, https) then Some(Https) else if Shows(rule, http) then Some(Http) else None
  {
    if https.Answered? { MatchedIffCondition(rule, https.response); }
    if http.Answered? { MatchedIffCondition(rule, http.response); }
    hide MatchHttp, HttpCondition, ValidRule;
  }

  lemma HttpStands(rule: Rule, https: Fetched, http: Fetched)
    requires ValidRule(rule) && rule.terminalRcodes == [] && (Shows(rule, https) || Shows(rule, http))
    ensures Speaker(rule, https, http).Some?
    ensures StandsFor(HttpIndicator(rule, https, http), rule, https, http)
  {
    SpeakerShows(rule, https, http);
    hide Speaker, Listed, SortedUnique, HttpCondition, ValidRule, Strip, StrictlySorted, RenderKey;
    var response := (if Shows(rule, https) then https else http).response;
    ListedKeysDiffer(rule, response);
    SortedUniqueKeeps(Listed(rule, response), RenderKey);
    forall p ensures p in MatchHttp(rule, response) <==> Cited(rule, https, http, p) {
      ListedMembers(rule, response, p);
    }
  }

  lemma TerminalsInOrder(rule: Rule)
    requires NoDuplicates(rule.terminalRcodes)
    ensures StrictlySorted(RawDnsIndicator(rule).matched, RenderKey)
  {
    var listed := Terminals(rule.terminalRcodes);
    TerminalsMembers(rule.terminalRcodes);
    forall x, y | x in listed && y in listed && RenderKey(x) == RenderKey(y) ensures x == y {
      assert RenderKey(x)[0] == RenderKey(y)[0];
      RenderDiffers(x, y);
    }
    hide Sorted, SortedUnique, StrictlySorted, Terminals, RenderKey, NoDuplicates;
    SortedIsUnique(listed, RenderKey);
    SortedUniqueKeeps(listed, RenderKey);
  }

  lemma DnsStands(rule: Rule, https: Fetched, http: Fetched)
    requires rule.terminalRcodes != [] && CitableDns(rule)
    ensures StandsFor(StoredIndicator(RawDnsIndicator(rule)), rule, https, http)
  {
    TerminalsInOrder(rule);
    TerminalsIn(rule);
    hide Sorted, StrictlySorted, Terminals, RenderKey, NoDuplicates, Strip;
  }

  /** No two indicators stand for the same rule. */
  lemma StandsForOne(a: Indicator, b: Indicator, rule: Rule, https: Fetched, http: Fetched)
    requires StandsFor(a, rule, https, http) && StandsFor(b, rule, https, http)
    ensures a == b
  {
    hide Cited, StrictlySorted, RenderKey, Strip;
    SortedDetermined(a.matched, b.matched, RenderKey);
  }

  // ---- what the rules in question bring together ----

  lemma {:induction false} DnsIndicatorsComplete(rules: seq<Rule>, dns: seq<DnsOutcome>, k: nat)
    requires k < |rules| && FiresDns(rules[k], dns)
    ensures StoredIndicator(RawDnsIndicator(rules[k])) in DnsIndicators(rules, dns)
  {
    hide FiresDns, StoredIndicator, RawDnsIndicator;
    if k < |rules| - 1 { DnsIndicatorsComplete(rules[..|rules| - 1], dns, k); }
  }

  lemma {:induction false} HttpIndicatorsComplete(rules: seq<Rule>, https: Fetched, http: Fetched, k: nat)
    requires k < |rules| && Speaker(rules[k], https, http).Some?
    ensures HttpIndicator(rules[k], https, http) in HttpIndicators(rules, https, http)
  {
    hide Speaker, HttpIndicator;
    if k < |rules| - 1 { HttpIndicatorsComplete(rules[..|rules| - 1], https, http, k); }
  }

  /** Every rule in question that fires is cited. */
  lemma CollectedComplete(rules: seq<Rule>, dns: seq<DnsOutcome>, https: Fetched, http: Fetched, c: nat)
    requires c < |rules| && ValidRule(rules[c]) && ConditionMet(rules[c], dns, https, http)
    ensures Citation(rules[c], https, http).Some?
    ensures Citation(rules[c], https, http).value in Collected(rules, dns, https, http)
  {
    hide DnsIndicators, HttpIndicators, Speaker, HttpIndicator, RawDnsIndicator, StoredIndicator, ValidRule, Shows;
    if rules[c].terminalRcodes != [] {
      DnsIndicatorsComplete(rules, dns, c);
    } else {
      SpeakerShows(rules[c], https, http);
      HttpIndicatorsComplete(rules, https, http, c);
    }
  }

  lemma CollectedOnly(rules: seq<Rule>, dns: seq<DnsOutcome>, https: Fetched, http: Fetched, i: nat) returns (c: nat)
    requires i < |Collected(rules, dns, https, http)| && forall k | 0 <= k < |rules| :: ValidRule(rules[k])
    ensures c < |rules| && ConditionMet(rules[c], dns, https, http)
    ensures Citation(rules[c], https, http) == Some(Collected(rules, dns, https, http)[i])
  {
    hide DnsIndicators, HttpIndicators, Speaker, HttpIndicator, RawDnsIndicator, StoredIndicator, ValidRule, Shows;
    var first := DnsIndicators(rules, dns);
    if i < |first| {
      c := DnsIndicatorsSound(rules, dns, i);
    } else {
      c := HttpIndicatorsSound(rules, https, http, i - |first|);
      SpeakerIsHttp(rules[c], https, http);
      SpeakerShows(rules[c], https, http);
    }
  }

  lemma SpeakerIsHttp(rule: Rule, https: Fetched, http: Fetched)
    requires Speaker(rule, https, http).Some?
    ensures rule.terminalRcodes == []
  {
  }

  /** What is collected stands for exactly the rules that fire. */
  lemma CollectedExact(rules: seq<Rule>, dns: seq<DnsOutcome>, https: Fetched, http: Fetched, ind: Indicator)
    requires ValidRules(rules)
    ensures ind in Collected(Candidates(rules, dns), dns, https, http) <==>
              exists k | 0 <= k < |rules| :: Fires(rules[k], dns, https, http)
                  && Citation(rules[k], https, http) == Some(ind)
  {
    hide Candidates, Collected, Citation, ConditionMet, MatchesAll, ValidRule;
    var candidates := Candidates(rules, dns);
    CandidatesValid(rules, dns);
    var collected := Collected(candidates, dns, https, http);
    if i :| 0 <= i < |collected| && collected[i] == ind {
      var c := CollectedOnly(candidates, dns, https, http, i);
      var k := RuleOf(rules, dns, c);
      assert Fires(rules[k], dns, https, http);
    }
    if k :| 0 <= k < |rules| && Fires(rules[k], dns, https, http) && Citation(rules[k], https, http) == Some(ind) {
      var c := CandidateOf(rules, dns, k);
      CollectedComplete(candidates, dns, https, http, c);
    }
  }

  // ---- errors ----

  /** The name an outcome's error goes by. */
  predicate NamesError(o: DnsOutcome, e: string) {
    o.errorType == Some(e) || (o.errorType.None? && o.rcode == Error && e == "DNSError")
  }

  predicate Named(dns: seq<DnsOutcome>, e: string) { exists i | 0 <= i < |dns| :: NamesError(dns[i], e) }

  lemma {:induction false} ErrorsExact(dns: seq<DnsOutcome>)
    ensures forall e :: e in Errors(dns) <==> Named(dns, e)
  {
    if dns != [] {
      var init, last := dns[..|dns| - 1], dns[|dns| - 1];
      ErrorsExact(init);
      forall e ensures e in Errors(dns) <==> Named(dns, e) {
        hide NamesError;
        if i :| 0 <= i < |init| && NamesError(init[i], e) { assert dns[i] == init[i]; }
        if i :| 0 <= i < |dns| && NamesError(dns[i], e) { assert i < |init| ==> init[i] == dns[i]; }
        LastError(last, e);
      }
    }
  }

  lemma LastError(o: DnsOutcome, e: string)
    ensures NamesError(o, e) <==>
              (o.errorType.Some? || o.rcode == Error) && e == o.errorType.GetOr("DNSError")
  {
  }

  // ---- how far a check gets ----

  /** The control is asked for: the candidate's resolvers agree, without error, and some
      rule matches them all. */
  predicate ControlAsked(rules: seq<Rule>, dns: seq<DnsOutcome>) {
    ErrorFree(dns) && !Disagree(dns) && SomeMatches(rules, dns)
  }

  predicate HttpRuleMatches(rules: seq<Rule>, dns: seq<DnsOutcome>) {
    exists k | 0 <= k < |rules| :: MatchesAll(rules[k], dns) && rules[k].terminalRcodes == []
  }

  /** The host is asked over HTTP: candidate and control are well apart, and a rule that
      matches needs it. */
  predicate HttpAsked(rules: seq<Rule>, dns: seq<DnsOutcome>, wildcard: seq<DnsOutcome>) {
    Distinguished(dns, wildcard) && HttpRuleMatches(rules, dns)
  }

  lemma NeedsHttpIff(rules: seq<Rule>, dns: seq<DnsOutcome>)
    ensures NeedsHttp(Candidates(rules, dns)) <==> HttpRuleMatches(rules, dns)
  {
    hide MatchesAll, Candidates;
    var candidates := Candidates(rules, dns);
    if c :| 0 <= c < |candidates| && candidates[c].terminalRcodes == [] {
      var k := RuleOf(rules, dns, c);
    }
    if k :| 0 <= k < |rules| && MatchesAll(rules[k], dns) && rules[k].terminalRcodes == [] {
      var c := CandidateOf(rules, dns, k);
    }
  }

  /** Candidate and control are well apart exactly when none of the early ends applies. */
  lemma ApartIff(dns: seq<DnsOutcome>, wildcard: seq<DnsOutcome>)
    requires |dns| == |wildcard| && dns != []
    ensures Errors(dns) == [] <==> ErrorFree(dns)
    ensures WildcardErrors(wildcard) == [] <==> ErrorFree(wildcard) && !Disagree(wildcard)
    ensures Distinguished(dns, wildcard) <==>
              && Errors(dns) == [] && !Disagree(dns) && WildcardErrors(wildcard) == []
              && !SameEverywhere(dns, wildcard)
  {
    ErrorsNamed(dns);
    ErrorsNamed(wildcard);
    WildcardErrorsAre(wildcard);
    hide Errors, ErrorFree, Disagree, WildcardErrors;
    if Errors(dns) == [] && !Disagree(dns) && WildcardErrors(wildcard) == [] && !SameEverywhere(dns, wildcard) {
      DistinguishedHere(dns, wildcard);
    }
    if Distinguished(dns, wildcard) { assert dns[0].chain != wildcard[0].chain || dns[0].rcode != wildcard[0].rcode; }
  }

  lemma EvaluatesIff(rules: seq<Rule>, dns: seq<DnsOutcome>, wildcard: seq<DnsOutcome>)
    requires |dns| == |wildcard| && dns != []
    ensures Evaluates(rules, dns, wildcard) <==> Distinguished(dns, wildcard) && SomeMatches(rules, dns)
  {
    ApartIff(dns, wildcard);
    NoneInQuestion(rules, dns);
    hide Errors, ErrorFree, Disagree, WildcardErrors, SameEverywhere, Candidates, Distinguished, SomeMatches;
  }

  // ---- the decision ----

  /** A check that does not evaluate its rules cites nothing. */
  lemma CitesOnlyWhenEvaluated(
      rules: seq<Rule>, hostname: string, dns: seq<DnsOutcome>, wildcard: seq<DnsOutcome>, https: Fetched,
      http: Fetched)
    requires |dns| == |wildcard|
    ensures var v := Verdict(rules, hostname, dns, wildcard, https, http);
            if Evaluates(rules, dns, wildcard) then
              v.indicators == SortedUnique(Collected(Candidates(rules, dns), dns, https, http), IndicatorKey)
            else v.indicators == []
  {
    if Evaluates(rules, dns, wildcard) {
      EvaluatesUnfold(rules, hostname, dns, wildcard, https, http);
      EvaluatedParts(Candidates(rules, dns), hostname, dns, wildcard, https, http);
    } else {
      hide Errors, Candidates, Disagree, SameEverywhere, WildcardErrors, SortedUnique;
    }
  }

  /** Completeness and soundness at once: an indicator is recorded exactly when candidate and
      control are well apart and it is the citation of a rule that fires. */
  lemma IndicatorsAreExact(
      rules: seq<Rule>, hostname: string, dns: seq<DnsOutcome>, wildcard: seq<DnsOutcome>, https: Fetched,
      http: Fetched, ind: Indicator)
    requires ValidRules(rules) && |dns| == |wildcard| && dns != []
    ensures ind in Verdict(rules, hostname, dns, wildcard, https, http).indicators <==>
              && Distinguished(dns, wildcard)
              && exists k | 0 <= k < |rules| :: Fires(rules[k], dns, https, http)
                   && Citation(rules[k], https, http) == Some(ind)
  {
    CitesOnlyWhenEvaluated(rules, hostname, dns, wildcard, https, http);
    EvaluatesIff(rules, dns, wildcard);
    CollectedExact(rules, dns, https, http, ind);
    SortedUniqueMembers(Collected(Candidates(rules, dns), dns, https, http), IndicatorKey);
    hide *;
    if k :| 0 <= k < |rules| && Fires(rules[k], dns, https, http) && Citation(rules[k], https, http) == Some(ind) {
      FiringMatches(rules, dns, https, http, k);
    }
  }

  lemma FiringMatches(rules: seq<Rule>, dns: seq<DnsOutcome>, https: Fetched, http: Fetched, k: nat)
    requires k < |rules| && Fires(rules[k], dns, https, http)
    ensures SomeMatches(rules, dns)
  {
    hide MatchesAll, ConditionMet;
  }

  /** The citation of a rule that fires and can be cited is the indicator that stands for it. */
  lemma CitationStands(rule: Rule, dns: seq<DnsOutcome>, https: Fetched, http: Fetched)
    requires ValidRule(rule) && ConditionMet(rule, dns, https, http)
    requires rule.terminalRcodes != [] ==> CitableDns(rule)
    ensures Citation(rule, https, http).Some?
    ensures StandsFor(Citation(rule, https, http).value, rule, https, http)
  {
    hide ValidRule, StandsFor, Shows, CitableDns;
    if rule.terminalRcodes != [] { DnsStands(rule, https, http); } else { HttpStands(rule, https, http); }
  }

  lemma FiredIsCitable(
      rules: seq<Rule>, dns: seq<DnsOutcome>, wildcard: seq<DnsOutcome>, https: Fetched, http: Fetched, k: nat)
    requires |dns| == |wildcard| && Evaluates(rules, dns, wildcard) && !Raises(rules, dns, wildcard, https, http)
    requires k < |rules| && Fires(rules[k], dns, https, http) && rules[k].terminalRcodes != []
    ensures CitableDns(rules[k])
  {
    EvaluatesUnfold(rules, "", dns, wildcard, https, http);
    hide MatchesAll, Candidates, CitableDns, Evaluates, Raises, HttpRaises, Clash, Collected;
    var c := CandidateOf(rules, dns, k);
  }

  /** Everything a check that does not raise cites: the indicators recorded are those that
      stand for the rules that fire, when candidate and control are well apart. */
  lemma RulesThatFireAreCited(
      rules: seq<Rule>, hostname: string, dns: seq<DnsOutcome>, wildcard: seq<DnsOutcome>, https: Fetched,
      http: Fetched, ind: Indicator)
    requires ValidRules(rules) && |dns| == |wildcard| && dns != []
    requires !Raises(rules, dns, wildcard, https, http)
    ensures ind in Verdict(rules, hostname, dns, wildcard, https, http).indicators <==>
              && Distinguished(dns, wildcard)
              && exists k | 0 <= k < |rules| :: Fires(rules[k], dns, https, http)
                   && StandsFor(ind, rules[k], https, http)
  {
    IndicatorsAreExact(rules, hostname, dns, wildcard, https, http, ind);
    EvaluatesIff(rules, dns, wildcard);
    hide *;
    if Distinguished(dns, wildcard) {
      forall k | 0 <= k < |rules| && Fires(rules[k], dns, https, http)
        ensures Citation(rules[k], https, http) == Some(ind) <==> StandsFor(ind, rules[k], https, http)
      {
        FiringMatches(rules, dns, https, http, k);
        if rules[k].terminalRcodes != [] { FiredIsCitable(rules, dns, wildcard, https, http, k); }
        FiringParts(rules, dns, https, http, k);
        CitationStands(rules[k], dns, https, http);
        if StandsFor(ind, rules[k], https, http) {
          StandsForOne(ind, Citation(rules[k], https, http).value, rules[k], https, http);
        }
      }
    }
  }

  lemma FiringParts(rules: seq<Rule>, dns: seq<DnsOutcome>, https: Fetched, http: Fetched, k: nat)
    requires ValidRules(rules) && k < |rules| && Fires(rules[k], dns, https, http)
    ensures ValidRule(rules[k]) && MatchesAll(rules[k], dns) && ConditionMet(rules[k], dns, https, http)
  {
    hide MatchesAll, ConditionMet, ValidRule;
  }

  /** A rule whose id no other has, margins aside, is cited exactly when it fires. */
  lemma RuleIsCitedIffItFires(
      rules: seq<Rule>, hostname: string, dns: seq<DnsOutcome>, wildcard: seq<DnsOutcome>, https: Fetched,
      http: Fetched, k: nat)
    requires ValidRules(rules) && |dns| == |wildcard| && dns != [] && k < |rules|
    requires forall j | 0 <= j < |rules| && j != k :: Strip(rules[j].ruleId) != Strip(rules[k].ruleId)
    requires !Raises(rules, dns, wildcard, https, http)
    ensures (exists ind :: ind in Verdict(rules, hostname, dns, wildcard, https, http).indicators
                && ind.ruleId == Strip(rules[k].ruleId))
       <==> Distinguished(dns, wildcard) && Fires(rules[k], dns, https, http)
  {
    hide *;
    var cited := Verdict(rules, hostname, dns, wildcard, https, http).indicators;
    if ind :| ind in cited && ind.ruleId == Strip(rules[k].ruleId) {
      RulesThatFireAreCited(rules, hostname, dns, wildcard, https, http, ind);
      var j :| 0 <= j < |rules| && Fires(rules[j], dns, https, http) && StandsFor(ind, rules[j], https, http);
      StandingId(ind, rules[j], https, http);
    }
    if Distinguished(dns, wildcard) && Fires(rules[k], dns, https, http) {
      EvaluatesIff(rules, dns, wildcard);
      FiringMatches(rules, dns, https, http, k);
      if rules[k].terminalRcodes != [] { FiredIsCitable(rules, dns, wildcard, https, http, k); }
      FiringParts(rules, dns, https, http, k);
      CitationStands(rules[k], dns, https, http);
      var ind := Citation(rules[k], https, http).value;
      StandingId(ind, rules[k], https, http);
      IndicatorsAreExact(rules, hostname, dns, wildcard, https, http, ind);
    }
  }

  lemma StandingId(ind: Indicator, rule: Rule, https: Fetched, http: Fetched)
    requires StandsFor(ind, rule, https, http)
    ensures ind.ruleId == Strip(rule.ruleId)
  {
    hide Cited, StrictlySorted, RenderKey;
  }

  lemma CitesIff(rules: seq<Rule>, dns: seq<DnsOutcome>, https: Fetched, http: Fetched)
    requires ValidRules(rules)
    ensures SortedUnique(Collected(Candidates(rules, dns), dns, https, http), IndicatorKey) != []
       <==> SomeFires(rules, dns, https, http)
  {
    var collected := Collected(Candidates(rules, dns), dns, https, http);
    SortedUniqueMembers(collected, IndicatorKey);
    hide *;
    var cited := SortedUnique(collected, IndicatorKey);
    if cited != [] {
      assert cited[0] in cited;
      CollectedExact(rules, dns, https, http, cited[0]);
      SomeFiresIff(rules, dns, https, http);
    }
    if SomeFires(rules, dns, https, http) {
      SomeFiresIff(rules, dns, https, http);
      var k :| 0 <= k < |rules| && Fires(rules[k], dns, https, http);
      var c := FiringCandidate(rules, dns, https, http, k);
      assert Citation(rules[k], https, http).value in collected;
    }
  }

  lemma SomeFiresIff(rules: seq<Rule>, dns: seq<DnsOutcome>, https: Fetched, http: Fetched)
    ensures SomeFires(rules, dns, https, http) <==>
              exists k | 0 <= k < |rules| :: Fires(rules[k], dns, https, http)
  {
    hide Fires;
  }

  lemma FiringCandidate(rules: seq<Rule>, dns: seq<DnsOutcome>, https: Fetched, http: Fetched, k: nat)
      returns (c: nat)
    requires ValidRules(rules) && k < |rules| && Fires(rules[k], dns, https, http)
    ensures Citation(rules[k], https, http).Some?
    ensures Citation(rules[k], https, http).value in Collected(Candidates(rules, dns), dns, https, http)
  {
    hide *;
    FiringParts(rules, dns, https, http, k);
    c := CandidateOf(rules, dns, k);
    CollectedComplete(Candidates(rules, dns), dns, https, http, c);
  }

  /** The status, for everything the queries may return: an indicator exactly when a rule
      fires against a control well apart; nothing found exactly when no rule matches, or none
      fires and whatever was asked over HTTP answered; undecided otherwise. */
  lemma StatusIsDecided(
      rules: seq<Rule>, hostname: string, dns: seq<DnsOutcome>, wildcard: seq<DnsOutcome>, https: Fetched,
      http: Fetched)
    requires ValidRules(rules) && |dns| == |wildcard| && dns != []
    ensures var status := Verdict(rules, hostname, dns, wildcard, https, http).status;
            && (status == Indicated <==> Distinguished(dns, wildcard) && SomeFires(rules, dns, https, http))
            && (status == NoIndicator <==>
                  && ErrorFree(dns) && !Disagree(dns)
                  && (SomeMatches(rules, dns) ==>
                        && Distinguished(dns, wildcard) && !SomeFires(rules, dns, https, http)
                        && (HttpRuleMatches(rules, dns) ==> https.Answered? && http.Answered?)))
  {
    if Evaluates(rules, dns, wildcard) {
      EvaluatedStatus(rules, hostname, dns, wildcard, https, http);
    } else {
      EarlyStatus(rules, hostname, dns, wildcard, https, http);
    }
    ApartIff(dns, wildcard);
    EvaluatesIff(rules, dns, wildcard);
    hide *;
    if !Evaluates(rules, dns, wildcard) { EarlyNeverFires(rules, dns, wildcard, https, http); }
    if Distinguished(dns, wildcard) { ApartIsClean(dns, wildcard); }
  }

  lemma ApartIsClean(dns: seq<DnsOutcome>, wildcard: seq<DnsOutcome>)
    requires Distinguished(dns, wildcard)
    ensures ErrorFree(dns) && !Disagree(dns)
  {
    hide ErrorFree, Disagree;
  }

  lemma EvaluatedStatus(
      rules: seq<Rule>, hostname: string, dns: seq<DnsOutcome>, wildcard: seq<DnsOutcome>, https: Fetched,
      http: Fetched)
    requires ValidRules(rules) && |dns| == |wildcard| && Evaluates(rules, dns, wildcard)
    ensures var status := Verdict(rules, hostname, dns, wildcard, https, http).status;
            && (status == Indicated <==> SomeFires(rules, dns, https, http))
            && (status == NoIndicator <==>
                  && !SomeFires(rules, dns, https, http)
                  && (HttpRuleMatches(rules, dns) ==> https.Answered? && http.Answered?))
  {
    EvaluatesUnfold(rules, hostname, dns, wildcard, https, http);
    CitesIff(rules, dns, https, http);
    NeedsHttpIff(rules, dns);
    FetchErrorsIff(https, http);
    NothingSorted();
    hide *;
    EvaluatedStatusIs(Candidates(rules, dns), hostname, dns, wildcard, https, http);
  }

  lemma EvaluatedStatusIs(
      candidates: seq<Rule>, hostname: string, dns: seq<DnsOutcome>, wildcard: seq<DnsOutcome>, https: Fetched,
      http: Fetched)
    ensures var status := Evaluated(candidates, hostname, dns, wildcard, https, http).status;
            var errors := if NeedsHttp(candidates) then FetchErrors(https, http) else [];
            status == if SortedUnique(Collected(candidates, dns, https, http), IndicatorKey) != [] then Indicated
                      else if SortedUnique(errors, TextKey) != [] then Inconclusive else NoIndicator
  {
    hide SortedUnique, Collected, NeedsHttp, FetchErrors, HttpEvidence;
  }

  lemma EarlyStatus(
      rules: seq<Rule>, hostname: string, dns: seq<DnsOutcome>, wildcard: seq<DnsOutcome>, https: Fetched,
      http: Fetched)
    requires |dns| == |wildcard| && !Evaluates(rules, dns, wildcard)
    ensures var status := Verdict(rules, hostname, dns, wildcard, https, http).status;
            && status != Indicated
            && (status == NoIndicator <==> ErrorFree(dns) && !Disagree(dns) && !SomeMatches(rules, dns))
  {
    ErrorsNamed(dns);
    NoneInQuestion(rules, dns);
    hide Errors, Candidates, Disagree, SameEverywhere, WildcardErrors, SortedUnique, ErrorFree, SomeMatches;
  }

  lemma EarlyNeverFires(
      rules: seq<Rule>, dns: seq<DnsOutcome>, wildcard: seq<DnsOutcome>, https: Fetched, http: Fetched)
    requires !(Distinguished(dns, wildcard) && SomeMatches(rules, dns))
    ensures !(Distinguished(dns, wildcard) && SomeFires(rules, dns, https, http))
  {
    hide Fires, MatchesAll, Distinguished;
    if k :| 0 <= k < |rules| && Fires(rules[k], dns, https, http) { FiringMatches(rules, dns, https, http, k); }
  }

  lemma FetchErrorsIff(https: Fetched, http: Fetched)
    ensures SortedUnique(FetchErrors(https, http), TextKey) == [] <==> https.Answered? && http.Answered?
  {
    ErrorTupleMembers(FetchErrors(https, http));
    hide SortedUnique;
  }

  lemma NothingSorted()
    ensures SortedUnique([], TextKey) == []
  {
  }

  // ---- evidence, errors and requests ----

  /** What is kept of an answer: its status, its Location without margins, and what failed. */
  predicate Keeps(h: HttpOutcome, scheme: Scheme, f: Fetched) {
    && h.scheme == scheme
    && h.status == (if f.Answered? then Some(f.response.status) else f.status)
    && h.location == (if f.location.Some? then Some(Strip(f.location.value)) else None)
    && h.errorType == (if f.Answered? then None else if f.failure == ResponseLimit then Some("ResponseLimitError")
                       else Some("TransportError"))
    && (h.truncated <==> f.Failed? && f.failure == ResponseLimit)
  }

  lemma KeptOf(scheme: Scheme, f: Fetched)
    ensures Keeps(StoredHttp(RawHttp(scheme, f)), scheme, f)
  {
    if f.Failed? { FailureFits(f.failure); }
    hide Strip;
  }

  /** The evidence beside the decision: the control exactly when it was asked for, both
      answers exactly when the host was. */
  lemma EvidenceIsRecorded(
      rules: seq<Rule>, hostname: string, dns: seq<DnsOutcome>, wildcard: seq<DnsOutcome>, https: Fetched,
      http: Fetched)
    requires |dns| == |wildcard| && dns != []
    ensures var v := Verdict(rules, hostname, dns, wildcard, https, http);
            && v.hostname == hostname && v.dns == dns
            && v.wildcard == (if ControlAsked(rules, dns) then wildcard else [])
            && if HttpAsked(rules, dns, wildcard)
               then |v.http| == 2 && Keeps(v.http[0], Http, http) && Keeps(v.http[1], Https, https)
               else v.http == []
  {
    ApartIff(dns, wildcard);
    NoneInQuestion(rules, dns);
    NeedsHttpIff(rules, dns);
    EvaluatesIff(rules, dns, wildcard);
    MatchingHttp(rules, dns);
    VerdictParts(rules, hostname, dns, wildcard, https, http);
    BothKept(https, http);
    hide *;
    HttpAskedIff(rules, dns, wildcard);
    ControlAskedIff(rules, dns);
  }

  lemma HttpAskedIff(rules: seq<Rule>, dns: seq<DnsOutcome>, wildcard: seq<DnsOutcome>)
    ensures HttpAsked(rules, dns, wildcard) <==> Distinguished(dns, wildcard) && HttpRuleMatches(rules, dns)
  {
  }

  lemma ControlAskedIff(rules: seq<Rule>, dns: seq<DnsOutcome>)
    ensures ControlAsked(rules, dns) <==> ErrorFree(dns) && !Disagree(dns) && SomeMatches(rules, dns)
  {
  }

  lemma BothKept(https: Fetched, http: Fetched)
    ensures var kept := HttpEvidence(https, http);
            |kept| == 2 && Keeps(kept[0], Http, http) && Keeps(kept[1], Https, https)
  {
    KeptOf(Http, http);
    KeptOf(Https, https);
    hide Keeps, RawHttp, StoredHttp;
  }

  lemma VerdictParts(
      rules: seq<Rule>, hostname: string, dns: seq<DnsOutcome>, wildcard: seq<DnsOutcome>, https: Fetched,
      http: Fetched)
    requires |dns| == |wildcard|
    ensures var v := Verdict(rules, hostname, dns, wildcard, https, http);
            && v.hostname == hostname && v.dns == dns
            && v.wildcard == (if Errors(dns) == [] && !Disagree(dns) && Candidates(rules, dns) != [] then wildcard
                              else [])
            && v.http == if Evaluates(rules, dns, wildcard) && NeedsHttp(Candidates(rules, dns))
                         then HttpEvidence(https, http) else []
  {
    hide Errors, Candidates, Collected, Disagree, SameEverywhere, WildcardErrors, SortedUnique, NeedsHttp, FetchErrors,
      HttpEvidence;
  }

  lemma MatchingHttp(rules: seq<Rule>, dns: seq<DnsOutcome>)
    ensures HttpRuleMatches(rules, dns) ==> SomeMatches(rules, dns)
  {
    hide MatchesAll;
  }

  /** Why a check is undecided, name by name. */
  predicate ErrorDue(
      rules: seq<Rule>, dns: seq<DnsOutcome>, wildcard: seq<DnsOutcome>, https: Fetched, http: Fetched, e: string)
  {
    if !ErrorFree(dns) then Named(dns, e)
    else if Disagree(dns) then e == "ResolverDisagreementError"
    else if !SomeMatches(rules, dns) then false
    else if !ErrorFree(wildcard) || Disagree(wildcard) then
      || Named(wildcard, e) || e == "WildcardControlError" || (Disagree(wildcard) && e == "WildcardDisagreementError")
    else if !Distinguished(dns, wildcard) then e == "WildcardIndistinguishableError"
    else HttpRuleMatches(rules, dns) && (FailsAs(https, e) || FailsAs(http, e))
  }

  predicate FailsAs(f: Fetched, e: string) { f.Failed? && FailureName(f.failure) == e }

  lemma WildcardErrorsExact(wildcard: seq<DnsOutcome>, e: string)
    ensures e in WildcardErrors(wildcard) + ["WildcardControlError"] <==>
              || Named(wildcard, e) || e == "WildcardControlError"
              || (Disagree(wildcard) && e == "WildcardDisagreementError")
  {
    ErrorsExact(wildcard);
    hide Errors, Disagree, Named;
  }

  /** The errors of each branch, before they are put in order. */
  function DueErrors(
      rules: seq<Rule>, dns: seq<DnsOutcome>, wildcard: seq<DnsOutcome>, https: Fetched, http: Fetched): seq<string>
    requires |dns| == |wildcard|
  {
    if Errors(dns) != [] then Errors(dns)
    else if Disagree(dns) then ["ResolverDisagreementError"]
    else if Candidates(rules, dns) == [] then []
    else if WildcardErrors(wildcard) != [] then WildcardErrors(wildcard) + ["WildcardControlError"]
    else if SameEverywhere(dns, wildcard) then ["WildcardIndistinguishableError"]
    else if NeedsHttp(Candidates(rules, dns)) then FetchErrors(https, http)
    else []
  }

  lemma VerdictErrors(
      rules: seq<Rule>, hostname: string, dns: seq<DnsOutcome>, wildcard: seq<DnsOutcome>, https: Fetched,
      http: Fetched)
    requires |dns| == |wildcard|
    ensures Verdict(rules, hostname, dns, wildcard, https, http).errors
         == SortedUnique(DueErrors(rules, dns, wildcard, https, http), TextKey)
  {
    NothingSorted();
    hide Errors, Candidates, Collected, Disagree, SameEverywhere, WildcardErrors, SortedUnique, NeedsHttp,
      FetchErrors, HttpEvidence;
  }

  lemma DueIff(
      rules: seq<Rule>, dns: seq<DnsOutcome>, wildcard: seq<DnsOutcome>, https: Fetched, http: Fetched, e: string)
    requires |dns| == |wildcard| && dns != []
    ensures e in DueErrors(rules, dns, wildcard, https, http) <==> ErrorDue(rules, dns, wildcard, https, http, e)
  {
    ApartIff(dns, wildcard);
    NoneInQuestion(rules, dns);
    NeedsHttpIff(rules, dns);
    ErrorsExact(dns);
    WildcardErrorsExact(wildcard, e);
    hide Errors, Candidates, Disagree, SameEverywhere, WildcardErrors, ErrorFree, Distinguished, SomeMatches,
      HttpRuleMatches, NeedsHttp, Named, FailsAs, FetchErrors;
    FetchErrorsExact(https, http, e);
  }

  lemma FetchErrorsExact(https: Fetched, http: Fetched, e: string)
    ensures e in FetchErrors(https, http) <==> FailsAs(https, e) || FailsAs(http, e)
  {
    hide FailureName;
  }

  /** The errors recorded are those due, each once and in order. */
  lemma ErrorsAreDecided(
      rules: seq<Rule>, hostname: string, dns: seq<DnsOutcome>, wildcard: seq<DnsOutcome>, https: Fetched,
      http: Fetched, e: string)
    requires |dns| == |wildcard| && dns != []
    ensures var errors := Verdict(rules, hostname, dns, wildcard, https, http).errors;
            && StrictlySorted(errors, TextKey)
            && (e in errors <==> ErrorDue(rules, dns, wildcard, https, http, e))
  {
    hide *;
    DueIff(rules, dns, wildcard, https, http, e);
    VerdictErrors(rules, hostname, dns, wildcard, https, http);
    TextKeysDiffer();
    SortedUniqueKeeps(DueErrors(rules, dns, wildcard, https, http), TextKey);
  }

  // ---- when a check raises, told from the rules ----

  /** A firing DNS rule repeats a terminal code or has an overlong id or service. */
  predicate SomeDnsUncitable(rules: seq<Rule>, dns: seq<DnsOutcome>) {
    exists k | 0 <= k < |rules| :: MatchesAll(rules[k], dns) && FiresDns(rules[k], dns) && !CitableDns(rules[k])
  }

  predicate SomeHttpUncitable(rules: seq<Rule>, dns: seq<DnsOutcome>, https: Fetched, http: Fetched) {
    exists k | 0 <= k < |rules| :: MatchesAll(rules[k], dns) && !CitesHttp(rules[k], https, http)
  }

  /** Two rules that fire are cited under one id, and not alike. */
  predicate SomeClash(rules: seq<Rule>, dns: seq<DnsOutcome>, https: Fetched, http: Fetched) {
    exists j, k | 0 <= j < |rules| && 0 <= k < |rules| ::
      && Fires(rules[j], dns, https, http) && Fires(rules[k], dns, https, http)
      && Strip(rules[j].ruleId) == Strip(rules[k].ruleId)
      && Citation(rules[j], https, http) != Citation(rules[k], https, http)
  }

  predicate OverlongName(dns: seq<DnsOutcome>) {
    exists e | e in Errors(dns) :: !TextFits(e, 512)
  }

  lemma UncitableDnsIff(rules: seq<Rule>, dns: seq<DnsOutcome>)
    ensures UncitableDns(Candidates(rules, dns), dns) <==> SomeDnsUncitable(rules, dns)
  {
    hide MatchesAll, Candidates, FiresDns, CitableDns;
    var candidates := Candidates(rules, dns);
    if c :| 0 <= c < |candidates| && FiresDns(candidates[c], dns) && !CitableDns(candidates[c]) {
      var k := RuleOf(rules, dns, c);
    }
    if k :| 0 <= k < |rules| && MatchesAll(rules[k], dns) && FiresDns(rules[k], dns) && !CitableDns(rules[k]) {
      var c := CandidateOf(rules, dns, k);
    }
  }

  lemma UncitableHttpIff(rules: seq<Rule>, dns: seq<DnsOutcome>, https: Fetched, http: Fetched)
    ensures UncitableHttp(Candidates(rules, dns), https, http) <==> SomeHttpUncitable(rules, dns, https, http)
  {
    hide MatchesAll, Candidates, CitesHttp;
    var candidates := Candidates(rules, dns);
    if c :| 0 <= c < |candidates| && !CitesHttp(candidates[c], https, http) { var k := RuleOf(rules, dns, c); }
    if k :| 0 <= k < |rules| && MatchesAll(rules[k], dns) && !CitesHttp(rules[k], https, http) {
      var c := CandidateOf(rules, dns, k);
    }
  }

  lemma CitationId(rule: Rule, https: Fetched, http: Fetched)
    requires Citation(rule, https, http).Some?
    ensures Citation(rule, https, http).value.ruleId == Strip(rule.ruleId)
  {
    hide Strip, MatchHttp, Sorted, Terminals, Speaker;
  }

  lemma ClashIff(rules: seq<Rule>, dns: seq<DnsOutcome>, https: Fetched, http: Fetched)
    requires ValidRules(rules)
    ensures Clash(Collected(Candidates(rules, dns), dns, https, http)) <==> SomeClash(rules, dns, https, http)
  {
    hide Candidates, Collected, Citation, Fires, Strip, ValidRules;
    var collected := Collected(Candidates(rules, dns), dns, https, http);
    if Clash(collected) {
      var i, j :| 0 <= i < |collected| && 0 <= j < |collected|
                  && collected[i] != collected[j] && collected[i].ruleId == collected[j].ruleId;
      CollectedExact(rules, dns, https, http, collected[i]);
      CollectedExact(rules, dns, https, http, collected[j]);
      var k :| 0 <= k < |rules| && Fires(rules[k], dns, https, http)
               && Citation(rules[k], https, http) == Some(collected[i]);
      var l :| 0 <= l < |rules| && Fires(rules[l], dns, https, http)
               && Citation(rules[l], https, http) == Some(collected[j]);
      CitationId(rules[k], https, http);
      CitationId(rules[l], https, http);
      assert SomeClash(rules, dns, https, http);
    }
    if SomeClash(rules, dns, https, http) {
      var k, l :| 0 <= k < |rules| && 0 <= l < |rules|
                  && Fires(rules[k], dns, https, http) && Fires(rules[l], dns, https, http)
                  && Strip(rules[k].ruleId) == Strip(rules[l].ruleId)
                  && Citation(rules[k], https, http) != Citation(rules[l], https, http);
      var c := FiringCandidate(rules, dns, https, http, k);
      var d := FiringCandidate(rules, dns, https, http, l);
      CitationId(rules[k], https, http);
      CitationId(rules[l], https, http);
      var a, b := Citation(rules[k], https, http).value, Citation(rules[l], https, http).value;
      assert a in collected && b in collected && a != b && a.ruleId == b.ruleId;
    }
  }

  lemma OverlongIff(dns: seq<DnsOutcome>)
    ensures OverlongName(dns) <==> !ErrorsFit(Errors(dns))
    ensures OverlongName(dns) <==> exists e :: Named(dns, e) && !TextFits(e, 512)
  {
    ErrorsExact(dns);
    hide Errors, TextFits, Named;
  }

  /** A check raises exactly when an error that it reports has an overlong name, or its rules
      are evaluated and one that fires cannot be cited, an answer cannot be recorded, or two
      that fire clash. */
  lemma RaisesIff(
      rules: seq<Rule>, dns: seq<DnsOutcome>, wildcard: seq<DnsOutcome>, https: Fetched, http: Fetched)
    requires ValidRules(rules) && |dns| == |wildcard| && dns != []
    ensures Raises(rules, dns, wildcard, https, http) <==>
              if !ErrorFree(dns) then OverlongName(dns)
              else if Disagree(dns) || !SomeMatches(rules, dns) then false
              else if !ErrorFree(wildcard) || Disagree(wildcard) then OverlongName(wildcard)
              else
                && Distinguished(dns, wildcard)
                && (|| SomeDnsUncitable(rules, dns) || SomeClash(rules, dns, https, http)
                    || (HttpRuleMatches(rules, dns)
                        && (!Recordable(https) || !Recordable(http) || SomeHttpUncitable(rules, dns, https, http))))
  {
    ApartIff(dns, wildcard);
    NoneInQuestion(rules, dns);
    NeedsHttpIff(rules, dns);
    OverlongIff(dns);
    OverlongIff(wildcard);
    UncitableDnsIff(rules, dns);
    UncitableHttpIff(rules, dns, https, http);
    ClashIff(rules, dns, https, http);
    hide Errors, Candidates, Collected, Disagree, SameEverywhere, WildcardErrors, ErrorFree, Distinguished,
      SomeMatches, HttpRuleMatches, NeedsHttp, OverlongName, ErrorsFit, UncitableDns, UncitableHttp, Clash,
      SomeClash, SomeDnsUncitable, SomeHttpUncitable, Recordable, ValidRules, Named, TextFits;
  }

  /** Two requests are sent exactly when the host is asked and every DNS rule that fires can
      be cited, none otherwise. */
  lemma RequestsAreDecided(rules: seq<Rule>, dns: seq<DnsOutcome>, wildcard: seq<DnsOutcome>)
    requires |dns| == |wildcard| && dns != []
    ensures Requests(rules, dns, wildcard) ==
              if HttpAsked(rules, dns, wildcard) && !SomeDnsUncitable(rules, dns) then 2 else 0
  {
    EvaluatesIff(rules, dns, wildcard);
    NeedsHttpIff(rules, dns);
    UncitableDnsIff(rules, dns);
    MatchingHttp(rules, dns);
    hide Candidates, NeedsHttp, UncitableDns, SomeDnsUncitable, HttpRuleMatches, Distinguished, SomeMatches, Evaluates;
  }
}
