/** What a takeover check concludes about one hostname, when it raises instead, and why the
    conclusion is sound. */
module TakeoverVerdict {
  import opened Wrappers
  import opened Ordering
  import opened Texts
  import opened TakeoverEvidence

  /** A response as the rules see it: which patterns its body and headers hold. */
  datatype Response = Response(status: int, inBody: string -> bool, regexInBody: string -> bool,
      inHeaders: string -> bool)

  datatype Failure = ResponseLimit | Transport

  /** What one request comes back with. */
  datatype Fetched =
    | Answered(response: Response, location: Option<string>)
    | Failed(status: Option<int>, location: Option<string>, failure: Failure)

  datatype Rule = Rule(
    ruleId: string, service: string, classification: string,
    matchesName: string -> bool,
    terminalRcodes: seq<Rcode>,
    statusCodes: seq<int>,
    bodyAll: seq<string>, bodyAny: seq<string>, bodyNone: seq<string>,
    regexAll: seq<string>, regexAny: seq<string>, regexNone: seq<string>,
    headerAny: seq<string>, headerNone: seq<string>)

  // ---- rules ----

  predicate NoHttpPredicate(rule: Rule) {
    && rule.statusCodes == [] && rule.bodyAll == [] && rule.bodyAny == [] && rule.bodyNone == []
    && rule.regexAll == [] && rule.regexAny == [] && rule.regexNone == []
    && rule.headerAny == [] && rule.headerNone == []
  }

  predicate PositivePredicate(rule: Rule) {
    || rule.terminalRcodes != [] || rule.statusCodes != [] || rule.bodyAll != [] || rule.bodyAny != []
    || rule.regexAll != [] || rule.regexAny != [] || rule.headerAny != []
  }

  /** The rule constructor's conditions, those on patterns that cannot be searched aside. */
  predicate ValidRule(rule: Rule) {
    && NonBlank(rule.ruleId) && NonBlank(rule.service) && rule.classification in CLASSIFICATIONS
    && (rule.terminalRcodes != [] ==> NoHttpPredicate(rule))
    && PositivePredicate(rule)
    && (forall s | s in rule.statusCodes :: 100 <= s <= 599)
  }

  predicate ValidRules(rules: seq<Rule>) {
    && (forall i | 0 <= i < |rules| :: ValidRule(rules[i]))
    && (forall i, j | 0 <= i < j < |rules| :: rules[i].ruleId != rules[j].ruleId)
  }

  predicate Contains(patterns: seq<string>, holds: string -> bool) {
    exists i | 0 <= i < |patterns| :: holds(patterns[i])
  }

  predicate All(patterns: seq<string>, holds: string -> bool) {
    forall i | 0 <= i < |patterns| :: holds(patterns[i])
  }

  /** The condition an HTTP rule states. */
  predicate HttpCondition(rule: Rule, response: Response) {
    && (rule.statusCodes == [] || response.status in rule.statusCodes)
    && All(rule.bodyAll, response.inBody)
    && (rule.bodyAny == [] || Contains(rule.bodyAny, response.inBody))
    && !Contains(rule.bodyNone, response.inBody)
    && All(rule.regexAll, response.regexInBody)
    && (rule.regexAny == [] || Contains(rule.regexAny, response.regexInBody))
    && !Contains(rule.regexNone, response.regexInBody)
    && (rule.headerAny == [] || Contains(rule.headerAny, response.inHeaders))
    && !Contains(rule.headerNone, response.inHeaders)
  }

  /** The patterns that hold, in order. */
  function Holding(patterns: seq<string>, holds: string -> bool): seq<string> {
    if patterns == [] then []
    else
      var before, last := Holding(patterns[..|patterns| - 1], holds), patterns[|patterns| - 1];
      if holds(last) then before + [last] else before
  }

  lemma {:induction false} HoldingMembers(patterns: seq<string>, holds: string -> bool)
    ensures forall p :: p in Holding(patterns, holds) <==> p in patterns && holds(p)
  {
    if patterns != [] {
      HoldingMembers(patterns[..|patterns| - 1], holds);
      assert patterns == patterns[..|patterns| - 1] + [patterns[|patterns| - 1]];
    }
  }

  function Bodies(patterns: seq<string>): seq<Matched> {
    seq(|patterns|, i requires 0 <= i < |patterns| => Body(patterns[i]))
  }

  function Regexes(patterns: seq<string>): seq<Matched> {
    seq(|patterns|, i requires 0 <= i < |patterns| => BodyRegex(patterns[i]))
  }

  function Headers(patterns: seq<string>): seq<Matched> {
    seq(|patterns|, i requires 0 <= i < |patterns| => Header(patterns[i]))
  }

  /** The predicates listed when the whole condition holds: one status line per code. */
  function Listed(rule: Rule, response: Response): seq<Matched> {
    seq(|rule.statusCodes|, i => StatusCode(response.status))
    + Bodies(rule.bodyAll) + Bodies(Holding(rule.bodyAny, response.inBody))
    + Regexes(rule.regexAll) + Regexes(Holding(rule.regexAny, response.regexInBody))
    + Headers(Holding(rule.headerAny, response.inHeaders))
  }

  /** _match_http: the predicates that matched, each once and in order; none when any
      condition fails. */
  function MatchHttp(rule: Rule, response: Response): seq<Matched> {
    if HttpCondition(rule, response) then SortedUnique(Listed(rule, response), RenderKey) else []
  }

  lemma ListedMembers(rule: Rule, response: Response, p: Matched)
    ensures p in Listed(rule, response) <==>
              match p
              case TerminalRcode(_) => false
              case StatusCode(n) => rule.statusCodes != [] && n == response.status
              case Body(s) => s in rule.bodyAll || (s in rule.bodyAny && response.inBody(s))
              case BodyRegex(s) => s in rule.regexAll || (s in rule.regexAny && response.regexInBody(s))
              case Header(s) => s in rule.headerAny && response.inHeaders(s)
  {
    HoldingMembers(rule.bodyAny, response.inBody);
    HoldingMembers(rule.regexAny, response.regexInBody);
    HoldingMembers(rule.headerAny, response.inHeaders);
    hide Holding;
    var bodyAny, regexAny := Holding(rule.bodyAny, response.inBody), Holding(rule.regexAny, response.regexInBody);
    var headerAny := Holding(rule.headerAny, response.inHeaders);
    var statuses: seq<Matched> := seq(|rule.statusCodes|, i => StatusCode(response.status));
    if rule.statusCodes != [] { assert statuses[0] == StatusCode(response.status); }
    WrappedMembers(rule.bodyAll, p);
    WrappedMembers(bodyAny, p);
    WrappedMembers(rule.regexAll, p);
    WrappedMembers(regexAny, p);
    WrappedMembers(headerAny, p);
    hide Bodies, Regexes, Headers;
  }

  lemma WrappedMembers(patterns: seq<string>, p: Matched)
    ensures p in Bodies(patterns) <==> p.Body? && p.pattern in patterns
    ensures p in Regexes(patterns) <==> p.BodyRegex? && p.pattern in patterns
    ensures p in Headers(patterns) <==> p.Header? && p.pattern in patterns
  {
    if !p.TerminalRcode? && !p.StatusCode? && p.pattern in patterns {
      var i :| 0 <= i < |patterns| && patterns[i] == p.pattern;
      assert Bodies(patterns)[i] == Body(patterns[i]);
      assert Regexes(patterns)[i] == BodyRegex(patterns[i]);
      assert Headers(patterns)[i] == Header(patterns[i]);
    }
  }

  lemma ListedKeysDiffer(rule: Rule, response: Response)
    ensures forall x, y | x in Listed(rule, response)
              && y in Listed(rule, response) :: RenderKey(x) == RenderKey(y) ==> x == y
  {
    hide Listed, Render;
    forall x, y | x in Listed(rule, response) && y in Listed(rule, response)
        && RenderKey(x) == RenderKey(y) ensures x == y {
      ListedMembers(rule, response, x);
      ListedMembers(rule, response, y);
      assert RenderKey(x)[0] == RenderKey(y)[0];
      RenderDiffers(x, y);
    }
  }

  /** For a rule without DNS predicates, something matched exactly when the condition
      holds: the constructor asks for a positive predicate, and a held one is listed. */
  lemma MatchedIffCondition(rule: Rule, response: Response)
    requires ValidRule(rule) && rule.terminalRcodes == []
    ensures MatchHttp(rule, response) != [] <==> HttpCondition(rule, response)
  {
    if HttpCondition(rule, response) {
      SortedUniqueMembers(Listed(rule, response), RenderKey);
      hide Listed, SortedUnique, Render;
      var p :=
        if rule.statusCodes != [] then StatusCode(response.status)
        else if rule.bodyAll != [] then Body(rule.bodyAll[0])
        else if rule.bodyAny != [] then Body(SomeHolds(rule.bodyAny, response.inBody))
        else if rule.regexAll != [] then BodyRegex(rule.regexAll[0])
        else if rule.regexAny != [] then BodyRegex(SomeHolds(rule.regexAny, response.regexInBody))
        else Header(SomeHolds(rule.headerAny, response.inHeaders));
      ListedMembers(rule, response, p);
      assert p in MatchHttp(rule, response);
    }
  }

  /** The checks one after the other, each of which may end the match, and then the list. */
  method MatchResponse(rule: Rule, response: Response) returns (matched: seq<Matched>)
    ensures matched == MatchHttp(rule, response)
  {
    hide SortedUnique, Holding;
    if rule.statusCodes != [] && response.status !in rule.statusCodes { return []; }
    if exists i | 0 <= i < |rule.bodyAll| :: !response.inBody(rule.bodyAll[i]) { return []; }
    if rule.bodyAny != [] && !Contains(rule.bodyAny, response.inBody) { return []; }
    if Contains(rule.bodyNone, response.inBody) { return []; }
    if exists i | 0 <= i < |rule.regexAll| :: !response.regexInBody(rule.regexAll[i]) { return []; }
    if rule.regexAny != [] && !Contains(rule.regexAny, response.regexInBody) { return []; }
    if Contains(rule.regexNone, response.regexInBody) { return []; }
    if rule.headerAny != [] && !Contains(rule.headerAny, response.inHeaders) { return []; }
    if Contains(rule.headerNone, response.inHeaders) { return []; }
    matched := seq(|rule.statusCodes|, i => StatusCode(response.status));
    matched := matched + Bodies(rule.bodyAll);
    matched := matched + Bodies(Holding(rule.bodyAny, response.inBody));
    matched := matched + Regexes(rule.regexAll);
    matched := matched + Regexes(Holding(rule.regexAny, response.regexInBody));
    matched := matched + Headers(Holding(rule.headerAny, response.inHeaders));
    matched := SortedUnique(matched, RenderKey);
  }

  ghost function SomeHolds(patterns: seq<string>, holds: string -> bool): (p: string)
    requires Contains(patterns, holds)
    ensures p in patterns && holds(p)
  {
    var i :| 0 <= i < |patterns| && holds(patterns[i]);
    patterns[i]
  }

  // ---- DNS views ----

  predicate MatchesDns(rule: Rule, o: DnsOutcome) {
    exists i | 0 <= i < |o.chain| :: rule.matchesName(o.chain[i])
  }

  predicate MatchesAll(rule: Rule, dns: seq<DnsOutcome>) {
    forall i | 0 <= i < |dns| :: MatchesDns(rule, dns[i])
  }

  /** The names of what went wrong, as often as it did. */
  function Errors(dns: seq<DnsOutcome>): seq<string> {
    if dns == [] then []
    else
      var before, last := Errors(dns[..|dns| - 1]), dns[|dns| - 1];
      if last.errorType.Some? || last.rcode == Error then before + [last.errorType.GetOr("DNSError")] else before
  }

  predicate RuleDisagrees(rule: Rule, dns: seq<DnsOutcome>) {
    (exists i | 0 <= i < |dns| :: MatchesDns(rule, dns[i])) && !MatchesAll(rule, dns)
  }

  datatype Wildcard = Indistinguishable | Disagreement | Distinct

  function ControlOf(controls: seq<DnsOutcome>, resolver: string): Option<DnsOutcome> {
    if controls == [] then None
    else if controls[|controls| - 1].resolver == resolver then Some(controls[|controls| - 1])
    else ControlOf(controls[..|controls| - 1], resolver)
  }

  predicate Equivalent(rule: Rule, candidate: DnsOutcome, controls: seq<DnsOutcome>) {
    var control := ControlOf(controls, candidate.resolver);
    && control.Some? && MatchesDns(rule, candidate) && MatchesDns(rule, control.value)
    && candidate.chain == control.value.chain && candidate.rcode == control.value.rcode
  }

  function WildcardState(rule: Rule, candidates: seq<DnsOutcome>, controls: seq<DnsOutcome>): Wildcard {
    if candidates != [] && forall i | 0 <= i < |candidates| :: Equivalent(rule, candidates[i], controls)
    then Indistinguishable
    else if exists i | 0 <= i < |candidates| :: Equivalent(rule, candidates[i], controls) then Disagreement
    else Distinct
  }

  // ---- the same in the loops of the program ----

  method RuleMatchesDns(rule: Rule, outcome: DnsOutcome) returns (matches: bool)
    ensures matches == MatchesDns(rule, outcome)
  {
    for i := 0 to |outcome.chain|
      invariant forall k | 0 <= k < i :: !rule.matchesName(outcome.chain[k])
    {
      if rule.matchesName(outcome.chain[i]) { return true; }
    }
    return false;
  }

  /** The rules that every resolver's outcome matches, in order. */
  method RulesMatching(rules: seq<Rule>, dns: seq<DnsOutcome>) returns (matching: seq<Rule>)
    ensures matching == Candidates(rules, dns)
  {
    hide MatchesDns;
    matching := [];
    for i := 0 to |rules|
      invariant matching == Candidates(rules[..i], dns)
    {
      assert rules[..i + 1][..i] == rules[..i];
      var all, j := true, 0;
      while all && j < |dns|
        invariant 0 <= j <= |dns| && (all ==> forall k | 0 <= k < j :: MatchesDns(rules[i], dns[k]))
        invariant !all ==> exists k | 0 <= k < |dns| :: !MatchesDns(rules[i], dns[k])
      {
        all := RuleMatchesDns(rules[i], dns[j]);
        j := j + 1;
      }
      if all { matching := matching + [rules[i]]; }
    }
    assert rules[..|rules|] == rules;
  }

  method OutcomeErrors(dns: seq<DnsOutcome>) returns (errors: seq<string>)
    ensures errors == Errors(dns)
  {
    errors := [];
    for i := 0 to |dns|
      invariant errors == Errors(dns[..i])
    {
      assert dns[..i + 1][..i] == dns[..i];
      if dns[i].errorType != None || dns[i].rcode == Error {
        errors := errors + [if dns[i].errorType == None then "DNSError" else dns[i].errorType.value];
      }
    }
    assert dns[..|dns|] == dns;
  }

  /** More than one view among the resolvers. */
  method OutcomesDisagree(dns: seq<DnsOutcome>) returns (disagree: bool)
    ensures disagree == Disagree(dns)
  {
    var views := set i | 0 <= i < |dns| :: (dns[i].chain, dns[i].rcode);
    disagree := |views| > 1;
    assert forall i | 0 <= i < |dns| :: (dns[i].chain, dns[i].rcode) in views;
    if Disagree(dns) {
      ghost var i, j :| 0 <= i < |dns| && 0 <= j < |dns|
                        && (dns[i].chain != dns[j].chain || dns[i].rcode != dns[j].rcode);
      TwoAreMore(views, (dns[i].chain, dns[i].rcode), (dns[j].chain, dns[j].rcode));
    } else if dns != [] {
      assert views == {(dns[0].chain, dns[0].rcode)};
    }
  }

  lemma TwoAreMore<T>(xs: set<T>, a: T, b: T)
    requires a in xs && b in xs && a != b
    ensures |xs| > 1
  {
    assert b in xs - {a};
    assert xs == (xs - {a}) + {a};
  }

  method WildcardRuleState(rule: Rule, candidates: seq<DnsOutcome>, controls: seq<DnsOutcome>)
    returns (state: Wildcard)
    ensures state == WildcardState(rule, candidates, controls)
  {
    hide Equivalent;
    var equivalent: seq<bool> := [];
    for i := 0 to |candidates|
      invariant |equivalent| == i
      invariant forall k | 0 <= k < i :: equivalent[k] == Equivalent(rule, candidates[k], controls)
    {
      var same := EquivalentOnResolver(rule, candidates[i], controls);
      equivalent := equivalent + [same];
    }
    if equivalent != [] && forall k | 0 <= k < |equivalent| :: equivalent[k] { return Indistinguishable; }
    if exists k | 0 <= k < |equivalent| :: equivalent[k] { return Disagreement; }
    return Distinct;
  }

  /** The resolver's control, the last with its address, looks just like the candidate. */
  method EquivalentOnResolver(rule: Rule, candidate: DnsOutcome, controls: seq<DnsOutcome>) returns (same: bool)
    ensures same == Equivalent(rule, candidate, controls)
  {
    hide MatchesDns;
    var control: Option<DnsOutcome> := None;
    for i := 0 to |controls|
      invariant control == ControlOf(controls[..i], candidate.resolver)
    {
      assert controls[..i + 1][..i] == controls[..i];
      if controls[i].resolver == candidate.resolver { control := Some(controls[i]); }
    }
    assert controls[..|controls|] == controls;
    if control.None? { return false; }
    var candidateMatches := RuleMatchesDns(rule, candidate);
    var controlMatches := RuleMatchesDns(rule, control.value);
    return candidateMatches && controlMatches && candidate.chain == control.value.chain
        && candidate.rcode == control.value.rcode;
  }

  lemma {:induction false} ControlAt(controls: seq<DnsOutcome>, resolvers: seq<string>, i: nat)
    requires OnePerResolver(controls, resolvers) && NoDuplicates(resolvers) && i < |resolvers|
    ensures ControlOf(controls, resolvers[i]) == Some(controls[i])
  {
    if i < |controls| - 1 {
      ControlAt(controls[..|controls| - 1], resolvers[..|controls| - 1], i);
    }
  }

  /** When neither the candidate's nor the control's resolvers disagree, they are the same
      for every rule or for none. */
  predicate SameEverywhere(candidates: seq<DnsOutcome>, controls: seq<DnsOutcome>)
    requires |candidates| == |controls|
  {
    forall i | 0 <= i < |candidates| :: candidates[i].chain == controls[i].chain
        && candidates[i].rcode == controls[i].rcode
  }

  /** After the two disagreement checks the wildcard state does not depend on the rule,
      and "disagreement" is unreachable. */
  lemma WildcardIsDecided(rule: Rule, candidates: seq<DnsOutcome>, controls: seq<DnsOutcome>, resolvers: seq<string>)
    requires OnePerResolver(candidates, resolvers) && OnePerResolver(controls, resolvers)
    requires NoDuplicates(resolvers) && resolvers != []
    requires !Disagree(candidates) && !Disagree(controls) && MatchesAll(rule, candidates)
    ensures WildcardState(rule, candidates, controls) ==
              if SameEverywhere(candidates, controls) then Indistinguishable else Distinct
    ensures !SameEverywhere(candidates, controls) ==>
              forall i | 0 <= i < |candidates| ::
                candidates[i].chain != controls[i].chain || candidates[i].rcode != controls[i].rcode
  {
    forall i | 0 <= i < |candidates|
      ensures Equivalent(rule, candidates[i], controls) <==>
                candidates[i].chain == controls[i].chain && candidates[i].rcode == controls[i].rcode
    {
      ControlAt(controls, resolvers, i);
      assert MatchesDns(rule, candidates[i]);
      hide MatchesAll, ControlOf;
    }
    hide Equivalent, MatchesAll;
    forall i, j | 0 <= i < |candidates| && 0 <= j < |candidates|
      ensures candidates[i].chain == candidates[j].chain && candidates[i].rcode == candidates[j].rcode
      ensures controls[i].chain == controls[j].chain && controls[i].rcode == controls[j].rcode
    { }
  }

  /** When resolvers agree, "some but not all terminals match" is unreachable too. */
  lemma TerminalIsUnanimous(rule: Rule, dns: seq<DnsOutcome>)
    requires !Disagree(dns)
    ensures (exists i | 0 <= i < |dns| :: dns[i].rcode in rule.terminalRcodes) ==>
              forall i | 0 <= i < |dns| :: dns[i].rcode in rule.terminalRcodes
  {
    if i :| 0 <= i < |dns| && dns[i].rcode in rule.terminalRcodes {
      forall j | 0 <= j < |dns| ensures dns[j].rcode == dns[i].rcode { }
    }
  }

  // ---- HTTP evidence ----

  function FailureName(f: Failure): string { if f == ResponseLimit then "ResponseLimitError" else "TransportError" }

  /** The arguments the HTTP outcome is built from. */
  function RawHttp(scheme: Scheme, f: Fetched): HttpOutcome {
    match f
    case Answered(response, location) => HttpOutcome(scheme, Some(response.status), location, None, false)
    case Failed(status, location, failure) =>
      HttpOutcome(scheme, status, location, Some(FailureName(failure)), failure == ResponseLimit)
  }

  /** A status outside 100 to 599, a Location of nothing but white space and one of more
      than 2048 characters, its margins aside, cannot be recorded. */
  predicate Recordable(f: Fetched) {
    && (f.Answered? ==> 100 <= f.response.status <= 599)
    && (f.Failed? && f.status.Some? ==> 100 <= f.status.value <= 599)
    && (f.location.Some? ==> NonBlank(f.location.value) && |Strip(f.location.value)| <= 2048)
  }

  lemma FailureFits(f: Failure)
    ensures TextFits(FailureName(f), 512) && TextFits(FailureName(f), 2048) && Strip(FailureName(f)) == FailureName(f)
  {
    hide Strip;
    var name := FailureName(f);
    assert name[0] in "RT" && name[|name| - 1] == 'r';
    StripNothing(name);
  }

  /** The constructor accepts an answer exactly when it is recordable. */
  lemma AcceptedIffRecordable(scheme: Scheme, f: Fetched)
    ensures AcceptsHttp(RawHttp(scheme, f)) <==> Recordable(f)
  {
    if f.Failed? { FailureFits(f.failure); }
    if f.location.Some? { StripLeaves(f.location.value); }
    hide Strip, NonBlank;
  }

  // ---- indicators ----

  function Candidates(rules: seq<Rule>, dns: seq<DnsOutcome>): seq<Rule> {
    if rules == [] then []
    else
      var before, last := Candidates(rules[..|rules| - 1], dns), rules[|rules| - 1];
      if MatchesAll(last, dns) then before + [last] else before
  }

  function Terminals(rcodes: seq<Rcode>): seq<Matched> {
    seq(|rcodes|, i requires 0 <= i < |rcodes| => TerminalRcode(rcodes[i]))
  }

  function RawDnsIndicator(rule: Rule): Indicator {
    Indicator(rule.ruleId, rule.classification, rule.service, None, Sorted(Terminals(rule.terminalRcodes), RenderKey))
  }

  function RawHttpIndicator(rule: Rule, scheme: Scheme, response: Response): Indicator {
    Indicator(rule.ruleId, rule.classification, rule.service, Some(scheme), MatchHttp(rule, response))
  }

  /** The DNS rule's condition: every resolver ends at one of its terminals. */
  predicate FiresDns(rule: Rule, dns: seq<DnsOutcome>) {
    rule.terminalRcodes != [] && forall i | 0 <= i < |dns| :: dns[i].rcode in rule.terminalRcodes
  }

  predicate MatchesResponse(rule: Rule, f: Fetched) { f.Answered? && MatchHttp(rule, f.response) != [] }

  /** The scheme that speaks for an HTTP rule: the first whose response matches. */
  function Speaker(rule: Rule, https: Fetched, http: Fetched): (s: Option<Scheme>)
    ensures s == Some(Https) ==> MatchesResponse(rule, https)
    ensures s == Some(Http) ==> MatchesResponse(rule, http)
  {
    if rule.terminalRcodes != [] then None
    else if MatchesResponse(rule, https) then Some(Https)
    else if MatchesResponse(rule, http) then Some(Http)
    else None
  }

  function AnswerOf(scheme: Scheme, https: Fetched, http: Fetched): Fetched { if scheme == Https then https else http }

  function HttpIndicator(rule: Rule, https: Fetched, http: Fetched): Indicator
    requires Speaker(rule, https, http).Some?
  {
    var scheme := Speaker(rule, https, http).value;
    StoredIndicator(RawHttpIndicator(rule, scheme, AnswerOf(scheme, https, http).response))
  }

  function DnsIndicators(rules: seq<Rule>, dns: seq<DnsOutcome>): seq<Indicator> {
    if rules == [] then []
    else
      var before, last := DnsIndicators(rules[..|rules| - 1], dns), rules[|rules| - 1];
      if FiresDns(last, dns) then before + [StoredIndicator(RawDnsIndicator(last))] else before
  }

  function HttpIndicators(rules: seq<Rule>, https: Fetched, http: Fetched): seq<Indicator> {
    if rules == [] then []
    else
      var before, last := HttpIndicators(rules[..|rules| - 1], https, http), rules[|rules| - 1];
      if Speaker(last, https, http).Some? then before + [HttpIndicator(last, https, http)] else before
  }

  // ---- which indicators the constructor accepts ----

  /** A rule's names fit an indicator: the rule constructor asks only that they are not blank. */
  predicate NamesFit(rule: Rule) { |Strip(rule.ruleId)| <= 512 && |Strip(rule.service)| <= 512 }

  predicate CitableDns(rule: Rule) { NamesFit(rule) && NoDuplicates(rule.terminalRcodes) }

  predicate PatternsFit(rule: Rule, response: Response) {
    forall i | 0 <= i < |MatchHttp(rule, response)| :: |Strip(Render(MatchHttp(rule, response)[i]))| <= 512
  }

  predicate CitableHttp(rule: Rule, response: Response) { NamesFit(rule) && PatternsFit(rule, response) }

  lemma NamesFitIff(rule: Rule)
    requires ValidRule(rule)
    ensures TextFits(rule.service, 512) && TextFits(rule.ruleId, 512) <==> NamesFit(rule)
  {
    StripLeaves(rule.ruleId);
    StripLeaves(rule.service);
    hide Strip, NonBlank;
  }

  lemma TerminalsMembers(rcodes: seq<Rcode>)
    ensures forall p :: p in Terminals(rcodes) <==> p.TerminalRcode? && p.rcode in rcodes
    ensures NoDuplicates(Terminals(rcodes)) <==> NoDuplicates(rcodes)
  {
    forall c | c in rcodes ensures TerminalRcode(c) in Terminals(rcodes) {
      var i :| 0 <= i < |rcodes| && rcodes[i] == c;
      assert Terminals(rcodes)[i] == TerminalRcode(c);
    }
    assert forall i | 0 <= i < |rcodes| :: Terminals(rcodes)[i] == TerminalRcode(rcodes[i]);
    if NoDuplicates(Terminals(rcodes)) {
      forall i, j | 0 <= i < j < |rcodes| ensures rcodes[i] != rcodes[j] {
        assert Terminals(rcodes)[i] != Terminals(rcodes)[j];
      }
    }
  }

  /** A DNS rule is cited exactly when its names fit and it repeats no terminal code. */
  lemma DnsAcceptedIffCitable(rule: Rule)
    requires ValidRule(rule) && rule.terminalRcodes != []
    ensures AcceptsIndicator(RawDnsIndicator(rule)) <==> CitableDns(rule)
  {
    hide Strip, Render, NonBlank, Sorted, SortedUnique, Terminals, TextFits;
    NamesFitIff(rule);
    var listed := Terminals(rule.terminalRcodes);
    var matched := Sorted(listed, RenderKey);
    TerminalsMembers(rule.terminalRcodes);
    forall x, y | x in listed && y in listed && RenderKey(x) == RenderKey(y) ensures x == y {
      assert RenderKey(x)[0] == RenderKey(y)[0];
      RenderDiffers(x, y);
    }
    SortedIsFixedIffDistinct(listed, RenderKey);
    SortedKeeps(listed, RenderKey);
    assert TerminalRcode(rule.terminalRcodes[0]) in matched;
    forall i | 0 <= i < |matched| ensures matched[i].TerminalRcode? && TextFits(Render(matched[i]), 512) {
      assert matched[i] in matched && matched[i] in listed;
      TerminalFits(matched[i].rcode);
    }
  }

  /** What matched over HTTP is in order, and names no DNS predicate. */
  lemma MatchHttpShape(rule: Rule, response: Response)
    ensures var matched := MatchHttp(rule, response);
            && SortedUnique(matched, RenderKey) == matched
            && forall p | p in matched :: !p.TerminalRcode? && (p.StatusCode? ==> p.status == response.status)
                                          && Render(p) != "" && Letter(Render(p)[0])
  {
    hide Listed, SortedUnique;
    var listed, matched := Listed(rule, response), MatchHttp(rule, response);
    ListedKeysDiffer(rule, response);
    SortedUniqueKeeps(listed, RenderKey);
    NothingInOrder();
    StrictlySortedIsFixed(matched, RenderKey);
    forall p | p in matched
      ensures !p.TerminalRcode? && (p.StatusCode? ==> p.status == response.status)
              && Render(p) != "" && Letter(Render(p)[0])
    {
      ListedMembers(rule, response, p);
      RenderStarts(p);
    }
  }

  lemma NothingInOrder()
    ensures StrictlySorted([], RenderKey)
  {
  }

  lemma RenderStarts(p: Matched)
    ensures Render(p) != "" && Letter(Render(p)[0])
  {
    hide Decimal, RcodeText;
    match p
    case TerminalRcode(_) => assert Render(p)[0] == 'd';
    case StatusCode(_) => assert Render(p)[0] == 's';
    case Header(_) => assert Render(p)[0] == 'h';
    case _ => assert Render(p)[0] == 'b';
  }

  /** An HTTP rule that matched a recordable response is cited exactly when its names and
      the patterns that matched fit. */
  lemma HttpAcceptedIffCitable(rule: Rule, scheme: Scheme, response: Response)
    requires ValidRule(rule) && MatchHttp(rule, response) != [] && 100 <= response.status <= 599
    ensures AcceptsIndicator(RawHttpIndicator(rule, scheme, response)) <==> CitableHttp(rule, response)
  {
    hide Strip, Render, NonBlank, SortedUnique, MatchHttp;
    NamesFitIff(rule);
    MatchHttpShape(rule, response);
    var matched := MatchHttp(rule, response);
    forall i | 0 <= i < |matched| ensures TextFits(Render(matched[i]), 512) <==> |Strip(Render(matched[i]))| <= 512 {
      assert matched[i] in matched;
      LettersShow(Render(matched[i])[0]);
      StripKeepsStart(Render(matched[i]));
    }
    assert forall i | 0 <= i < |matched| :: matched[i] in matched;
  }

  // ---- the verdict ----

  predicate NeedsHttp(rules: seq<Rule>) {
    exists i | 0 <= i < |rules| :: rules[i].terminalRcodes == []
  }

  function FetchErrors(https: Fetched, http: Fetched): seq<string> {
    (if http.Failed? then [FailureName(http.failure)] else [])
        + (if https.Failed? then [FailureName(https.failure)] else [])
  }

  /** What the rules in question bring together, in the order it is found. */
  function Collected(rules: seq<Rule>, dns: seq<DnsOutcome>, https: Fetched, http: Fetched): seq<Indicator> {
    DnsIndicators(rules, dns) + if NeedsHttp(rules) then HttpIndicators(rules, https, http) else []
  }

  function HttpEvidence(https: Fetched, http: Fetched): seq<HttpOutcome> {
    [StoredHttp(RawHttp(Http, http)), StoredHttp(RawHttp(Https, https))]
  }

  function EvaluatedOutcome(
      hostname: string, dns: seq<DnsOutcome>, wildcard: seq<DnsOutcome>, http: seq<HttpOutcome>,
      indicators: seq<Indicator>, errors: seq<string>): Outcome
  {
    var canonical, names := SortedUnique(indicators, IndicatorKey), SortedUnique(errors, TextKey);
    Outcome(hostname, if canonical != [] then Indicated else if names != [] then Inconclusive else NoIndicator,
            dns, wildcard, http, canonical, names)
  }

  function Evaluated(
      rules: seq<Rule>, hostname: string, dns: seq<DnsOutcome>, wildcard: seq<DnsOutcome>, https: Fetched,
      http: Fetched)
    : Outcome
  {
    var asked := NeedsHttp(rules);
    EvaluatedOutcome(hostname, dns, wildcard, if asked then HttpEvidence(https, http) else [],
                     Collected(rules, dns, https, http), if asked then FetchErrors(https, http) else [])
  }

  function Undecided(hostname: string, dns: seq<DnsOutcome>, wildcard: seq<DnsOutcome>, errors: seq<string>): Outcome {
    Outcome(hostname, Inconclusive, dns, wildcard, [], [], SortedUnique(errors, TextKey))
  }

  function WildcardErrors(wildcard: seq<DnsOutcome>): seq<string> {
    Errors(wildcard) + if Disagree(wildcard) then ["WildcardDisagreementError"] else []
  }

  /** The check gets as far as evaluating its rules. */
  predicate Evaluates(rules: seq<Rule>, dns: seq<DnsOutcome>, wildcard: seq<DnsOutcome>)
    requires |dns| == |wildcard|
  {
    && Errors(dns) == [] && !Disagree(dns) && Candidates(rules, dns) != []
    && WildcardErrors(wildcard) == [] && !SameEverywhere(dns, wildcard)
  }

  /** What the check concludes from what the queries return. */
  function Verdict(
      rules: seq<Rule>, hostname: string, dns: seq<DnsOutcome>, wildcard: seq<DnsOutcome>, https: Fetched,
      http: Fetched)
    : Outcome
    requires |dns| == |wildcard|
  {
    if Errors(dns) != [] then Undecided(hostname, dns, [], Errors(dns))
    else if Disagree(dns) then Undecided(hostname, dns, [], ["ResolverDisagreementError"])
    else if Candidates(rules, dns) == [] then Outcome(hostname, NoIndicator, dns, [], [], [], [])
    else if WildcardErrors(wildcard) != [] then
      Undecided(hostname, dns, wildcard, WildcardErrors(wildcard) + ["WildcardControlError"])
    else if SameEverywhere(dns, wildcard) then Undecided(hostname, dns, wildcard, ["WildcardIndistinguishableError"])
    else Evaluated(Candidates(rules, dns), hostname, dns, wildcard, https, http)
  }

  // ---- when the check raises ----

  predicate UncitableDns(rules: seq<Rule>, dns: seq<DnsOutcome>) {
    exists i | 0 <= i < |rules| :: FiresDns(rules[i], dns) && !CitableDns(rules[i])
  }

  predicate CitesHttp(rule: Rule, https: Fetched, http: Fetched) {
    var scheme := Speaker(rule, https, http);
    scheme.Some? ==> CitableHttp(rule, AnswerOf(scheme.value, https, http).response)
  }

  predicate UncitableHttp(rules: seq<Rule>, https: Fetched, http: Fetched) {
    exists i | 0 <= i < |rules| :: !CitesHttp(rules[i], https, http)
  }

  /** Asking over HTTP fails: an answer cannot be recorded, or a rule that matched cannot be cited. */
  predicate HttpRaises(rules: seq<Rule>, https: Fetched, http: Fetched) {
    NeedsHttp(rules) && (!Recordable(https) || !Recordable(http) || UncitableHttp(rules, https, http))
  }

  /** The check raises: an error's name is overlong, a rule that fires cannot be cited, an
      answer cannot be recorded, or two rules that fire have the same id but for its margins. */
  predicate Raises(rules: seq<Rule>, dns: seq<DnsOutcome>, wildcard: seq<DnsOutcome>, https: Fetched, http: Fetched)
    requires |dns| == |wildcard|
  {
    var candidates := Candidates(rules, dns);
    if Errors(dns) != [] then !ErrorsFit(Errors(dns))
    else if Disagree(dns) || candidates == [] then false
    else if WildcardErrors(wildcard) != [] then !ErrorsFit(Errors(wildcard))
    else if SameEverywhere(dns, wildcard) then false
    else
      || UncitableDns(candidates, dns) || HttpRaises(candidates, https, http)
      || Clash(Collected(candidates, dns, https, http))
  }

  // ---- which outcomes the constructor accepts ----

  predicate ErrorFree(dns: seq<DnsOutcome>) {
    forall i | 0 <= i < |dns| :: dns[i].errorType.None? && dns[i].rcode != Error
  }

  /** The resolvers all agree, without error, and on each the candidate differs from the
      wildcard control in chain or in terminal. */
  predicate Distinguished(dns: seq<DnsOutcome>, wildcard: seq<DnsOutcome>) {
    && |dns| == |wildcard|
    && ErrorFree(dns) && ErrorFree(wildcard) && !Disagree(dns) && !Disagree(wildcard)
    && forall i | 0 <= i < |dns| :: dns[i].chain != wildcard[i].chain || dns[i].rcode != wildcard[i].rcode
  }

  /** Every error is named, and nothing else is. */
  lemma {:induction false} ErrorsNamed(dns: seq<DnsOutcome>)
    ensures Errors(dns) == [] <==> ErrorFree(dns)
    ensures forall i | 0 <= i < |dns| && dns[i].errorType.Some? :: dns[i].errorType.value in Errors(dns)
  {
    if dns != [] {
      ErrorsNamed(dns[..|dns| - 1]);
      assert forall i | 0 <= i < |dns| - 1 :: dns[..|dns| - 1][i] == dns[i];
      assert dns[|dns| - 1].errorType.Some? || dns[|dns| - 1].rcode == Error ==> Errors(dns) != [];
    }
  }

  lemma DistinguishedHere(dns: seq<DnsOutcome>, wildcard: seq<DnsOutcome>)
    requires |dns| == |wildcard| && ErrorFree(dns) && ErrorFree(wildcard)
    requires !Disagree(dns) && !Disagree(wildcard) && !SameEverywhere(dns, wildcard)
    ensures Distinguished(dns, wildcard)
  {
    hide ErrorFree;
    var i :| 0 <= i < |dns| && !(dns[i].chain == wildcard[i].chain && dns[i].rcode == wildcard[i].rcode);
    forall j | 0 <= j < |dns| ensures dns[j].chain != wildcard[j].chain || dns[j].rcode != wildcard[j].rcode {
      assert dns[j].chain == dns[i].chain && dns[j].rcode == dns[i].rcode;
      assert wildcard[j].chain == wildcard[i].chain && wildcard[j].rcode == wildcard[i].rcode;
    }
  }

  /** A check that evaluates its rules has candidate and control well apart. */
  lemma EvaluatesApart(rules: seq<Rule>, dns: seq<DnsOutcome>, wildcard: seq<DnsOutcome>)
    requires |dns| == |wildcard| && Evaluates(rules, dns, wildcard)
    ensures Distinguished(dns, wildcard)
  {
    ErrorsNamed(dns);
    ErrorsNamed(wildcard);
    hide Errors, ErrorFree, Disagree, SameEverywhere, Candidates;
    assert Errors(wildcard) == [] && !Disagree(wildcard);
    DistinguishedHere(dns, wildcard);
  }

  lemma ErrorTupleMembers(errors: seq<string>)
    ensures forall e :: e in SortedUnique(errors, TextKey) <==> e in errors
    ensures SortedUnique(errors, TextKey) == [] <==> errors == []
  {
    SortedUniqueMembers(errors, TextKey);
    hide SortedUnique;
    if errors != [] { assert errors[0] in SortedUnique(errors, TextKey); }
    var tuple := SortedUnique(errors, TextKey);
    if tuple != [] { assert tuple[0] in tuple; }
  }

  lemma NoneInOrder()
    ensures DnsInOrder([]) && HttpInOrder([]) && IndicatorsInOrder([])
  {
  }

  /** An undecided outcome is accepted exactly when the names of its errors fit. */
  lemma UndecidedAccepted(names: Names, hostname: string, dns: seq<DnsOutcome>, wildcard: seq<DnsOutcome>,
      errors: seq<string>)
    requires names(hostname) == Some(hostname) && dns != [] && DnsInOrder(dns) && DnsInOrder(wildcard) && errors != []
    requires forall i | 0 <= i < |dns| && dns[i].errorType.Some? :: dns[i].errorType.value in errors
    requires forall i | 0 <= i < |wildcard| && wildcard[i].errorType.Some? :: wildcard[i].errorType.value in errors
    ensures AcceptsOutcome(names, Undecided(hostname, dns, wildcard, errors)) <==> ErrorsFit(errors)
  {
    ErrorTupleMembers(errors);
    ErrorsInOrderIffFit(errors);
    NoneInOrder();
    hide SortedUnique, DnsInOrder, HttpInOrder, IndicatorsInOrder, ErrorsInOrder, ErrorsFit;
  }

  lemma NoIndicatorAccepted(names: Names, hostname: string, dns: seq<DnsOutcome>)
    requires names(hostname) == Some(hostname) && dns != [] && DnsInOrder(dns) && ErrorFree(dns)
    ensures AcceptsOutcome(names, Outcome(hostname, NoIndicator, dns, [], [], [], []))
  {
    NoneInOrder();
    ErrorsInOrderIffFit([]);
    assert SortedUnique([], TextKey) == [];
    hide DnsInOrder, HttpInOrder, IndicatorsInOrder, ErrorsInOrder;
  }

  /** The check's own error names fit, so appending them changes nothing. */
  lemma OwnErrorFits()
    ensures ErrorsFit(["ResolverDisagreementError"]) && ErrorsFit(["WildcardIndistinguishableError"])
    ensures ErrorsFit(["WildcardDisagreementError"]) && ErrorsFit(["WildcardControlError"])
  {
    hide TextFits, Whitespace;
    ShortTextFits("ResolverDisagreementError");
    ShortTextFits("WildcardIndistinguishableError");
    ShortTextFits("WildcardDisagreementError");
    ShortTextFits("WildcardControlError");
  }

  lemma FitTogether(a: seq<string>, b: seq<string>)
    requires ErrorsFit(b)
    ensures ErrorsFit(a + b) <==> ErrorsFit(a)
  {
    hide TextFits;
    if ErrorsFit(a + b) {
      forall i | 0 <= i < |a| ensures TextFits(a[i], 512) { assert a[i] == (a + b)[i]; }
    }
  }

  lemma WildcardErrorsFit(wildcard: seq<DnsOutcome>)
    ensures ErrorsFit(WildcardErrors(wildcard) + ["WildcardControlError"]) <==> ErrorsFit(Errors(wildcard))
  {
    OwnErrorFits();
    hide ErrorsFit, Errors, Disagree;
    FitTogether(WildcardErrors(wildcard), ["WildcardControlError"]);
    if Disagree(wildcard) {
      FitTogether(Errors(wildcard), ["WildcardDisagreementError"]);
    } else {
      assert WildcardErrors(wildcard) == Errors(wildcard);
    }
  }

  // ---- every indicator collected, and where it comes from ----

  lemma {:induction false} DnsIndicatorsSound(rules: seq<Rule>, dns: seq<DnsOutcome>, i: nat) returns (k: nat)
    requires i < |DnsIndicators(rules, dns)|
    ensures k < |rules| && FiresDns(rules[k], dns)
    ensures DnsIndicators(rules, dns)[i] == StoredIndicator(RawDnsIndicator(rules[k]))
  {
    hide FiresDns, StoredIndicator, RawDnsIndicator;
    var init := rules[..|rules| - 1];
    if i < |DnsIndicators(init, dns)| {
      k := DnsIndicatorsSound(init, dns, i);
    } else {
      k := |rules| - 1;
    }
  }

  lemma {:induction false} HttpIndicatorsSound(rules: seq<Rule>, https: Fetched, http: Fetched, i: nat) returns (k: nat)
    requires i < |HttpIndicators(rules, https, http)|
    ensures k < |rules| && Speaker(rules[k], https, http).Some?
    ensures HttpIndicators(rules, https, http)[i] == HttpIndicator(rules[k], https, http)
  {
    hide Speaker, StoredIndicator, RawHttpIndicator;
    var init := rules[..|rules| - 1];
    if i < |HttpIndicators(init, https, http)| {
      k := HttpIndicatorsSound(init, https, http, i);
    } else {
      k := |rules| - 1;
    }
  }

  lemma TerminalsIn(rule: Rule)
    ensures forall p :: p in RawDnsIndicator(rule).matched <==> p.TerminalRcode? && p.rcode in rule.terminalRcodes
  {
    TerminalsMembers(rule.terminalRcodes);
    SortedKeeps(Terminals(rule.terminalRcodes), RenderKey);
    hide Sorted, Terminals, RenderKey;
  }

  lemma DnsFits(rule: Rule, dns: seq<DnsOutcome>, o: Outcome)
    requires FiresDns(rule, dns) && ErrorFree(dns) && o.dns == dns
    ensures IndicatorFits(o, StoredIndicator(RawDnsIndicator(rule)))
  {
    TerminalsIn(rule);
    hide Sorted, Terminals, Strip;
    var ind := StoredIndicator(RawDnsIndicator(rule));
    forall i | 0 <= i < |ind.matched| ensures ind.matched[i].TerminalRcode? { assert ind.matched[i] in ind.matched; }
  }

  /** What matched over HTTP agrees with the outcome recorded for its scheme. */
  lemma HttpFits(rule: Rule, https: Fetched, http: Fetched, o: Outcome)
    requires Speaker(rule, https, http).Some? && o.http == HttpEvidence(https, http)
    ensures IndicatorFits(o, HttpIndicator(rule, https, http))
  {
    var scheme := Speaker(rule, https, http).value;
    var f := AnswerOf(scheme, https, http);
    var matched := MatchHttp(rule, f.response);
    MatchHttpShape(rule, f.response);
    hide MatchHttp, SortedUnique, Strip, Speaker, Render;
    var i := if scheme == Http then 0 else 1;
    assert o.http[i].scheme == scheme && o.http[i].status == Some(f.response.status);
    if k :| 0 <= k < |matched| && matched[k].StatusCode? {
      assert matched[k] in matched && matched[k] == StatusCode(f.response.status);
    }
    assert Supports(o.http[i], scheme, matched);
  }

  lemma CollectedFits(rules: seq<Rule>, dns: seq<DnsOutcome>, https: Fetched, http: Fetched, o: Outcome, i: nat)
    requires ErrorFree(dns) && o.dns == dns && (NeedsHttp(rules) ==> o.http == HttpEvidence(https, http))
    requires i < |Collected(rules, dns, https, http)|
    ensures IndicatorFits(o, Collected(rules, dns, https, http)[i])
  {
    hide DnsIndicators, HttpIndicators, IndicatorFits, ErrorFree, HttpEvidence, HttpIndicator, RawDnsIndicator,
      NeedsHttp;
    var first := DnsIndicators(rules, dns);
    if i < |first| {
      var c := DnsIndicatorsSound(rules, dns, i);
      DnsFits(rules[c], dns, o);
    } else {
      var c := HttpIndicatorsSound(rules, https, http, i - |first|);
      HttpFits(rules[c], https, http, o);
    }
  }

  lemma FetchErrorsFit(https: Fetched, http: Fetched)
    ensures ErrorsFit(FetchErrors(https, http))
  {
    hide TextFits, FailureName;
    if https.Failed? { FailureFits(https.failure); }
    if http.Failed? { FailureFits(http.failure); }
  }

  /** Errors of the requests are among the outcome's errors. */
  lemma FetchErrorsNamed(https: Fetched, http: Fetched)
    ensures forall i | 0 <= i < |HttpEvidence(https, http)| && HttpEvidence(https, http)[i].errorType.Some? ::
              HttpEvidence(https, http)[i].errorType.value in FetchErrors(https, http)
  {
    hide Strip, FailureName;
    if https.Failed? { FailureFits(https.failure); }
    if http.Failed? { FailureFits(http.failure); }
  }

  lemma EvidenceInOrder(https: Fetched, http: Fetched)
    ensures HttpInOrder(HttpEvidence(https, http))
  {
    SchemeOrder(StoredHttp(RawHttp(Http, http)), StoredHttp(RawHttp(Https, https)));
    hide HttpInOrder, StoredHttp, RawHttp;
  }

  lemma EvaluatedControls(
      resolvers: seq<string>, dns: seq<DnsOutcome>, wildcard: seq<DnsOutcome>, o: Outcome)
    requires Distinguished(dns, wildcard) && OnePerResolver(dns, resolvers) && OnePerResolver(wildcard, resolvers)
    requires o.dns == dns && o.wildcard == wildcard
    ensures ControlsDistinct(o)
  {
    hide Disagree;
  }

  lemma EvaluatedErrors(
      rules: seq<Rule>, hostname: string, dns: seq<DnsOutcome>, wildcard: seq<DnsOutcome>, https: Fetched,
      http: Fetched)
    requires ErrorFree(dns) && ErrorFree(wildcard)
    ensures var o := Evaluated(rules, hostname, dns, wildcard, https, http);
            ErrorsInOrder(o.errors) && NestedErrorsListed(o) && StatusConsistent(o) && HttpInOrder(o.http)
  {
    var errors := if NeedsHttp(rules) then FetchErrors(https, http) else [];
    FetchErrorsFit(https, http);
    FetchErrorsNamed(https, http);
    EvidenceInOrder(https, http);
    NoneInOrder();
    ErrorTupleMembers(errors);
    ErrorsInOrderIffFit(errors);
    hide SortedUnique, ErrorsInOrder, HttpInOrder, HttpEvidence, FetchErrors, TextFits, NeedsHttp, Collected;
  }

  /** An evaluated outcome is accepted exactly when no two of its indicators clash. */
  lemma EvaluatedAccepted(
      names: Names, rules: seq<Rule>, resolvers: seq<string>, hostname: string, dns: seq<DnsOutcome>,
      wildcard: seq<DnsOutcome>, https: Fetched, http: Fetched)
    requires names(hostname) == Some(hostname) && dns != [] && Distinguished(dns, wildcard)
    requires OnePerResolver(dns, resolvers) && OnePerResolver(wildcard, resolvers) && StrictlySorted(resolvers, TextKey)
    ensures AcceptsOutcome(names, Evaluated(rules, hostname, dns, wildcard, https, http))
       <==> !Clash(Collected(rules, dns, https, http))
  {
    hide *;
    var o := Evaluated(rules, hostname, dns, wildcard, https, http);
    var collected := Collected(rules, dns, https, http);
    EvaluatedParts(rules, hostname, dns, wildcard, https, http);
    EvaluatedErrors(rules, hostname, dns, wildcard, https, http);
    EvaluatedControls(resolvers, dns, wildcard, o);
    ResolverOrder(dns, resolvers);
    ResolverOrder(wildcard, resolvers);
    InOrderIffNoClash(collected);
    SortedUniqueMembers(collected, IndicatorKey);
    forall i | 0 <= i < |o.indicators| ensures IndicatorFits(o, o.indicators[i]) {
      assert o.indicators[i] in o.indicators && o.indicators[i] in collected;
      var k :| 0 <= k < |collected| && collected[k] == o.indicators[i];
      CollectedFits(rules, dns, https, http, o, k);
    }
    AcceptedFromParts(names, o);
  }

  lemma EvaluatedParts(
      rules: seq<Rule>, hostname: string, dns: seq<DnsOutcome>, wildcard: seq<DnsOutcome>, https: Fetched,
      http: Fetched)
    ensures var o := Evaluated(rules, hostname, dns, wildcard, https, http);
            && o.hostname == hostname && o.dns == dns && o.wildcard == wildcard
            && o.indicators == SortedUnique(Collected(rules, dns, https, http), IndicatorKey)
            && (NeedsHttp(rules) ==> o.http == HttpEvidence(https, http))
    ensures Distinguished(dns, wildcard) ==> ErrorFree(dns) && ErrorFree(wildcard)
  {
    hide SortedUnique, Collected, HttpEvidence, FetchErrors, NeedsHttp, ErrorFree, Disagree;
  }

  lemma AcceptedFromParts(names: Names, o: Outcome)
    requires names(o.hostname) == Some(o.hostname)
    requires o.dns != [] && DnsInOrder(o.dns) && DnsInOrder(o.wildcard) && HttpInOrder(o.http)
              && ErrorsInOrder(o.errors)
    requires NestedErrorsListed(o) && StatusConsistent(o) && ControlsDistinct(o)
    requires forall i | 0 <= i < |o.indicators| :: IndicatorFits(o, o.indicators[i])
    ensures AcceptsOutcome(names, o) <==> IndicatorsInOrder(o.indicators)
  {
    hide DnsInOrder, HttpInOrder, ErrorsInOrder, NestedErrorsListed, StatusConsistent, ControlsDistinct,
      IndicatorFits, IndicatorsInOrder;
  }

  /** A rule that some but not all resolvers match makes the resolvers disagree. */
  lemma RuleDisagreementIsDisagreement(rule: Rule, dns: seq<DnsOutcome>)
    requires RuleDisagrees(rule, dns)
    ensures Disagree(dns)
  {
    var i :| 0 <= i < |dns| && MatchesDns(rule, dns[i]);
    var j :| 0 <= j < |dns| && !MatchesDns(rule, dns[j]);
    assert dns[i].chain != dns[j].chain;
  }

  lemma {:induction false} CandidatesMatch(rules: seq<Rule>, dns: seq<DnsOutcome>)
    ensures forall i | 0 <= i < |Candidates(rules, dns)| ::
              && MatchesAll(Candidates(rules, dns)[i], dns)
              && exists k :: 0 <= k < |rules| && rules[k] == Candidates(rules, dns)[i]
  {
    hide MatchesAll;
    if rules != [] {
      var init := rules[..|rules| - 1];
      CandidatesMatch(init, dns);
      var before := Candidates(init, dns);
      forall i | 0 <= i < |before| ensures exists k :: 0 <= k < |rules| && rules[k] == before[i] {
        var k :| 0 <= k < |init| && init[k] == before[i];
        assert rules[k] == before[i];
      }
    }
  }

  /** What a scan has recorded so far. */
  datatype Ledger = Ledger(outcomes: seq<Outcome>, indicators: nat, noIndicators: nat, inconclusive: nat)

  function Recorded(l: Ledger, outcome: Outcome): Ledger {
    Ledger(l.outcomes + [outcome],
           l.indicators + if outcome.status == Indicated then 1 else 0,
           l.noIndicators + if outcome.status == NoIndicator then 1 else 0,
           l.inconclusive + if outcome.status == Inconclusive then 1 else 0)
  }

  lemma NotEmpty(dns: seq<DnsOutcome>, resolvers: seq<string>)
    requires OnePerResolver(dns, resolvers) && resolvers != []
    ensures dns != [] && |dns| == |resolvers|
  {
  }

  lemma FiresWhenAny(rule: Rule, dns: seq<DnsOutcome>)
    requires !Disagree(dns)
    ensures FiresDns(rule, dns) ==> rule.terminalRcodes != []
    ensures (exists i | 0 <= i < |dns| :: dns[i].rcode in rule.terminalRcodes) ==> FiresDns(rule, dns)
  {
    TerminalIsUnanimous(rule, dns);
    hide Disagree;
  }

  lemma ApartFacts(dns: seq<DnsOutcome>, wildcard: seq<DnsOutcome>)
    requires Distinguished(dns, wildcard)
    ensures !Disagree(dns) && !Disagree(wildcard) && ErrorFree(dns) && ErrorFree(wildcard)
  {
    hide Disagree, ErrorFree;
  }

  lemma FreeOfErrors(dns: seq<DnsOutcome>)
    requires ErrorFree(dns)
    ensures forall i | 0 <= i < |dns| :: dns[i].errorType.None?
  {
  }

  lemma WildcardErrorsAre(wildcard: seq<DnsOutcome>)
    ensures WildcardErrors(wildcard) == if Disagree(wildcard) then Errors(wildcard) + ["WildcardDisagreementError"]
              else Errors(wildcard)
    ensures forall e | e in Errors(wildcard) :: e in WildcardErrors(wildcard)
  {
    hide Errors, Disagree;
  }

  lemma DistinctResolvers(resolvers: seq<string>)
    requires StrictlySorted(resolvers, TextKey)
    ensures NoDuplicates(resolvers)
  {
    StrictlySortedDistinct(resolvers, TextKey);
  }

  lemma OneInOrder(error: string)
    ensures SortedUnique([error], TextKey) == [error]
  {
    assert SortedUnique([error][1..], TextKey) == [];
  }

  /** n times the one reason a rule can be dropped for. */
  function Repeated(n: nat): seq<string> { seq(n, i => "WildcardIndistinguishableError") }

  lemma RepeatedOnce(n: nat)
    ensures SortedUnique(Repeated(n), TextKey) == if n == 0 then [] else ["WildcardIndistinguishableError"]
  {
    var once := ["WildcardIndistinguishableError"];
    if n == 0 {
      assert Repeated(0) == [];
    } else {
      assert Repeated(n)[0] == once[0];
      hide SortedUnique;
      SortRestores(Repeated(n), once, TextKey);
    }
  }

  lemma {:induction false} CandidatesValid(rules: seq<Rule>, dns: seq<DnsOutcome>)
    requires ValidRules(rules)
    ensures forall i | 0 <= i < |Candidates(rules, dns)| :: ValidRule(Candidates(rules, dns)[i])
  {
    hide MatchesAll, ValidRule;
    CandidatesMatch(rules, dns);
  }

  /** How many requests a check sends. */
  function Requests(rules: seq<Rule>, dns: seq<DnsOutcome>, wildcard: seq<DnsOutcome>): nat
    requires |dns| == |wildcard|
  {
    var candidates := Candidates(rules, dns);
    if Evaluates(rules, dns, wildcard) && !UncitableDns(candidates, dns) && NeedsHttp(candidates) then 2 else 0
  }

  class TakeoverScanner {
    const names: Names
    const rules: seq<Rule>
    const resolvers: seq<string>
    var outcomes: seq<Outcome>
    var indicatorCount: nat
    var noIndicatorCount: nat
    var inconclusiveCount: nat
    var requestCount: nat

    constructor (names: Names, rules: seq<Rule>, resolvers: seq<string>)
      ensures this.names == names && this.rules == rules && this.resolvers == resolvers
      ensures Books() == Ledger([], 0, 0, 0) && requestCount == 0
    {
      this.names, this.rules, this.resolvers := names, rules, resolvers;
      outcomes, indicatorCount, noIndicatorCount, inconclusiveCount, requestCount := [], 0, 0, 0, 0;
    }

    /** What the scanner's constructor has seen to: checked rules, and at least one
        resolver, sorted and without repeats. */
    ghost predicate Configured() {
      ValidRules(rules) && resolvers != [] && StrictlySorted(resolvers, TextKey)
    }

    function Books(): Ledger
      reads this
    {
      Ledger(outcomes, indicatorCount, noIndicatorCount, inconclusiveCount)
    }

    /** Builds the outcome, which may raise, and records it. */
    method RecordOutcome(outcome: Outcome) returns (raised: bool)
      modifies this
      ensures raised <==> !AcceptsOutcome(names, outcome)
      ensures Books() == (if raised then old(Books()) else Recorded(old(Books()), outcome))
      ensures requestCount == old(requestCount)
    {
      hide AcceptsOutcome;
      raised := ConstructOutcome(names, outcome);
      if raised { return; }
      outcomes := outcomes + [outcome];
      match outcome.status
      case Indicated => indicatorCount := indicatorCount + 1;
      case NoIndicator => noIndicatorCount := noIndicatorCount + 1;
      case Inconclusive => inconclusiveCount := inconclusiveCount + 1;
    }

    /** Keep the rules whose wildcard control is distinct; name the reason for the others. */
    method RetainRules(candidates: seq<Rule>, dns: seq<DnsOutcome>, wildcard: seq<DnsOutcome>)
      returns (retained: seq<Rule>, errors: seq<string>)
      requires OnePerResolver(dns, resolvers) && OnePerResolver(wildcard, resolvers)
      requires NoDuplicates(resolvers) && resolvers != [] && !Disagree(dns) && !Disagree(wildcard)
      requires forall i | 0 <= i < |candidates| :: MatchesAll(candidates[i], dns)
      ensures SameEverywhere(dns, wildcard) ==>
                retained == [] && SortedUnique(errors, TextKey) ==
                    (if candidates == [] then [] else ["WildcardIndistinguishableError"])
      ensures !SameEverywhere(dns, wildcard) ==> retained == candidates && errors == []
    {
      assert |dns| == |wildcard|;
      hide MatchesAll, WildcardState, Disagree, OnePerResolver, SortedUnique;
      retained, errors := [], [];
      for i := 0 to |candidates|
        invariant SameEverywhere(dns, wildcard) ==> retained == [] && errors == Repeated(i)
        invariant !SameEverywhere(dns, wildcard) ==> retained == candidates[..i] && errors == []
      {
        WildcardIsDecided(candidates[i], dns, wildcard, resolvers);
        var state := WildcardRuleState(candidates[i], dns, wildcard);
        if state == Distinct {
          retained := retained + [candidates[i]];
        } else {
          errors := errors + [if state == Indistinguishable then "WildcardIndistinguishableError"
              else "WildcardDisagreementError"];
        }
      }
      RepeatedOnce(|candidates|);
    }

    /** Cites each DNS rule that every resolver's terminal matches. */
    method MatchDnsRules(retained: seq<Rule>, dns: seq<DnsOutcome>)
      returns (raised: bool, indicators: seq<Indicator>, errors: seq<string>)
      requires !Disagree(dns) && dns != [] && forall i | 0 <= i < |retained| :: ValidRule(retained[i])
      ensures raised <==> UncitableDns(retained, dns)
      ensures !raised ==> indicators == DnsIndicators(retained, dns) && errors == []
    {
      hide ValidRule, AcceptsIndicator, CitableDns, RawDnsIndicator, StoredIndicator, Disagree, FiresDns;
      raised, indicators, errors := false, [], [];
      for i := 0 to |retained|
        invariant !raised && indicators == DnsIndicators(retained[..i], dns) && errors == []
        invariant forall k | 0 <= k < i && FiresDns(retained[k], dns) :: CitableDns(retained[k])
      {
        assert retained[..i + 1][..i] == retained[..i];
        var rule := retained[i];
        FiresWhenAny(rule, dns);
        if rule.terminalRcodes != [] {
          if FiresDns(rule, dns) {
            DnsAcceptedIffCitable(rule);
            raised := ConstructIndicator(RawDnsIndicator(rule));
            if raised { return; }
            indicators := indicators + [StoredIndicator(RawDnsIndicator(rule))];
          } else if exists k | 0 <= k < |dns| :: dns[k].rcode in rule.terminalRcodes {
            errors := errors + ["ResolverDisagreementError"];
          }
        }
      }
      assert retained[..|retained|] == retained;
    }

    /** Cites each HTTP rule that a response matches, by the first scheme that does. */
    method MatchHttpRules(retained: seq<Rule>, https: Fetched, http: Fetched)
      returns (raised: bool, indicators: seq<Indicator>)
      requires Recordable(https) && Recordable(http) && forall i | 0 <= i < |retained| :: ValidRule(retained[i])
      ensures raised <==> UncitableHttp(retained, https, http)
      ensures !raised ==> indicators == HttpIndicators(retained, https, http)
    {
      hide ValidRule, AcceptsIndicator, CitableHttp, MatchHttp, NonBlank, Strip, StoredIndicator, RawHttpIndicator;
      raised, indicators := false, [];
      for i := 0 to |retained|
        invariant !raised && indicators == HttpIndicators(retained[..i], https, http)
        invariant forall k | 0 <= k < i :: CitesHttp(retained[k], https, http)
      {
        assert retained[..i + 1][..i] == retained[..i];
        var rule := retained[i];
        if rule.terminalRcodes == [] {
          if MatchesResponse(rule, https) {
            HttpAcceptedIffCitable(rule, Https, https.response);
            raised := ConstructIndicator(RawHttpIndicator(rule, Https, https.response));
            if raised { return; }
            indicators := indicators + [StoredIndicator(RawHttpIndicator(rule, Https, https.response))];
          } else if MatchesResponse(rule, http) {
            HttpAcceptedIffCitable(rule, Http, http.response);
            raised := ConstructIndicator(RawHttpIndicator(rule, Http, http.response));
            if raised { return; }
            indicators := indicators + [StoredIndicator(RawHttpIndicator(rule, Http, http.response))];
          }
        }
      }
      assert retained[..|retained|] == retained;
    }

    /** The last part of a scan: every rule retained is held against the evidence. */
    method EvaluateRules(
        hostname: string, retained: seq<Rule>, dns: seq<DnsOutcome>, wildcard: seq<DnsOutcome>, https: Fetched,
        http: Fetched)
      returns (raised: bool)
      requires Configured() && names(hostname) == Some(hostname)
      requires OnePerResolver(dns, resolvers) && OnePerResolver(wildcard, resolvers) && Distinguished(dns, wildcard)
      requires forall i | 0 <= i < |retained| :: ValidRule(retained[i])
      modifies this
      ensures raised <==> UncitableDns(retained, dns) || HttpRaises(retained, https, http)
                          || Clash(Collected(retained, dns, https, http))
      ensures requestCount == old(requestCount) + if !UncitableDns(retained, dns) && NeedsHttp(retained) then 2 else 0
      ensures Books() == if raised then old(Books())
                         else Recorded(old(Books()), Evaluated(retained, hostname, dns, wildcard, https, http))
    {
      hide UncitableDns, UncitableHttp, Clash, AcceptsOutcome, AcceptsHttp, RawHttp, StoredHttp, Recordable,
        DnsIndicators, HttpIndicators, ValidRule, ValidRules, OnePerResolver, EvaluatedOutcome, FetchErrors, Recorded,
        StrictlySorted, Distinguished;
      NotEmpty(dns, resolvers);
      ApartFacts(dns, wildcard);
      EvaluatedAccepted(names, retained, resolvers, hostname, dns, wildcard, https, http);
      var indicators, errors;
      raised, indicators, errors := MatchDnsRules(retained, dns);
      if raised { return; }
      if NeedsHttp(retained) {
        requestCount := requestCount + 2;
        AcceptedIffRecordable(Https, https);
        AcceptedIffRecordable(Http, http);
        raised := ConstructHttp(RawHttp(Https, https));
        if raised { return; }
        raised := ConstructHttp(RawHttp(Http, http));
        if raised { return; }
        var more;
        raised, more := MatchHttpRules(retained, https, http);
        if raised { return; }
        indicators := indicators + more;
        errors := errors + FetchErrors(https, http);
        assert errors == FetchErrors(https, http);
        raised := RecordOutcome(EvaluatedOutcome(hostname, dns, wildcard, HttpEvidence(https, http), indicators,
            errors));
      } else {
        assert indicators == indicators + [];
        raised := RecordOutcome(EvaluatedOutcome(hostname, dns, wildcard, [], indicators, errors));
      }
    }

    /** The rest of a scan, for rules that every resolver matches: the control is looked at,
        and then the rules. */
    method CheckControl(
        hostname: string, candidates: seq<Rule>, dns: seq<DnsOutcome>, wildcard: seq<DnsOutcome>, https: Fetched,
        http: Fetched)
      returns (raised: bool)
      requires Configured() && names(hostname) == Some(hostname)
      requires OnePerResolver(dns, resolvers) && OnePerResolver(wildcard, resolvers)
      requires Errors(dns) == [] && !Disagree(dns) && candidates != [] && candidates == Candidates(rules, dns)
      modifies this
      ensures raised <==> Raises(rules, dns, wildcard, https, http)
      ensures requestCount == old(requestCount) + Requests(rules, dns, wildcard)
      ensures Books() == if raised then old(Books())
                         else Recorded(old(Books()), Verdict(rules, hostname, dns, wildcard, https, http))
    {
      hide Recorded, Errors, Disagree, MatchesAll, RuleDisagrees, SameEverywhere, Candidates, Distinguished,
        ErrorFree, AcceptsOutcome, StrictlySorted, SortedUnique, UncitableDns, HttpRaises, Clash, Collected,
        Evaluated, ErrorsFit, DnsInOrder, OnePerResolver, NoDuplicates, ValidRule, ValidRules, WildcardErrors,
        NeedsHttp;
      NotEmpty(dns, resolvers);
      NotEmpty(wildcard, resolvers);
      ResolverOrder(dns, resolvers);
      ResolverOrder(wildcard, resolvers);
      OwnErrorFits();
      ErrorsNamed(dns);
      ErrorsNamed(wildcard);
      FreeOfErrors(dns);
      CandidatesMatch(rules, dns);
      CandidatesValid(rules, dns);
      var wildcardErrors := OutcomeErrors(wildcard);
      var disagree := OutcomesDisagree(wildcard);
      if disagree { wildcardErrors := wildcardErrors + ["WildcardDisagreementError"]; }
      WildcardErrorsAre(wildcard);
      if wildcardErrors != [] {
        wildcardErrors := wildcardErrors + ["WildcardControlError"];
        WildcardErrorsFit(wildcard);
        UndecidedAccepted(names, hostname, dns, wildcard, wildcardErrors);
        raised := RecordOutcome(Undecided(hostname, dns, wildcard, wildcardErrors));
        return;
      }
      FreeOfErrors(wildcard);
      DistinctResolvers(resolvers);
      var retained, wildcardReasons := RetainRules(candidates, dns, wildcard);
      if retained == [] {
        UndecidedAccepted(names, hostname, dns, wildcard, ["WildcardIndistinguishableError"]);
        OneInOrder("WildcardIndistinguishableError");
        raised := RecordOutcome(Outcome(hostname, Inconclusive, dns, wildcard, [], [],
            SortedUnique(wildcardReasons, TextKey)));
        return;
      }
      DistinguishedHere(dns, wildcard);
      raised := EvaluateRules(hostname, retained, dns, wildcard, https, http);
    }

    /** dns and wildcard are what the resolvers return for the name and for its control,
        https and http what the two requests return, for each that is asked. */
    method ScanCandidate(hostname: string, dns: seq<DnsOutcome>, wildcard: seq<DnsOutcome>, https: Fetched,
        http: Fetched)
      returns (raised: bool)
      requires Configured() && names(hostname) == Some(hostname)
      requires OnePerResolver(dns, resolvers) && OnePerResolver(wildcard, resolvers)
      modifies this
      ensures raised <==> Raises(rules, dns, wildcard, https, http)
      ensures requestCount == old(requestCount) + Requests(rules, dns, wildcard)
      ensures Books() == if raised then old(Books())
                         else Recorded(old(Books()), Verdict(rules, hostname, dns, wildcard, https, http))
    {
      hide Recorded, Errors, Disagree, MatchesAll, RuleDisagrees, SameEverywhere, Candidates, Distinguished,
        ErrorFree, AcceptsOutcome, StrictlySorted, SortedUnique, UncitableDns, HttpRaises, Clash, Collected,
        Evaluated, ErrorsFit, DnsInOrder, OnePerResolver, NoDuplicates, ValidRule, ValidRules, WildcardErrors,
        NeedsHttp;
      NotEmpty(dns, resolvers);
      NotEmpty(wildcard, resolvers);
      ResolverOrder(dns, resolvers);
      NoneInOrder();
      OwnErrorFits();
      ErrorsNamed(dns);
      var errors := OutcomeErrors(dns);
      if errors != [] {
        UndecidedAccepted(names, hostname, dns, [], errors);
        raised := RecordOutcome(Undecided(hostname, dns, [], errors));
        return;
      }
      FreeOfErrors(dns);
      var candidates := RulesMatching(rules, dns);
      forall i | 0 <= i < |rules| && RuleDisagrees(rules[i], dns) ensures Disagree(dns) {
        RuleDisagreementIsDisagreement(rules[i], dns);
      }
      var disagree := OutcomesDisagree(dns);
      if disagree || exists i | 0 <= i < |rules| :: RuleDisagrees(rules[i], dns) {
        UndecidedAccepted(names, hostname, dns, [], ["ResolverDisagreementError"]);
        raised := RecordOutcome(Undecided(hostname, dns, [], ["ResolverDisagreementError"]));
        return;
      }
      if candidates == [] {
        NoIndicatorAccepted(names, hostname, dns);
        raised := RecordOutcome(Outcome(hostname, NoIndicator, dns, [], [], [], []));
        return;
      }
      raised := CheckControl(hostname, candidates, dns, wildcard, https, http);
    }
  }

  // ---- soundness ----

  /** The rule's own condition holds of the evidence the indicator cites. */
  predicate ConditionHolds(rule: Rule, ind: Indicator, dns: seq<DnsOutcome>, https: Fetched, http: Fetched) {
    match ind.scheme
    case None =>
      rule.terminalRcodes != [] && forall i | 0 <= i < |dns| :: dns[i].rcode in rule.terminalRcodes
    case Some(scheme) =>
      var f := AnswerOf(scheme, https, http);
      rule.terminalRcodes == [] && f.Answered? && HttpCondition(rule, f.response)
      && ind.matched == MatchHttp(rule, f.response)
  }

  /** The indicator cites this rule, which every resolver's outcome matches. */
  predicate SoundFor(rule: Rule, ind: Indicator, dns: seq<DnsOutcome>, https: Fetched, http: Fetched) {
    && Strip(rule.ruleId) == ind.ruleId && Strip(rule.service) == ind.service
        && rule.classification == ind.classification
    && MatchesAll(rule, dns)
    && ConditionHolds(rule, ind, dns, https, http)
  }

  lemma ConditionOfDns(rule: Rule, dns: seq<DnsOutcome>, https: Fetched, http: Fetched)
    requires FiresDns(rule, dns) && MatchesAll(rule, dns)
    ensures SoundFor(rule, StoredIndicator(RawDnsIndicator(rule)), dns, https, http)
  {
    hide Strip, Sorted, Terminals, MatchesAll;
  }

  lemma ConditionOfHttp(rule: Rule, dns: seq<DnsOutcome>, https: Fetched, http: Fetched)
    requires Speaker(rule, https, http).Some? && MatchesAll(rule, dns)
    ensures SoundFor(rule, HttpIndicator(rule, https, http), dns, https, http)
  {
    hide Strip, MatchesAll, SortedUnique, Listed, HttpCondition;
  }

  lemma CollectedSound(
      candidates: seq<Rule>, dns: seq<DnsOutcome>, https: Fetched, http: Fetched, i: nat) returns (c: nat)
    requires i < |Collected(candidates, dns, https, http)|
    requires forall k | 0 <= k < |candidates| :: MatchesAll(candidates[k], dns)
    ensures c < |candidates| && SoundFor(candidates[c], Collected(candidates, dns, https, http)[i], dns, https, http)
  {
    hide DnsIndicators, HttpIndicators, SoundFor, MatchesAll, HttpIndicator, RawDnsIndicator;
    var first := DnsIndicators(candidates, dns);
    if i < |first| {
      c := DnsIndicatorsSound(candidates, dns, i);
      ConditionOfDns(candidates[c], dns, https, http);
    } else {
      c := HttpIndicatorsSound(candidates, https, http, i - |first|);
      ConditionOfHttp(candidates[c], dns, https, http);
    }
  }

  /** An outcome with indicators or HTTP evidence comes from the last branch. */
  lemma EvaluatedOnly(
      rules: seq<Rule>, hostname: string, dns: seq<DnsOutcome>, wildcard: seq<DnsOutcome>, https: Fetched,
      http: Fetched)
    requires |dns| == |wildcard|
    requires var v := Verdict(rules, hostname, dns, wildcard, https, http); v.indicators != [] || v.http != []
    ensures Evaluates(rules, dns, wildcard)
    ensures Verdict(rules, hostname, dns, wildcard, https, http)
         == Evaluated(Candidates(rules, dns), hostname, dns, wildcard, https, http)
  {
    hide Errors, Candidates, Evaluated, Disagree, SameEverywhere, WildcardErrors, SortedUnique;
  }

  /** Soundness: every recorded indicator stands for a rule that the DNS outcome of every
      resolver matches; all resolvers agree, candidate and control are free of errors, the
      control is distinct on every resolver, and the rule's own condition holds. */
  lemma IndicatorsAreSound(
      rules: seq<Rule>, hostname: string, dns: seq<DnsOutcome>, wildcard: seq<DnsOutcome>, https: Fetched,
      http: Fetched, i: nat)
    requires |dns| == |wildcard|
    requires i < |Verdict(rules, hostname, dns, wildcard, https, http).indicators|
    ensures Distinguished(dns, wildcard)
    ensures exists k: nat :: k < |rules| &&
              SoundFor(rules[k], Verdict(rules, hostname, dns, wildcard, https, http).indicators[i], dns, https, http)
  {
    hide *;
    EvaluatedOnly(rules, hostname, dns, wildcard, https, http);
    EvaluatesApart(rules, dns, wildcard);
    CandidatesMatch(rules, dns);
    var candidates := Candidates(rules, dns);
    EvaluatedParts(candidates, hostname, dns, wildcard, https, http);
    var collected, cited := Collected(candidates, dns, https, http),
        Verdict(rules, hostname, dns, wildcard, https, http).indicators;
    SortedUniqueMembers(collected, IndicatorKey);
    assert cited[i] in cited && cited[i] in collected;
    var n :| 0 <= n < |collected| && collected[n] == cited[i];
    var c := CollectedSound(candidates, dns, https, http, n);
    var k: nat :| k < |rules| && rules[k] == candidates[c];
    assert SoundFor(rules[k], cited[i], dns, https, http);
  }

  // ---- the outcome constructor accepts it ----

  /** Whatever the queries return: a check that does not raise concludes with an outcome that
      meets every condition of its constructor. */
  lemma VerdictIsValid(
      names: Names, rules: seq<Rule>, resolvers: seq<string>, hostname: string, dns: seq<DnsOutcome>,
      wildcard: seq<DnsOutcome>, https: Fetched, http: Fetched)
    requires names(hostname) == Some(hostname)
    requires OnePerResolver(dns, resolvers) && OnePerResolver(wildcard, resolvers)
    requires StrictlySorted(resolvers, TextKey) && resolvers != []
    requires !Raises(rules, dns, wildcard, https, http)
    ensures AcceptsOutcome(names, Verdict(rules, hostname, dns, wildcard, https, http))
  {
    NotEmpty(dns, resolvers);
    ResolverOrder(dns, resolvers);
    ResolverOrder(wildcard, resolvers);
    hide *;
    if Evaluates(rules, dns, wildcard) {
      EvaluatesApart(rules, dns, wildcard);
      EvaluatedAccepted(names, Candidates(rules, dns), resolvers, hostname, dns, wildcard, https, http);
      EvaluatesUnfold(rules, hostname, dns, wildcard, https, http);
    } else {
      EarlyIsValid(names, rules, hostname, dns, wildcard, https, http);
    }
  }

  lemma EvaluatesUnfold(
      rules: seq<Rule>, hostname: string, dns: seq<DnsOutcome>, wildcard: seq<DnsOutcome>, https: Fetched,
      http: Fetched)
    requires |dns| == |wildcard| && Evaluates(rules, dns, wildcard)
    ensures Verdict(rules, hostname, dns, wildcard, https, http)
         == Evaluated(Candidates(rules, dns), hostname, dns, wildcard, https, http)
    ensures Raises(rules, dns, wildcard, https, http) <==>
              || UncitableDns(Candidates(rules, dns), dns) || HttpRaises(Candidates(rules, dns), https, http)
              || Clash(Collected(Candidates(rules, dns), dns, https, http))
  {
    hide Errors, Candidates, Evaluated, Disagree, SameEverywhere, WildcardErrors, UncitableDns, HttpRaises, Clash,
      Collected;
  }

  /** The branches that end before any rule is evaluated. */
  lemma EarlyIsValid(
      names: Names, rules: seq<Rule>, hostname: string, dns: seq<DnsOutcome>, wildcard: seq<DnsOutcome>,
      https: Fetched, http: Fetched)
    requires names(hostname) == Some(hostname) && |dns| == |wildcard| && dns != []
    requires DnsInOrder(dns) && DnsInOrder(wildcard)
    requires !Evaluates(rules, dns, wildcard) && !Raises(rules, dns, wildcard, https, http)
    ensures AcceptsOutcome(names, Verdict(rules, hostname, dns, wildcard, https, http))
  {
    ErrorsNamed(dns);
    ErrorsNamed(wildcard);
    NoneInOrder();
    OwnErrorFits();
    WildcardErrorsAre(wildcard);
    hide Errors, Candidates, Evaluated, Disagree, SameEverywhere, WildcardErrors, UncitableDns, HttpRaises, Clash,
      Collected, AcceptsOutcome, Undecided, DnsInOrder, ErrorsFit, ErrorFree, SortedUnique;
    if Errors(dns) != [] {
      UndecidedAccepted(names, hostname, dns, [], Errors(dns));
    } else {
      FreeOfErrors(dns);
      if Disagree(dns) {
        UndecidedAccepted(names, hostname, dns, [], ["ResolverDisagreementError"]);
      } else if Candidates(rules, dns) == [] {
        NoIndicatorAccepted(names, hostname, dns);
      } else if WildcardErrors(wildcard) != [] {
        WildcardErrorsFit(wildcard);
        UndecidedAccepted(names, hostname, dns, wildcard, WildcardErrors(wildcard) + ["WildcardControlError"]);
      } else {
        assert Errors(wildcard) == [];
        FreeOfErrors(wildcard);
        UndecidedAccepted(names, hostname, dns, wildcard, ["WildcardIndistinguishableError"]);
      }
    }
  }

  // ---- rules that never get in the way ----

  predicate ShortPatterns(rule: Rule) {
    && (forall p | p in rule.bodyAll + rule.bodyAny :: |p| <= 500)
    && (forall p | p in rule.regexAll + rule.regexAny :: |p| <= 500)
    && (forall p | p in rule.headerAny :: |p| <= 500)
  }

  /** Names and patterns are short, no terminal code is repeated, and ids differ in more
      than their margins. */
  predicate Tidy(rules: seq<Rule>) {
    && (forall i | 0 <= i < |rules| :: CitableDns(rules[i]) && ShortPatterns(rules[i]))
    && (forall i, j | 0 <= i < j < |rules| :: Strip(rules[i].ruleId) != Strip(rules[j].ruleId))
  }

  lemma {:induction false} CandidatesTidy(rules: seq<Rule>, dns: seq<DnsOutcome>)
    requires Tidy(rules)
    ensures Tidy(Candidates(rules, dns))
  {
    hide MatchesAll, CitableDns, ShortPatterns;
    if rules != [] {
      var init := rules[..|rules| - 1];
      CandidatesTidy(init, dns);
      CandidatesMatch(init, dns);
      var before := Candidates(init, dns);
      forall i | 0 <= i < |before| ensures Strip(before[i].ruleId) != Strip(rules[|rules| - 1].ruleId) {
        var k :| 0 <= k < |init| && init[k] == before[i];
        assert rules[k] == before[i];
      }
    }
  }

  lemma ShortIsCited(rule: Rule, response: Response)
    requires ShortPatterns(rule) && 100 <= response.status <= 599
    ensures PatternsFit(rule, response)
  {
    hide Strip, SortedUnique, Listed, HttpCondition;
    var matched := MatchHttp(rule, response);
    SortedUniqueMembers(Listed(rule, response), RenderKey);
    forall i | 0 <= i < |matched| ensures |Strip(Render(matched[i]))| <= 512 {
      assert matched[i] in matched;
      assert matched[i] in Listed(rule, response);
      ListedMembers(rule, response, matched[i]);
      RenderStarts(matched[i]);
      if matched[i].StatusCode? {
        StatusFits(response.status);
      } else {
        assert |matched[i].pattern| <= 500;
        LettersShow(Render(matched[i])[0]);
        StripKeepsStart(Render(matched[i]));
      }
    }
  }

  /** The one indicator a rule can give rise to. */
  function Citation(rule: Rule, https: Fetched, http: Fetched): Option<Indicator> {
    if rule.terminalRcodes != [] then Some(StoredIndicator(RawDnsIndicator(rule)))
    else if Speaker(rule, https, http).Some? then Some(HttpIndicator(rule, https, http))
    else None
  }

  lemma {:induction false} CollectedBy(rules: seq<Rule>, dns: seq<DnsOutcome>, https: Fetched, http: Fetched, i: nat)
      returns (c: nat)
    requires i < |Collected(rules, dns, https, http)|
    ensures var ind := Collected(rules, dns, https, http)[i];
            c < |rules| && Citation(rules[c], https, http) == Some(ind) && ind.ruleId == Strip(rules[c].ruleId)
  {
    hide DnsIndicators, HttpIndicators, MatchesResponse, Strip, MatchHttp, Sorted, Terminals;
    var first := DnsIndicators(rules, dns);
    if i < |first| {
      c := DnsIndicatorsSound(rules, dns, i);
    } else {
      c := HttpIndicatorsSound(rules, https, http, i - |first|);
    }
  }

  lemma {:induction false} TidyNeverClash(rules: seq<Rule>, dns: seq<DnsOutcome>, https: Fetched, http: Fetched)
    requires Tidy(rules)
    ensures !Clash(Collected(rules, dns, https, http))
  {
    hide Collected, Citation, CitableDns, ShortPatterns, Strip;
    var collected := Collected(rules, dns, https, http);
    forall i, j | 0 <= i < |collected| && 0 <= j < |collected| && collected[i].ruleId == collected[j].ruleId
      ensures collected[i] == collected[j]
    {
      var c := CollectedBy(rules, dns, https, http, i);
      var d := CollectedBy(rules, dns, https, http, j);
      assert c == d;
    }
  }

  lemma {:induction false} TidyIsCited(rules: seq<Rule>, dns: seq<DnsOutcome>, https: Fetched, http: Fetched)
    requires Tidy(rules)
    ensures !UncitableDns(rules, dns)
    ensures Recordable(https) && Recordable(http) ==> !UncitableHttp(rules, https, http)
  {
    hide PatternsFit, ShortPatterns, MatchHttp, FiresDns, Strip, NonBlank, NoDuplicates;
    if Recordable(https) && Recordable(http) {
      forall i | 0 <= i < |rules| ensures CitesHttp(rules[i], https, http) {
        if Speaker(rules[i], https, http) == Some(Https) { ShortIsCited(rules[i], https.response); }
        if Speaker(rules[i], https, http) == Some(Http) { ShortIsCited(rules[i], http.response); }
      }
    }
  }

  /** With tidy rules and resolvers whose errors have short names, a check raises exactly
      when it asks over HTTP and an answer cannot be recorded. */
  lemma {:induction false} TidyRulesRaise(rules: seq<Rule>, dns: seq<DnsOutcome>, wildcard: seq<DnsOutcome>,
      https: Fetched, http: Fetched)
    requires Tidy(rules) && |dns| == |wildcard| && ErrorsFit(Errors(dns)) && ErrorsFit(Errors(wildcard))
    ensures Raises(rules, dns, wildcard, https, http) <==>
              Evaluates(rules, dns, wildcard) && NeedsHttp(Candidates(rules, dns))
                  && !(Recordable(https) && Recordable(http))
  {
    hide *;
    var candidates := Candidates(rules, dns);
    CandidatesTidy(rules, dns);
    TidyNeverClash(candidates, dns, https, http);
    TidyIsCited(candidates, dns, https, http);
    RaisesUnfold(rules, dns, wildcard, https, http);
  }

  lemma RaisesUnfold(rules: seq<Rule>, dns: seq<DnsOutcome>, wildcard: seq<DnsOutcome>, https: Fetched, http: Fetched)
    requires |dns| == |wildcard| && ErrorsFit(Errors(dns)) && ErrorsFit(Errors(wildcard))
    ensures var candidates := Candidates(rules, dns);
            Raises(rules, dns, wildcard, https, http) <==>
              && Evaluates(rules, dns, wildcard)
              && (|| UncitableDns(candidates, dns) || Clash(Collected(candidates, dns, https, http))
                  || (NeedsHttp(candidates)
                      && (!Recordable(https) || !Recordable(http) || UncitableHttp(candidates, https, http))))
  {
    hide Errors, Candidates, Disagree, SameEverywhere, WildcardErrors, UncitableDns, UncitableHttp, Clash,
      Collected, ErrorsFit, Recordable, NeedsHttp;
  }

  // ---- checks that raise ----

  /** A rule for one alias name, over HTTP or by terminal codes. */
  function AliasRule(id: string, service: string, terminals: seq<Rcode>): Rule {
    Rule(id, service, "edge-case", name => name == "alias.example", terminals, [],
         if terminals == [] then ["gone"] else [], [], [], [], [], [], [], [])
  }

  function Candidate(rcode: Rcode): seq<DnsOutcome> { [DnsOutcome("192.0.2.1", ["alias.example"], rcode, None)] }

  function Control(): seq<DnsOutcome> { [DnsOutcome("192.0.2.1", [], NoError, None)] }

  lemma AliasMatches(rule: Rule, rcode: Rcode)
    requires rule.matchesName("alias.example")
    ensures MatchesAll(rule, Candidate(rcode))
  {
    assert Candidate(rcode)[0].chain[0] == "alias.example";
  }

  lemma AliasRuleIsValid(id: string, service: string, terminals: seq<Rcode>)
    requires NonBlank(id) && NonBlank(service)
    ensures var rule := AliasRule(id, service, terminals);
            && ValidRule(rule) && rule.matchesName("alias.example")
            && rule.ruleId == id && rule.service == service && rule.terminalRcodes == terminals
  {
    hide NonBlank;
  }

  lemma {:induction false} CandidateEvaluates(rules: seq<Rule>, rcode: Rcode)
    requires rules != [] && rcode != Error
    requires forall i | 0 <= i < |rules| :: rules[i].matchesName("alias.example")
    ensures |Candidate(rcode)| == |Control()|
    ensures Candidates(rules, Candidate(rcode)) == rules && Evaluates(rules, Candidate(rcode), Control())
  {
    AllMatch(rules, rcode);
    hide Candidates;
    assert Candidate(rcode)[..0] == [] && Control()[..0] == [];
    assert Candidate(rcode)[0].chain != Control()[0].chain;
  }

  lemma {:induction false} AllMatch(rules: seq<Rule>, rcode: Rcode)
    requires forall i | 0 <= i < |rules| :: rules[i].matchesName("alias.example")
    ensures Candidates(rules, Candidate(rcode)) == rules
  {
    hide MatchesAll, Candidate;
    if rules != [] {
      AllMatch(rules[..|rules| - 1], rcode);
      AliasMatches(rules[|rules| - 1], rcode);
    }
  }

  /** A check that gets as far as its rules raises for any of the last three reasons. */
  lemma RaisesAfter(rules: seq<Rule>, dns: seq<DnsOutcome>, wildcard: seq<DnsOutcome>, https: Fetched, http: Fetched)
    requires |dns| == |wildcard| && Evaluates(rules, dns, wildcard) && Candidates(rules, dns) == rules
    ensures Raises(rules, dns, wildcard, https, http) <==>
              UncitableDns(rules, dns) || HttpRaises(rules, https, http) || Clash(Collected(rules, dns, https, http))
  {
    hide Errors, Candidates, Disagree, SameEverywhere, WildcardErrors, UncitableDns, HttpRaises, Clash, Collected,
      ErrorsFit;
  }

  /** A Location of one ideographic space, which is white space too, ends the scan. */
  lemma BlankLocationRaises(id: string, service: string, response: Response, http: Fetched)
    requires NonBlank(id) && NonBlank(service)
    ensures var rules := [AliasRule(id, service, [])];
            var https := Answered(response, Some("\U{3000}"));
            && ValidRules(rules) && Evaluates(rules, Candidate(NoError), Control()) && NeedsHttp(rules)
            && !Recordable(https) && Raises(rules, Candidate(NoError), Control(), https, http)
  {
    hide *;
    var rule, https := AliasRule(id, service, []), Answered(response, Some("\U{3000}"));
    AliasRuleIsValid(id, service, []);
    NotRecordable(response);
    OneRule(rule);
    CandidateEvaluates([rule], NoError);
    RaisesAfter([rule], Candidate(NoError), Control(), https, http);
    assert [rule][0] == rule;
    AskingRaises([rule], https, http);
  }

  lemma NotRecordable(response: Response)
    ensures !Recordable(Answered(response, Some("\U{3000}")))
  {
    assert !NonBlank("\U{3000}");
    hide Strip;
  }

  lemma OneRule(rule: Rule)
    requires ValidRule(rule)
    ensures ValidRules([rule])
  {
    hide ValidRule;
  }

  lemma AskingRaises(rules: seq<Rule>, https: Fetched, http: Fetched)
    requires rules != [] && rules[0].terminalRcodes == [] && !Recordable(https)
    ensures NeedsHttp(rules) && HttpRaises(rules, https, http)
  {
    hide Recordable, UncitableHttp;
  }

  /** A rule that lists a terminal code twice passes its constructor and ends the scan. */
  lemma RepeatedCodeRaises(id: string, service: string, https: Fetched, http: Fetched)
    requires NonBlank(id) && NonBlank(service)
    ensures var rules := [AliasRule(id, service, [NxDomain, NxDomain])];
            ValidRules(rules) && Raises(rules, Candidate(NxDomain), Control(), https, http)
  {
    hide *;
    var rule := AliasRule(id, service, [NxDomain, NxDomain]);
    AliasRuleIsValid(id, service, [NxDomain, NxDomain]);
    RepeatIsUncitable(rule);
    OneRule(rule);
    CandidateEvaluates([rule], NxDomain);
    RaisesAfter([rule], Candidate(NxDomain), Control(), https, http);
    assert [rule][0] == rule;
    FirstUncitable([rule], Candidate(NxDomain));
  }

  lemma RepeatIsUncitable(rule: Rule)
    requires rule.terminalRcodes == [NxDomain, NxDomain]
    ensures FiresDns(rule, Candidate(NxDomain)) && !CitableDns(rule)
  {
    hide NamesFit;
    assert rule.terminalRcodes[0] == rule.terminalRcodes[1];
  }

  lemma FirstUncitable(rules: seq<Rule>, dns: seq<DnsOutcome>)
    requires rules != [] && FiresDns(rules[0], dns) && !CitableDns(rules[0])
    ensures UncitableDns(rules, dns)
  {
    hide FiresDns, CitableDns;
  }

  /** Ids that differ only in their margins pass the check for unique ids; when both rules
      fire, the scan ends. */
  lemma SameIdRaises(id: string, service: string, other: string, https: Fetched, http: Fetched)
    requires NonBlank(id) && NonBlank(service) && NonBlank(other) && Strip(service) != Strip(other)
    ensures var rules := [AliasRule(id, service, [NxDomain]), AliasRule(" " + id, other, [NxDomain])];
            ValidRules(rules) && Raises(rules, Candidate(NxDomain), Control(), https, http)
  {
    hide *;
    var a, b := AliasRule(id, service, [NxDomain]), AliasRule(" " + id, other, [NxDomain]);
    PaddedId(id);
    AliasRuleIsValid(id, service, [NxDomain]);
    AliasRuleIsValid(" " + id, other, [NxDomain]);
    OneCodeFires(a);
    OneCodeFires(b);
    SameIdsClash(a, b, Candidate(NxDomain), https, http);
    TwoRules(a, b);
    CandidateEvaluates([a, b], NxDomain);
    RaisesAfter([a, b], Candidate(NxDomain), Control(), https, http);
  }

  lemma OneCodeFires(rule: Rule)
    requires rule.terminalRcodes == [NxDomain]
    ensures FiresDns(rule, Candidate(NxDomain))
  {
  }

  lemma PaddedId(id: string)
    requires NonBlank(id)
    ensures NonBlank(" " + id) && Strip(" " + id) == Strip(id) && " " + id != id
  {
    var i :| 0 <= i < |id| && !Whitespace(id[i]);
    assert (" " + id)[i + 1] == id[i] && (" " + id)[1..] == id;
    assert |" " + id| != |id|;
  }

  lemma TwoRules(a: Rule, b: Rule)
    requires ValidRule(a) && ValidRule(b) && a.ruleId != b.ruleId
    ensures ValidRules([a, b])
  {
    hide ValidRule;
  }

  lemma SameIdsClash(a: Rule, b: Rule, dns: seq<DnsOutcome>, https: Fetched, http: Fetched)
    requires Strip(a.ruleId) == Strip(b.ruleId) && Strip(a.service) != Strip(b.service)
    requires FiresDns(a, dns) && FiresDns(b, dns)
    ensures Clash(Collected([a, b], dns, https, http))
  {
    BothCollected(a, b, dns, https, http);
    hide Collected, Strip, FiresDns, Sorted, Terminals;
    var collected := Collected([a, b], dns, https, http);
    assert collected[0].service != collected[1].service && collected[0].ruleId == collected[1].ruleId;
  }

  lemma BothCollected(a: Rule, b: Rule, dns: seq<DnsOutcome>, https: Fetched, http: Fetched)
    requires FiresDns(a, dns) && FiresDns(b, dns)
    ensures var collected := Collected([a, b], dns, https, http);
            |collected| >= 2 && collected[0] == StoredIndicator(RawDnsIndicator(a))
            && collected[1] == StoredIndicator(RawDnsIndicator(b))
  {
    hide FiresDns, StoredIndicator, RawDnsIndicator, HttpIndicators, NeedsHttp;
    assert [a, b][..1] == [a] && [a][..0] == [];
    assert DnsIndicators([a], dns) == [] + [StoredIndicator(RawDnsIndicator(a))];
  }

  // ---- the control's name ----

  function AfterFirstDot(name: string): string {
    if name == "" then "" else if name[0] == '.' then name[1..] else AfterFirstDot(name[1..])
  }

  /** partition('.')[2]: what follows the first dot, or nothing. */
  lemma {:induction false} AfterFirstDotExact(name: string, i: nat)
    requires i <= |name| && forall k | 0 <= k < i :: name[k] != '.'
    ensures i < |name| && name[i] == '.' ==> AfterFirstDot(name) == name[i + 1..]
    ensures i == |name| ==> AfterFirstDot(name) == ""
  {
    if i > 0 {
      AfterFirstDotExact(name[1..], i - 1);
      assert i < |name| ==> name[1..][i..] == name[i + 1..];
    }
  }

  predicate Within(name: string, target: string) {
    name == target || (|name| > |target| && name[|name| - |target| - 1..] == "." + target)
  }

  /** The suffix under which the control is asked: never outside the authorised target. */
  function ControlSuffix(hostname: string, target: string): string {
    if hostname != target then AfterFirstDot(hostname) else target
  }

  lemma {:induction false} ControlStaysInside(hostname: string, target: string)
    requires Within(hostname, target)
    ensures Within(ControlSuffix(hostname, target), target)
  {
    if hostname != target {
      var n := |hostname| - |target| - 1;
      assert hostname[n..][0] == '.' && hostname[n] == '.';
      assert hostname[n + 1..] == hostname[n..][1..] == target;
      if hostname[0] != '.' {
        assert n > 0;
        var rest := hostname[1..];
        assert rest[n - 1..] == hostname[n..];
        ControlStaysInside(rest, target);
      } else if n > 0 {
        assert hostname[1..][n - 1..] == hostname[n..];
      }
    }
  }
}
