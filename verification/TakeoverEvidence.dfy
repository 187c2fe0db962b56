/** Takeover evidence as it is stored: DNS and HTTP outcomes, indicators and the outcome of
    one candidate, each with the conditions under which its constructor accepts it. */
module TakeoverEvidence {
  import opened Wrappers
  import opened Ordering
  import opened Texts

  datatype Rcode = NoError | NxDomain | NoData | Error

  /** One resolver's view of a name. */
  datatype DnsOutcome = DnsOutcome(resolver: string, chain: seq<string>, rcode: Rcode, errorType: Option<string>)

  datatype Scheme = Https | Http

  datatype HttpOutcome = HttpOutcome(
    scheme: Scheme, status: Option<int>, location: Option<string>, errorType: Option<string>, truncated: bool)

  datatype Matched =
    | TerminalRcode(rcode: Rcode)
    | StatusCode(status: int)
    | Body(pattern: string)
    | BodyRegex(pattern: string)
    | Header(pattern: string)

  datatype Indicator = Indicator(
    ruleId: string, classification: string, service: string, scheme: Option<Scheme>, matched: seq<Matched>)

  datatype Status = Indicated | NoIndicator | Inconclusive

  datatype Outcome = Outcome(
    hostname: string, status: Status, dns: seq<DnsOutcome>, wildcard: seq<DnsOutcome>, http: seq<HttpOutcome>,
    indicators: seq<Indicator>, errors: seq<string>)

  /** normalize_hostname: None where it raises. */
  type Names = string -> Option<string>

  /** A required text: neither blank nor longer than the limit, its margins aside. */
  predicate TextFits(s: string, limit: nat) { 0 < |Strip(s)| <= limit }

  // ---- DNS outcomes ----

  function RcodeText(c: Rcode): string {
    match c
    case NoError => "NOERROR"
    case NxDomain => "NXDOMAIN"
    case NoData => "NODATA"
    case Error => "ERROR"
  }

  /** The resolver's address is canonical by configuration. */
  predicate AcceptsDns(names: Names, o: DnsOutcome) {
    && (forall i | 0 <= i < |o.chain| :: names(o.chain[i]) == Some(o.chain[i]))
    && NoDuplicates(o.chain)
    && (o.errorType.Some? ==> TextFits(o.errorType.value, 2048))
    && (o.rcode == Error ==> o.errorType.Some?)
  }

  /** A tuple inside a tuple: element by element, the shorter first. */
  function ChainKey(chain: seq<string>): Key {
    if chain == [] then [Num(0)] else [Num(1), Text(chain[0])] + ChainKey(chain[1..])
  }

  function DnsKey(o: DnsOutcome): Key {
    [Text(o.resolver)] + ChainKey(o.chain) + [Text(RcodeText(o.rcode)), Text(o.errorType.GetOr(""))]
  }

  // ---- HTTP outcomes ----

  function SchemeText(s: Scheme): string { if s == Https then "https" else "http" }

  predicate AcceptsHttp(h: HttpOutcome) {
    && (h.status.Some? ==> 100 <= h.status.value <= 599)
    && (h.location.Some? ==> TextFits(h.location.value, 2048))
    && (h.errorType.Some? ==> TextFits(h.errorType.value, 2048))
    && (h.status.None? ==> h.errorType.Some?)
    && (h.truncated ==> h.errorType.Some?)
  }

  function HttpKey(h: HttpOutcome): Key {
    [Text(SchemeText(h.scheme)), Num(h.status.GetOr(0)), Text(h.location.GetOr("")), Text(h.errorType.GetOr("")),
     Num(if h.truncated then 1 else 0)]
  }

  /** Texts are stored without their margins. */
  function StoredHttp(h: HttpOutcome): HttpOutcome {
    h.(location := if h.location.Some? then Some(Strip(h.location.value)) else None,
       errorType := if h.errorType.Some? then Some(Strip(h.errorType.value)) else None)
  }

  // ---- indicators ----

  function Decimal(n: int): string
    decreases if n < 0 then 1 - n else n
  {
    if n < 0 then "-" + Decimal(-n)
    else if n < 10 then ["0123456789"[n]]
    else Decimal(n / 10) + ["0123456789"[n % 10]]
  }

  /** A matched predicate as it is written. */
  function Render(p: Matched): string {
    match p
    case TerminalRcode(c) => "dns:terminal-rcode=" + RcodeText(c)
    case StatusCode(n) => "status:" + Decimal(n)
    case Body(s) => "body:" + s
    case BodyRegex(s) => "body-regex:" + s
    case Header(s) => "header:" + s
  }

  function RenderKey(p: Matched): Key { TextKey(Render(p)) }

  const CLASSIFICATIONS: set<string> := {"vulnerable-indicator", "unverified-indicator", "edge-case"}

  predicate AcceptsIndicator(ind: Indicator) {
    && ind.classification in CLASSIFICATIONS
    && ind.matched != [] && SortedUnique(ind.matched, RenderKey) == ind.matched
    && TextFits(ind.service, 512) && TextFits(ind.ruleId, 512)
    && (forall i | 0 <= i < |ind.matched| :: TextFits(Render(ind.matched[i]), 512))
    && (forall i | 0 <= i < |ind.matched| :: ind.matched[i].TerminalRcode? <==> ind.scheme.None?)
    && (forall i | 0 <= i < |ind.matched| && ind.matched[i].StatusCode? :: 100 <= ind.matched[i].status <= 599)
  }

  function StoredIndicator(ind: Indicator): Indicator {
    ind.(service := Strip(ind.service), ruleId := Strip(ind.ruleId))
  }

  function IndicatorKey(i: Indicator): Key {
    [Text(i.ruleId), Text(i.service), Text(i.classification),
        Text(if i.scheme.Some? then SchemeText(i.scheme.value) else "")]
  }

  /** Different predicates are written differently; only two statuses are not told apart here. */
  lemma RenderDiffers(p: Matched, q: Matched)
    requires Render(p) == Render(q) && (p.StatusCode? && q.StatusCode? ==> p == q)
    ensures p == q
  {
    var a, b := Render(p), Render(q);
    assert a[0] == b[0];
    match p
    case TerminalRcode(c) => assert a[19..] == RcodeText(c) && b[19..] == RcodeText(q.rcode);
    case StatusCode(_) => assert q.StatusCode?;
    case Body(s) =>
      assert a[4] == b[4];
      assert a[5..] == s && b[5..] == q.pattern;
    case BodyRegex(s) =>
      assert a[4] == b[4];
      assert a[11..] == s && b[11..] == q.pattern;
    case Header(s) => assert a[7..] == s && b[7..] == q.pattern;
  }

  lemma ShortTextFits(s: string)
    requires s != "" && Letter(s[0]) && |s| <= 512
    ensures TextFits(s, 512) && TextFits(s, 2048)
  {
    hide Strip, Whitespace;
    LettersShow(s[0]);
    StripKeepsStart(s);
  }

  lemma TerminalFits(c: Rcode)
    ensures TextFits(Render(TerminalRcode(c)), 512)
  {
    hide TextFits, Whitespace;
    var s := Render(TerminalRcode(c));
    assert s[0] == 'd';
    ShortTextFits(s);
  }

  lemma StatusFits(n: int)
    requires 100 <= n <= 599
    ensures TextFits(Render(StatusCode(n)), 512)
  {
    hide TextFits, Whitespace;
    var s := Render(StatusCode(n));
    assert Decimal(n / 10) == Decimal(n / 100) + ["0123456789"[n / 10 % 10]];
    assert |Decimal(n)| == 3 && s[0] == 's';
    ShortTextFits(s);
  }

  // ---- candidate outcomes ----

  /** Two outcomes with the same resolver, or two with the same scheme, are refused. */
  predicate ResolversDiffer(dns: seq<DnsOutcome>) {
    forall i, j | 0 <= i < j < |dns| :: dns[i].resolver != dns[j].resolver
  }

  predicate DnsInOrder(dns: seq<DnsOutcome>) {
    SortedUnique(dns, DnsKey) == dns && ResolversDiffer(dns)
  }

  predicate HttpInOrder(http: seq<HttpOutcome>) {
    SortedUnique(http, HttpKey) == http && forall i, j | 0 <= i < j < |http| :: http[i].scheme != http[j].scheme
  }

  predicate IndicatorsInOrder(indicators: seq<Indicator>) {
    && SortedUnique(indicators, IndicatorKey) == indicators
    && forall i, j | 0 <= i < j < |indicators| :: indicators[i].ruleId != indicators[j].ruleId
  }

  predicate ErrorsInOrder(errors: seq<string>) {
    SortedUnique(errors, TextKey) == errors && ErrorsFit(errors)
  }

  predicate ErrorsFit(errors: seq<string>) {
    forall i | 0 <= i < |errors| :: TextFits(errors[i], 512)
  }

  predicate Disagree(dns: seq<DnsOutcome>) {
    exists i, j | 0 <= i < |dns| && 0 <= j < |dns| :: dns[i].chain != dns[j].chain || dns[i].rcode != dns[j].rcode
  }

  predicate NestedErrorsListed(o: Outcome) {
    && (forall i | 0 <= i < |o.dns| && o.dns[i].errorType.Some? :: o.dns[i].errorType.value in o.errors)
    && (forall i | 0 <= i < |o.wildcard| && o.wildcard[i].errorType.Some? :: o.wildcard[i].errorType.value in o.errors)
    && (forall i | 0 <= i < |o.http| && o.http[i].errorType.Some? :: o.http[i].errorType.value in o.errors)
  }

  predicate StatusConsistent(o: Outcome) {
    && (o.status == Indicated <==> o.indicators != [])
    && (o.status == NoIndicator ==> o.errors == [])
    && (o.status == Inconclusive ==> o.errors != [])
  }

  /** Indicators and HTTP evidence come only beside error-free DNS evidence on which the
      resolvers agree, with a control that differs on every resolver. */
  predicate ControlsDistinct(o: Outcome) {
    o.indicators != [] || o.http != [] ==>
      && (forall i | 0 <= i < |o.dns| :: o.dns[i].errorType.None?)
      && (forall i | 0 <= i < |o.wildcard| :: o.wildcard[i].errorType.None?)
      && |o.wildcard| == |o.dns| && (forall i | 0 <= i < |o.dns| :: o.wildcard[i].resolver == o.dns[i].resolver)
      && !Disagree(o.dns) && !Disagree(o.wildcard)
      && forall i | 0 <= i < |o.dns| :: o.dns[i].chain != o.wildcard[i].chain || o.dns[i].rcode != o.wildcard[i].rcode
  }

  /** An indicator agrees with the evidence it is stored beside. */
  predicate IndicatorFits(o: Outcome, ind: Indicator) {
    match ind.scheme
    case None =>
      && (forall i | 0 <= i < |ind.matched| :: ind.matched[i].TerminalRcode?)
      && forall i | 0 <= i < |o.dns| :: TerminalRcode(o.dns[i].rcode) in ind.matched && o.dns[i].errorType.None?
    case Some(scheme) =>
      exists i | 0 <= i < |o.http| :: Supports(o.http[i], scheme, ind.matched)
  }

  predicate Supports(h: HttpOutcome, scheme: Scheme, matched: seq<Matched>) {
    && h.scheme == scheme && h.status.Some? && h.errorType.None? && !h.truncated
    && ((forall i | 0 <= i < |matched| :: !matched[i].StatusCode?) || StatusCode(h.status.value) in matched)
  }

  /** The whole of the candidate outcome's constructor. */
  predicate AcceptsOutcome(names: Names, o: Outcome) {
    && names(o.hostname) == Some(o.hostname)
    && o.dns != [] && DnsInOrder(o.dns) && DnsInOrder(o.wildcard) && HttpInOrder(o.http)
    && IndicatorsInOrder(o.indicators) && ErrorsInOrder(o.errors)
    && NestedErrorsListed(o) && StatusConsistent(o) && ControlsDistinct(o)
    && forall i | 0 <= i < |o.indicators| :: IndicatorFits(o, o.indicators[i])
  }

  // ---- the constructors, check by check ----

  method RequiredText(s: string, limit: nat) returns (raised: bool)
    ensures raised == !TextFits(s, limit)
  {
    var text := Strip(s);
    raised := text == "" || |text| > limit;
  }

  method OptionalText(s: Option<string>, limit: nat) returns (raised: bool)
    ensures raised == (s.Some? && !TextFits(s.value, limit))
  {
    if s.None? { return false; }
    raised := RequiredText(s.value, limit);
  }

  method ConstructDns(names: Names, o: DnsOutcome) returns (raised: bool)
    ensures raised == !AcceptsDns(names, o)
  {
    hide TextFits;
    if exists i | 0 <= i < |o.chain| :: names(o.chain[i]) != Some(o.chain[i]) { return true; }
    if exists i, j | 0 <= i < j < |o.chain| :: o.chain[i] == o.chain[j] { return true; }
    raised := OptionalText(o.errorType, 2048);
    if raised { return; }
    if o.rcode == Error && o.errorType == None { return true; }
  }

  method ConstructHttp(h: HttpOutcome) returns (raised: bool)
    ensures raised == !AcceptsHttp(h)
  {
    hide TextFits;
    if h.status != None && !(100 <= h.status.value <= 599) { return true; }
    raised := OptionalText(h.location, 2048);
    if raised { return; }
    raised := OptionalText(h.errorType, 2048);
    if raised { return; }
    if h.status == None && h.errorType == None { return true; }
    if h.truncated && h.errorType == None { return true; }
  }

  method ConstructIndicator(ind: Indicator) returns (raised: bool)
    ensures raised == !AcceptsIndicator(ind)
  {
    hide TextFits, SortedUnique, Render;
    if ind.classification !in CLASSIFICATIONS { return true; }
    if ind.matched == [] || ind.matched != SortedUnique(ind.matched, RenderKey) { return true; }
    raised := RequiredText(ind.service, 512);
    if raised { return; }
    raised := RequiredText(ind.ruleId, 512);
    if raised { return; }
    for i := 0 to |ind.matched|
      invariant !raised && forall k | 0 <= k < i :: TextFits(Render(ind.matched[k]), 512)
    {
      raised := RequiredText(Render(ind.matched[i]), 512);
      if raised { return; }
    }
    var someDns := exists i | 0 <= i < |ind.matched| :: ind.matched[i].TerminalRcode?;
    var dnsOnly := forall i | 0 <= i < |ind.matched| :: ind.matched[i].TerminalRcode?;
    assert dnsOnly ==> ind.matched[0].TerminalRcode?;
    if someDns && !dnsOnly { return true; }
    if dnsOnly && ind.scheme != None { return true; }
    if !dnsOnly && ind.scheme == None { return true; }
    for i := 0 to |ind.matched|
      invariant forall k | 0 <= k < i && ind.matched[k].StatusCode? :: 100 <= ind.matched[k].status <= 599
    {
      if ind.matched[i].StatusCode? {
        var status := ind.matched[i].status;
        if status < 100 || 599 < status { return true; }
      }
    }
    return false;
  }

  /** The checks on one indicator beside the evidence. */
  method IndicatorAgrees(o: Outcome, ind: Indicator) returns (raised: bool)
    requires HttpInOrder(o.http)
    ensures raised == !IndicatorFits(o, ind)
  {
    hide SortedUnique;
    if ind.scheme == None {
      if exists i | 0 <= i < |ind.matched| :: !ind.matched[i].TerminalRcode? { return true; }
      for i := 0 to |o.dns|
        invariant forall k | 0 <= k < i :: TerminalRcode(o.dns[k].rcode) in ind.matched && o.dns[k].errorType == None
      {
        if TerminalRcode(o.dns[i].rcode) !in ind.matched || o.dns[i].errorType != None { return true; }
      }
      return false;
    }
    for i := 0 to |o.http|
      invariant forall k | 0 <= k < i :: o.http[k].scheme != ind.scheme.value
    {
      if o.http[i].scheme == ind.scheme.value {
        var h := o.http[i];
        if h.status == None || h.errorType != None || h.truncated { return true; }
        var statuses := exists k | 0 <= k < |ind.matched| :: ind.matched[k].StatusCode?;
        return statuses && StatusCode(h.status.value) !in ind.matched;
      }
    }
    return true;
  }

  /** The checks on the evidence that indicators and HTTP outcomes rest on. */
  method ControlsRefused(o: Outcome) returns (raised: bool)
    ensures raised == !ControlsDistinct(o)
  {
    if o.indicators == [] && o.http == [] { return false; }
    if exists i | 0 <= i < |o.dns| :: o.dns[i].errorType != None { return true; }
    if exists i | 0 <= i < |o.wildcard| :: o.wildcard[i].errorType != None { return true; }
    if |o.wildcard| != |o.dns| || exists i | 0 <= i < |o.dns| :: o.wildcard[i].resolver != o.dns[i].resolver {
      return true;
    }
    if Disagree(o.dns) { return true; }
    if Disagree(o.wildcard) { return true; }
    return exists i | 0 <= i < |o.dns| ::
      o.dns[i].chain == o.wildcard[i].chain && o.dns[i].rcode == o.wildcard[i].rcode;
  }

  /** The error of every DNS and HTTP outcome is among the candidate's. */
  method ErrorsMissing(o: Outcome) returns (raised: bool)
    ensures raised == !NestedErrorsListed(o)
  {
    var nested := set i | 0 <= i < |o.dns| && o.dns[i].errorType != None :: o.dns[i].errorType.value;
    nested := nested
        + set i | 0 <= i < |o.wildcard| && o.wildcard[i].errorType != None :: o.wildcard[i].errorType.value;
    nested := nested + set i | 0 <= i < |o.http| && o.http[i].errorType != None :: o.http[i].errorType.value;
    raised := exists e | e in nested :: e !in o.errors;
    if NestedErrorsListed(o) {
      assert forall e | e in nested :: e in o.errors;
    } else {
      ghost var e: string :| e in nested && e !in o.errors;
    }
  }

  method ConstructOutcome(names: Names, o: Outcome) returns (raised: bool)
    ensures raised == !AcceptsOutcome(names, o)
  {
    hide SortedUnique, TextFits, IndicatorFits, NestedErrorsListed, ControlsDistinct, DnsKey, HttpKey;
    if names(o.hostname) != Some(o.hostname) { return true; }
    if o.dns == [] || SortedUnique(o.dns, DnsKey) != o.dns { return true; }
    if exists i, j | 0 <= i < j < |o.dns| :: o.dns[i].resolver == o.dns[j].resolver { return true; }
    if SortedUnique(o.wildcard, DnsKey) != o.wildcard { return true; }
    if exists i, j | 0 <= i < j < |o.wildcard| :: o.wildcard[i].resolver == o.wildcard[j].resolver { return true; }
    if SortedUnique(o.http, HttpKey) != o.http { return true; }
    if exists i, j | 0 <= i < j < |o.http| :: o.http[i].scheme == o.http[j].scheme { return true; }
    if SortedUnique(o.indicators, IndicatorKey) != o.indicators { return true; }
    if exists i, j | 0 <= i < j < |o.indicators| :: o.indicators[i].ruleId == o.indicators[j].ruleId { return true; }
    if SortedUnique(o.errors, TextKey) != o.errors { return true; }
    raised := false;
    for i := 0 to |o.errors|
      invariant !raised && forall k | 0 <= k < i :: TextFits(o.errors[k], 512)
    {
      raised := RequiredText(o.errors[i], 512);
      if raised { return; }
    }
    raised := ErrorsMissing(o);
    if raised { return; }
    if o.status == Indicated && o.indicators == [] { return true; }
    if o.status != Indicated && o.indicators != [] { return true; }
    if o.status == NoIndicator && o.errors != [] { return true; }
    if o.status == Inconclusive && o.errors == [] { return true; }
    raised := ControlsRefused(o);
    if raised { return; }
    for i := 0 to |o.indicators|
      invariant !raised && forall k | 0 <= k < i :: IndicatorFits(o, o.indicators[k])
    {
      raised := IndicatorAgrees(o, o.indicators[i]);
      if raised { return; }
    }
  }

  // ---- what is in order ----

  /** One outcome per configured resolver, in resolver order. */
  predicate OnePerResolver(dns: seq<DnsOutcome>, resolvers: seq<string>) {
    |dns| == |resolvers| && forall i | 0 <= i < |dns| :: dns[i].resolver == resolvers[i]
  }

  lemma FirstFieldDecides(a: Key, b: Key)
    requires a != [] && b != [] && FieldLt(a[0], b[0])
    ensures KeyLt(a, b)
  {
  }

  lemma ResolverOrder(dns: seq<DnsOutcome>, resolvers: seq<string>)
    requires OnePerResolver(dns, resolvers) && StrictlySorted(resolvers, TextKey)
    ensures DnsInOrder(dns)
  {
    hide KeyLt, TextLt, SortedUnique;
    forall i, j | 0 <= i < j < |dns|
      ensures KeyLt(DnsKey(dns[i]), DnsKey(dns[j])) && dns[i].resolver != dns[j].resolver
    {
      assert KeyLt(TextKey(resolvers[i]), TextKey(resolvers[j]));
      TextKeyLt(resolvers[i], resolvers[j]);
      TextOrder(resolvers[i], resolvers[j]);
      FirstFieldDecides(DnsKey(dns[i]), DnsKey(dns[j]));
    }
    StrictlySortedIsFixed(dns, DnsKey);
  }

  lemma HttpBeforeHttps()
    ensures TextLt("http", "https")
  {
    assert TextLt("http"[4..], "https"[4..]);
    assert TextLt("http"[3..], "https"[3..]);
    assert TextLt("http"[2..], "https"[2..]);
    assert TextLt("http"[1..], "https"[1..]);
  }

  lemma SchemeOrder(http: HttpOutcome, https: HttpOutcome)
    requires http.scheme == Http && https.scheme == Https
    ensures HttpInOrder([http, https])
  {
    HttpBeforeHttps();
    hide KeyLt, TextLt, SortedUnique;
    assert HttpKey(http)[0] == Text("http") && HttpKey(https)[0] == Text("https");
    FirstFieldDecides(HttpKey(http), HttpKey(https));
    StrictlySortedIsFixed([http, https], HttpKey);
  }

  /** Two different indicators that cite one rule. */
  predicate Clash(indicators: seq<Indicator>) {
    exists i, j | 0 <= i < |indicators| && 0 <= j < |indicators| ::
      indicators[i] != indicators[j] && indicators[i].ruleId == indicators[j].ruleId
  }

  /** sorted(set(indicators)) is accepted exactly when no two of them clash. */
  lemma InOrderIffNoClash(indicators: seq<Indicator>)
    ensures IndicatorsInOrder(SortedUnique(indicators, IndicatorKey)) <==> !Clash(indicators)
  {
    hide SortedUnique, IndicatorKey;
    var sorted := SortedUnique(indicators, IndicatorKey);
    SortedUniqueMembers(indicators, IndicatorKey);
    if Clash(indicators) {
      var i, j :| 0 <= i < |indicators| && 0 <= j < |indicators|
                  && indicators[i] != indicators[j] && indicators[i].ruleId == indicators[j].ruleId;
      assert indicators[i] in sorted && indicators[j] in sorted;
      var k :| 0 <= k < |sorted| && sorted[k] == indicators[i];
      var l :| 0 <= l < |sorted| && sorted[l] == indicators[j];
      assert k < l || l < k;
    } else {
      forall x, y | x in indicators && y in indicators && IndicatorKey(x) == IndicatorKey(y) ensures x == y {
        IndicatorKeyHasId(x, y);
      }
      SortedUniqueKeeps(indicators, IndicatorKey);
      StrictlySortedIsFixed(sorted, IndicatorKey);
      StrictlySortedDistinct(sorted, IndicatorKey);
      forall i, j | 0 <= i < j < |sorted| ensures sorted[i].ruleId != sorted[j].ruleId {
        assert sorted[i] in sorted && sorted[j] in sorted;
        assert sorted[i] in indicators && sorted[j] in indicators;
      }
    }
  }

  lemma IndicatorKeyHasId(x: Indicator, y: Indicator)
    requires IndicatorKey(x) == IndicatorKey(y)
    ensures x.ruleId == y.ruleId
  {
    assert IndicatorKey(x)[0] == IndicatorKey(y)[0];
  }

  /** sorted(set(errors)) is accepted exactly when every error fits. */
  lemma ErrorsInOrderIffFit(errors: seq<string>)
    ensures ErrorsInOrder(SortedUnique(errors, TextKey)) <==> ErrorsFit(errors)
  {
    hide SortedUnique, TextKey, TextFits;
    var sorted := SortedUnique(errors, TextKey);
    TextKeysDiffer();
    SortedUniqueKeeps(errors, TextKey);
    StrictlySortedIsFixed(sorted, TextKey);
    if ErrorsFit(errors) {
      forall i | 0 <= i < |sorted| ensures TextFits(sorted[i], 512) {
        assert sorted[i] in sorted && sorted[i] in errors;
      }
    }
    if ErrorsFit(sorted) {
      forall i | 0 <= i < |errors| ensures TextFits(errors[i], 512) {
        assert errors[i] in errors && errors[i] in sorted;
      }
    }
  }
}
