/** The endpoint indexes of an API scan: after any responses each index is a filter of the
    found endpoints by the stored result's own fields, and ordering them loses nothing. */
module ApiScanIndex {
  import opened Wrappers

  /** A dictionary with its insertion order. */
  datatype Dict<V> = Dict(keys: seq<string>, at: map<string, V>)

  ghost predicate WellFormed<V>(d: Dict<V>) {
    NoDuplicates(d.keys) && forall k :: k in d.keys <==> k in d.at
  }

  function Put<V>(d: Dict<V>, key: string, value: V): Dict<V> {
    Dict(if key in d.at then d.keys else d.keys + [key], d.at[key := value])
  }

  function Except(keys: seq<string>, key: string): seq<string> {
    if keys == [] then []
    else
      var before, last := Except(keys[..|keys| - 1], key), keys[|keys| - 1];
      if last == key then before else before + [last]
  }

  function Pop<V>(d: Dict<V>, key: string): Dict<V> {
    if key in d.at then Dict(Except(d.keys, key), d.at - {key}) else d
  }

  lemma Appended(xs: seq<string>, x: string)
    requires NoDuplicates(xs) && x !in xs
    ensures NoDuplicates(xs + [x])
  {
  }

  lemma Taken(xs: seq<string>)
    requires NoDuplicates(xs) && xs != []
    ensures NoDuplicates(xs[..|xs| - 1]) && xs[|xs| - 1] !in xs[..|xs| - 1]
    ensures forall x :: x in xs <==> x in xs[..|xs| - 1] || x == xs[|xs| - 1]
  {
    assert xs == xs[..|xs| - 1] + [xs[|xs| - 1]];
  }

  lemma {:induction false} ExceptKeeps(keys: seq<string>, key: string)
    requires NoDuplicates(keys)
    ensures NoDuplicates(Except(keys, key))
    ensures forall k :: k in Except(keys, key) <==> k in keys && k != key
  {
    hide NoDuplicates;
    if keys != [] {
      Taken(keys);
      ExceptKeeps(keys[..|keys| - 1], key);
      if keys[|keys| - 1] != key { Appended(Except(keys[..|keys| - 1], key), keys[|keys| - 1]); }
    } else {
      Nothing();
    }
  }

  lemma Nothing()
    ensures NoDuplicates<string>([])
  {
  }

  lemma PutKeeps<V>(d: Dict<V>, key: string, value: V)
    requires WellFormed(d)
    ensures WellFormed(Put(d, key, value))
  {
  }

  lemma PopKeeps<V>(d: Dict<V>, key: string)
    requires WellFormed(d)
    ensures WellFormed(Pop(d, key)) && Pop(d, key).at == d.at - {key}
  {
    ExceptKeeps(d.keys, key);
  }

  // ---- one response ----

  datatype Endpoint = Endpoint(
    url: string, status: int, verb: string, authRequired: bool, rateLimited: bool, rateLimitHeaders: set<string>,
    interesting: bool, techStack: seq<string>)

  /** What a response shows: lower-cased header names, body length, whether its URL or
      content type speaks of an API, the technologies its patterns find, and the schema in
      its body: a JSON object with an openapi or a swagger key. */
  datatype Response = Response(
    status: int, headerNames: seq<string>, bodyLength: nat, apiLike: bool, techStack: seq<string>,
        schema: Option<string>)

  /** A response and the method it answers. */
  datatype Answer = Answer(verb: string, response: Response)

  predicate HasPart(s: string, part: string) { exists i | 0 <= i <= |s| :: part <= s[i..] }

  /** Some header announces a rate limit. */
  predicate AnnouncesLimit(r: Response) {
    exists i | 0 <= i < |r.headerNames| :: "x-rate-limit" <= r.headerNames[i] || "ratelimit" <= r.headerNames[i]
  }

  /** The headers about limits, when one of them announces a limit. */
  function RateHeaders(r: Response): set<string> {
    if AnnouncesLimit(r) then set h | h in r.headerNames && (HasPart(h, "rate") || HasPart(h, "limit")) else {}
  }

  function Describe(url: string, verb: string, r: Response): Endpoint {
    Endpoint(url, r.status, verb, r.status in {401, 403}, r.status == 429, RateHeaders(r),
             r.status in {200, 201, 202, 204} && (r.bodyLength > 0 || verb in {"GET", "POST"}) && r.apiLike,
             r.techStack)
  }

  // ---- what each index is ----

  function Interesting(found: map<string, Endpoint>): map<string, Endpoint> {
    map u | u in found && found[u].interesting :: found[u]
  }

  function AuthRequired(found: map<string, Endpoint>): map<string, Endpoint> {
    map u | u in found && found[u].authRequired :: found[u]
  }

  function RateLimited(found: map<string, Endpoint>): map<string, Endpoint> {
    map u | u in found && (found[u].rateLimited || found[u].rateLimitHeaders != {}) :: found[u]
  }

  function TechStacks(found: map<string, Endpoint>): map<string, seq<string>> {
    map u | u in found && found[u].techStack != [] :: found[u].techStack
  }

  /** The schemas of the last response of each URL that speaks of one. */
  function Schemas(last: map<string, Answer>, schemaUrl: string -> bool): map<string, string> {
    map u | u in last && schemaUrl(u) && last[u].response.schema.Some? :: last[u].response.schema.value
  }

  /** The endpoint dictionaries, found_endpoints first. */
  datatype Books = Books(
    found: Dict<Endpoint>, interesting: Dict<Endpoint>, authRequired: Dict<Endpoint>, rateLimits: Dict<Endpoint>,
    techStack: Dict<seq<string>>, schemaDetected: Dict<string>)

  ghost predicate AllWellFormed(b: Books) {
    && WellFormed(b.found) && WellFormed(b.interesting) && WellFormed(b.authRequired) && WellFormed(b.rateLimits)
    && WellFormed(b.techStack) && WellFormed(b.schemaDetected)
  }

  ghost predicate Filtered(b: Books, last: map<string, Answer>, schemaUrl: string -> bool) {
    && b.interesting.at == Interesting(b.found.at)
    && b.authRequired.at == AuthRequired(b.found.at)
    && b.rateLimits.at == RateLimited(b.found.at)
    && b.techStack.at == TechStacks(b.found.at)
    && b.schemaDetected.at == Schemas(last, schemaUrl)
  }

  /** Each found endpoint describes the last response of its URL; each index is the filter of
      the found endpoints by their own fields, and the schemas are those of the last
      responses. */
  ghost predicate Indexed(b: Books, last: map<string, Answer>, schemaUrl: string -> bool) {
    AllWellFormed(b) && Described(b.found.at, last) && Filtered(b, last, schemaUrl)
  }

  // ---- where a URL is filed, told by its last answer alone ----

  predicate InterestingAnswer(verb: string, r: Response) {
    (r.status == 200 || r.status == 201 || r.status == 202 || r.status == 204)
    && (r.bodyLength > 0 || verb == "GET" || verb == "POST") && r.apiLike
  }

  /** The endpoint keeps what the answer says, and the headers about limits exactly when one
      of them announces a limit. */
  ghost predicate Keeps(e: Endpoint, url: string, verb: string, r: Response) {
    && e.url == url && e.status == r.status && e.verb == verb && e.techStack == r.techStack
    && (e.authRequired <==> r.status == 401 || r.status == 403)
    && (e.rateLimited <==> r.status == 429)
    && (e.interesting <==> InterestingAnswer(verb, r))
    && forall h :: h in e.rateLimitHeaders <==>
         AnnouncesLimit(r) && h in r.headerNames && (HasPart(h, "rate") || HasPart(h, "limit"))
  }

  /** Every index has the URL exactly when this answer puts it there, with what it says. */
  ghost predicate Filed(b: Books, schemaUrl: string -> bool, url: string, verb: string, r: Response) {
    && url in b.found.at && Keeps(b.found.at[url], url, verb, r)
    && (url in b.authRequired.at <==> r.status == 401 || r.status == 403)
    && (url in b.rateLimits.at <==> r.status == 429 || AnnouncesLimit(r))
    && (url in b.interesting.at <==> InterestingAnswer(verb, r))
    && (url in b.techStack.at <==> r.techStack != [])
    && (url in b.schemaDetected.at <==> schemaUrl(url) && r.schema.Some?)
    && (url in b.authRequired.at ==> b.authRequired.at[url] == b.found.at[url])
    && (url in b.rateLimits.at ==> b.rateLimits.at[url] == b.found.at[url])
    && (url in b.interesting.at ==> b.interesting.at[url] == b.found.at[url])
    && (url in b.techStack.at ==> b.techStack.at[url] == r.techStack)
    && (url in b.schemaDetected.at ==> b.schemaDetected.at[url] == r.schema.value)
  }

  predicate Unfiled(b: Books, url: string) {
    && url !in b.found.at && url !in b.interesting.at && url !in b.authRequired.at && url !in b.rateLimits.at
    && url !in b.techStack.at && url !in b.schemaDetected.at
  }

  /** The same of every URL: those with an answer are filed by it, others nowhere. */
  ghost predicate FiledByLast(b: Books, last: map<string, Answer>, schemaUrl: string -> bool) {
    forall u: string ::
      if u in last then Filed(b, schemaUrl, u, last[u].verb, last[u].response) else Unfiled(b, u)
  }

  /** The last answer with a status of each URL. */
  function LastOf(answers: seq<(string, Answer)>): map<string, Answer> {
    if answers == [] then map[]
    else
      var before, (url, answer) := LastOf(answers[..|answers| - 1]), answers[|answers| - 1];
      if answer.response.status == 0 then before else before[url := answer]
  }

  /** The answer is that of the URL, has a status, and none such comes after it. */
  ghost predicate Latest(answers: seq<(string, Answer)>, url: string, i: int) {
    && 0 <= i < |answers| && answers[i].0 == url && answers[i].1.response.status != 0
    && forall j | i < j < |answers| :: answers[j].0 == url ==> answers[j].1.response.status == 0
  }

  lemma {:induction false} LastOfIsLatest(answers: seq<(string, Answer)>, url: string)
    ensures url in LastOf(answers) <==> exists i :: Latest(answers, url, i)
    ensures forall i | Latest(answers, url, i) :: LastOf(answers)[url] == answers[i].1
  {
    if answers != [] {
      var n := |answers| - 1;
      var init, last := answers[..n], answers[n];
      LastOfIsLatest(init, url);
      if last.0 == url && last.1.response.status != 0 {
        assert Latest(answers, url, n);
      } else {
        forall i ensures Latest(answers, url, i) <==> Latest(init, url, i) {
          if Latest(init, url, i) { assert forall j | i < j < n :: init[j] == answers[j]; }
          if Latest(answers, url, i) { assert forall j | i < j < n :: init[j] == answers[j]; }
        }
      }
    }
  }

  lemma LimitPart(h: string)
    ensures "x-rate-limit" <= h || "ratelimit" <= h ==> HasPart(h, "rate")
  {
    if "x-rate-limit" <= h {
      assert forall i | 0 <= i < 4 :: h[2..][i] == "x-rate-limit"[2 + i];
      assert "rate" <= h[2..];
    } else if "ratelimit" <= h {
      assert forall i | 0 <= i < 4 :: h[0..][i] == "ratelimit"[i];
      assert "rate" <= h[0..];
    }
  }

  lemma DescribeKeeps(url: string, verb: string, r: Response)
    ensures Keeps(Describe(url, verb, r), url, verb, r) && Describe(url, verb, r).verb == verb
    ensures RateHeaders(r) != {} <==> AnnouncesLimit(r)
  {
    hide HasPart;
    if AnnouncesLimit(r) {
      var i :| 0 <= i < |r.headerNames| && ("x-rate-limit" <= r.headerNames[i] || "ratelimit" <= r.headerNames[i]);
      LimitPart(r.headerNames[i]);
      assert r.headerNames[i] in RateHeaders(r);
    }
  }

  lemma FiledByAnswer(b: Books, last: map<string, Answer>, schemaUrl: string -> bool, url: string)
    requires Indexed(b, last, schemaUrl)
    ensures if url in last then Filed(b, schemaUrl, url, last[url].verb, last[url].response) else Unfiled(b, url)
  {
    hide AllWellFormed, Keeps, InterestingAnswer, AnnouncesLimit, RateHeaders;
    if url in last {
      DescribeKeeps(url, last[url].verb, last[url].response);
      KeepsMeans(b.found.at[url], url, last[url].verb, last[url].response);
    }
  }

  lemma KeepsMeans(e: Endpoint, url: string, verb: string, r: Response)
    requires Keeps(e, url, verb, r)
    ensures e.techStack == r.techStack && (e.authRequired <==> r.status == 401 || r.status == 403)
    ensures (e.rateLimited <==> r.status == 429) && (e.interesting <==> InterestingAnswer(verb, r))
  {
    hide InterestingAnswer, AnnouncesLimit, HasPart;
  }

  /** After any responses every URL is filed by its last answer, and nothing else is filed. */
  lemma LastAnswersDecide(b: Books, last: map<string, Answer>, schemaUrl: string -> bool)
    requires Indexed(b, last, schemaUrl)
    ensures FiledByLast(b, last, schemaUrl)
  {
    hide Indexed, Filed, Unfiled;
    forall u: string
      ensures if u in last then Filed(b, schemaUrl, u, last[u].verb, last[u].response) else Unfiled(b, u)
    {
      FiledByAnswer(b, last, schemaUrl, u);
    }
  }

  class ApiIndexes {
    /** Whether a URL speaks of swagger, openapi or api-docs. */
    const schemaUrl: string -> bool
    var found: Dict<Endpoint>
    var interesting: Dict<Endpoint>
    var authRequired: Dict<Endpoint>
    var rateLimits: Dict<Endpoint>
    var techStack: Dict<seq<string>>
    var schemaDetected: Dict<string>
    /** The last answer of each URL. */
    ghost var last: map<string, Answer>

    constructor (schemaUrl: string -> bool)
      ensures this.schemaUrl == schemaUrl && Valid() && found.at == map[]
    {
      this.schemaUrl := schemaUrl;
      found, interesting, authRequired, rateLimits := Dict([], map[]), Dict([], map[]), Dict([], map[]),
          Dict([], map[]);
      techStack, schemaDetected := Dict([], map[]), Dict([], map[]);
      last := map[];
    }

    function View(): Books
      reads this
    {
      Books(found, interesting, authRequired, rateLimits, techStack, schemaDetected)
    }

    ghost predicate Valid()
      reads this
    {
      Indexed(View(), last, schemaUrl)
    }

    /** What the response says, field by field. */
    method DescribeResponse(url: string, verb: string, response: Response) returns (e: Endpoint)
      ensures e == Describe(url, verb, response)
    {
      hide HasPart;
      var status := response.status;
      var rateLimited := status == 429;
      var rateLimitHeaders: set<string> := {};
      if exists i | 0 <= i < |response.headerNames| ::
           "x-rate-limit" <= response.headerNames[i] || "ratelimit" <= response.headerNames[i] {
        rateLimitHeaders := set h | h in response.headerNames && (HasPart(h, "rate") || HasPart(h, "limit"));
      }
      var authRequired := status in {401, 403};
      var interesting := status in {200, 201, 202, 204} && (response.bodyLength > 0 || verb in {"GET", "POST"})
          && response.apiLike;
      e := Endpoint(url, status, verb, authRequired, rateLimited, rateLimitHeaders, interesting, response.techStack);
    }

    /** Replaces what was known of the URL, in every dictionary. */
    method Store(url: string, e: Endpoint, response: Response)
      modifies this
      ensures View() == After(old(View()), schemaUrl, url, e, response)
      ensures last == old(last)[url := Answer(e.verb, response)]
    {
      hide Update, Put;
      found := Put(found, url, e);
      interesting := Update(interesting, url, e, e.interesting);
      authRequired := Update(authRequired, url, e, e.authRequired);
      rateLimits := Update(rateLimits, url, e, e.rateLimited || e.rateLimitHeaders != {});
      techStack := Update(techStack, url, e.techStack, e.techStack != []);
      if schemaUrl(url) {
        schemaDetected := Update(schemaDetected, url, response.schema.GetOr(""), response.schema.Some?);
      }
      last := last[url := Answer(e.verb, response)];
    }

    /** A response without a status changes nothing; any other replaces what was known of
        its URL, in every index. */
    method ProcessResponse(url: string, verb: string, response: Response) returns (result: seq<Endpoint>)
      requires Valid()
      modifies this
      ensures Valid()
      ensures response.status == 0 ==> result == [] && found == old(found) && last == old(last)
      ensures response.status != 0 ==>
                && result == [Describe(url, verb, response)]
                && found.at == old(found.at)[url := Describe(url, verb, response)]
                && found.keys == (if url in old(found.at) then old(found.keys) else old(found.keys) + [url])
                && last == old(last)[url := Answer(verb, response)]
      ensures response.status != 0 ==> Filed(View(), schemaUrl, url, verb, response)
    {
      if response.status == 0 { return []; }
      hide Indexed, Describe, After, Filed;
      var e := DescribeResponse(url, verb, response);
      DescribeKeeps(url, verb, response);
      AfterIsIndexed(View(), last, schemaUrl, url, verb, response);
      AfterFound(View(), schemaUrl, url, e, response);
      Store(url, e, response);
      FiledByAnswer(View(), last, schemaUrl, url);
      return [e];
    }

    /** A whole scan: each URL ends up filed by its last answer that had a status. */
    method ProcessAll(answers: seq<(string, Answer)>)
      requires Valid() && last == map[]
      modifies this
      ensures Valid() && last == LastOf(answers)
      ensures FiledByLast(View(), LastOf(answers), schemaUrl)
    {
      for i := 0 to |answers|
        invariant Valid() && last == LastOf(answers[..i])
      {
        assert answers[..i + 1][..i] == answers[..i];
        var _ := ProcessResponse(answers[i].0, answers[i].1.verb, answers[i].1.response);
      }
      assert answers[..|answers|] == answers;
      LastAnswersDecide(View(), last, schemaUrl);
    }

    /** Orders every dictionary by the URL list.  When all found URLs are on the list,
        nothing is lost, the filters stay, and the order of the keys is decided by the list
        alone. */
    method OrderResults(urls: seq<string>) returns (results: seq<Endpoint>)
      requires Valid()
      modifies this
      ensures Valid() && last == Restricted(old(last), urls)
      ensures found.at == Restricted(old(found.at), urls)
      ensures (forall u | u in old(found.at) :: u in urls) ==> found.at == old(found.at) && last == old(last)
      ensures found.keys == Picked(Distinct(urls), found.at.Keys)
      ensures interesting.keys == Picked(found.keys, interesting.at.Keys)
      ensures authRequired.keys == Picked(found.keys, authRequired.at.Keys)
      ensures rateLimits.keys == Picked(found.keys, rateLimits.at.Keys)
      ensures techStack.keys == Picked(found.keys, techStack.at.Keys)
      ensures schemaDetected.keys == Picked(found.keys, schemaDetected.at.Keys)
      ensures |results| == |found.keys|
      ensures forall i | 0 <= i < |results| :: found.keys[i] in found.at && results[i] == found.at[found.keys[i]]
    {
      hide Indexed, Ordered, Picked, Distinct, Restricted, WellFormed, Values;
      ghost var before := View();
      OrderKeepsIndexes(before, last, schemaUrl, urls);
      OrderDecidesKeys(before, last, schemaUrl, urls);
      OrderedFacts(before, last, schemaUrl, urls);
      results := Values(Ordered(found, urls));
      found, interesting, authRequired, rateLimits, techStack, schemaDetected, last :=
        Ordered(found, urls), Ordered(interesting, urls), Ordered(authRequired, urls), Ordered(rateLimits, urls),
        Ordered(techStack, urls), Ordered(schemaDetected, urls), Restricted(last, urls);
      assert View() == OrderAll(before, urls);
    }
  }

  lemma PutAt<V>(d: Dict<V>, key: string, value: V)
    ensures Put(d, key, value).at == d.at[key := value]
    ensures Put(d, key, value).keys == if key in d.at then d.keys else d.keys + [key]
  {
  }

  /** Set the entry when it belongs in the index, remove it when it does not. */
  function Update<V>(index: Dict<V>, url: string, value: V, belongs: bool): Dict<V> {
    if belongs then Put(index, url, value) else Pop(index, url)
  }

  lemma UpdateKeeps<V>(index: Dict<V>, url: string, value: V, belongs: bool)
    requires WellFormed(index)
    ensures WellFormed(Update(index, url, value, belongs))
    ensures Update(index, url, value, belongs).at == if belongs then index.at[url := value] else index.at - {url}
  {
    if belongs { PutKeeps(index, url, value); } else { PopKeeps(index, url); }
  }

  /** The dictionaries after one response. */
  function After(b: Books, schemaUrl: string -> bool, url: string, e: Endpoint, r: Response): Books {
    Books(Put(b.found, url, e),
          Update(b.interesting, url, e, e.interesting),
          Update(b.authRequired, url, e, e.authRequired),
          Update(b.rateLimits, url, e, e.rateLimited || e.rateLimitHeaders != {}),
          Update(b.techStack, url, e.techStack, e.techStack != []),
          if schemaUrl(url) then Update(b.schemaDetected, url, r.schema.GetOr(""), r.schema.Some?)
              else b.schemaDetected)
  }

  lemma InterestingFollows(found: map<string, Endpoint>, url: string, e: Endpoint)
    ensures Interesting(found[url := e]) == if e.interesting then Interesting(found)[url := e]
              else Interesting(found) - {url}
  {
  }

  lemma AuthFollows(found: map<string, Endpoint>, url: string, e: Endpoint)
    ensures AuthRequired(found[url := e]) == if e.authRequired then AuthRequired(found)[url := e]
              else AuthRequired(found) - {url}
  {
  }

  lemma RateFollows(found: map<string, Endpoint>, url: string, e: Endpoint)
    ensures RateLimited(found[url := e]) ==
              if e.rateLimited || e.rateLimitHeaders != {} then RateLimited(found)[url := e]
                  else RateLimited(found) - {url}
  {
  }

  lemma TechFollows(found: map<string, Endpoint>, url: string, e: Endpoint)
    ensures TechStacks(found[url := e]) ==
              if e.techStack != [] then TechStacks(found)[url := e.techStack] else TechStacks(found) - {url}
  {
  }

  lemma SchemasFollow(
      last: map<string, Answer>, schemaUrl: string -> bool, url: string, verb: string, r: Response)
    ensures Schemas(last[url := Answer(verb, r)], schemaUrl) ==
              if schemaUrl(url) && r.schema.Some? then Schemas(last, schemaUrl)[url := r.schema.value]
              else if schemaUrl(url) then Schemas(last, schemaUrl) - {url}
              else Schemas(last, schemaUrl)
  {
  }

  lemma AfterWellFormed(b: Books, schemaUrl: string -> bool, url: string, e: Endpoint, r: Response)
    requires AllWellFormed(b)
    ensures AllWellFormed(After(b, schemaUrl, url, e, r))
  {
    PutKeeps(b.found, url, e);
    UpdateKeeps(b.interesting, url, e, e.interesting);
    UpdateKeeps(b.authRequired, url, e, e.authRequired);
    UpdateKeeps(b.rateLimits, url, e, e.rateLimited || e.rateLimitHeaders != {});
    UpdateKeeps(b.techStack, url, e.techStack, e.techStack != []);
    UpdateKeeps(b.schemaDetected, url, r.schema.GetOr(""), r.schema.Some?);
    hide WellFormed, Update, Put;
  }

  lemma UpdatedAt<V>(index: Dict<V>, url: string, value: V, belongs: bool)
    ensures Update(index, url, value, belongs).at == if belongs then index.at[url := value] else index.at - {url}
  {
  }

  lemma AfterFound(b: Books, schemaUrl: string -> bool, url: string, e: Endpoint, r: Response)
    ensures var found := After(b, schemaUrl, url, e, r).found;
            && found == Put(b.found, url, e) && found.at == b.found.at[url := e]
            && found.keys == if url in b.found.at then b.found.keys else b.found.keys + [url]
  {
    hide Update;
  }

  ghost predicate Described(found: map<string, Endpoint>, last: map<string, Answer>) {
    last.Keys == found.Keys && forall u | u in found :: found[u] == Describe(u, last[u].verb, last[u].response)
  }

  lemma DescribedFollows(found: map<string, Endpoint>, last: map<string, Answer>, url: string, verb: string,
      r: Response)
    requires Described(found, last)
    ensures Described(found[url := Describe(url, verb, r)], last[url := Answer(verb, r)])
  {
    hide Describe;
  }

  /** Each index follows the found endpoints it filters. */
  lemma IndexesFollow(
      b: Books, last: map<string, Answer>, schemaUrl: string -> bool, url: string, e: Endpoint, r: Response)
    requires Filtered(b, last, schemaUrl)
    ensures Filtered(After(b, schemaUrl, url, e, r), last[url := Answer(e.verb, r)], schemaUrl)
  {
    UpdatedAt(b.interesting, url, e, e.interesting);
    UpdatedAt(b.authRequired, url, e, e.authRequired);
    UpdatedAt(b.rateLimits, url, e, e.rateLimited || e.rateLimitHeaders != {});
    UpdatedAt(b.techStack, url, e.techStack, e.techStack != []);
    UpdatedAt(b.schemaDetected, url, r.schema.GetOr(""), r.schema.Some?);
    InterestingFollows(b.found.at, url, e);
    AuthFollows(b.found.at, url, e);
    RateFollows(b.found.at, url, e);
    TechFollows(b.found.at, url, e);
    SchemasFollow(last, schemaUrl, url, e.verb, r);
    PutAt(b.found, url, e);
    hide Interesting, AuthRequired, RateLimited, TechStacks, Schemas, Update, Put;
  }

  /** The indexes after one response are those of the found endpoints after it. */
  lemma AfterIsIndexed(
      b: Books, last: map<string, Answer>, schemaUrl: string -> bool, url: string, verb: string, r: Response)
    requires Indexed(b, last, schemaUrl)
    ensures Indexed(After(b, schemaUrl, url, Describe(url, verb, r), r), last[url := Answer(verb, r)], schemaUrl)
  {
    DescribeKeeps(url, verb, r);
    hide AllWellFormed, Described, Filtered, Describe, After;
    var e := Describe(url, verb, r);
    AfterWellFormed(b, schemaUrl, url, e, r);
    AfterFound(b, schemaUrl, url, e, r);
    DescribedFollows(b.found.at, last, url, verb, r);
    IndexesFollow(b, last, schemaUrl, url, e, r);
  }

  // ---- ordering ----

  function Restricted<V>(at: map<string, V>, urls: seq<string>): map<string, V> {
    map u | u in at && u in urls :: at[u]
  }

  function Picked(urls: seq<string>, keys: set<string>): seq<string> {
    if urls == [] then []
    else
      var before, last := Picked(urls[..|urls| - 1], keys), urls[|urls| - 1];
      if last in keys then before + [last] else before
  }

  /** {url: collection[url] for url in urls if url in collection}. */
  function Ordered<V>(d: Dict<V>, urls: seq<string>): Dict<V> {
    Dict(Picked(Distinct(urls), d.at.Keys), Restricted(d.at, urls))
  }

  function Values(d: Dict<Endpoint>): seq<Endpoint>
    requires WellFormed(d)
  {
    seq(|d.keys|, i requires 0 <= i < |d.keys| => assert d.keys[i] in d.keys; d.at[d.keys[i]])
  }

  lemma {:induction false} PickedKeeps(urls: seq<string>, keys: set<string>)
    requires NoDuplicates(urls)
    ensures NoDuplicates(Picked(urls, keys))
    ensures forall u :: u in Picked(urls, keys) <==> u in urls && u in keys
  {
    if urls != [] {
      PickedKeeps(urls[..|urls| - 1], keys);
      assert urls == urls[..|urls| - 1] + [urls[|urls| - 1]];
    }
  }

  /** The URLs picked are those with a key, each where it stood. */
  lemma {:induction false} PickedInOrder(urls: seq<string>, keys: set<string>) returns (at: seq<nat>)
    ensures |at| == |Picked(urls, keys)|
    ensures forall i | 0 <= i < |at| :: at[i] < |urls| && Picked(urls, keys)[i] == urls[at[i]]
    ensures forall i, j | 0 <= i < j < |at| :: at[i] < at[j]
    ensures forall k: nat | k < |urls| :: k in at <==> urls[k] in keys
  {
    at := [];
    if urls != [] {
      var n := |urls| - 1;
      at := PickedInOrder(urls[..n], keys);
      forall k: nat | k < n ensures k in at <==> urls[k] in keys { assert urls[..n][k] == urls[k]; }
      if urls[n] in keys { at := at + [n]; }
    }
  }

  lemma {:induction false} PickedSame(urls: seq<string>, a: set<string>, b: set<string>)
    requires forall u | u in urls :: u in a <==> u in b
    ensures Picked(urls, a) == Picked(urls, b)
  {
    if urls != [] {
      assert forall u | u in urls[..|urls| - 1] :: u in urls;
      PickedSame(urls[..|urls| - 1], a, b);
      assert urls[|urls| - 1] in urls;
    }
  }

  lemma OrderKeeps<V>(d: Dict<V>, urls: seq<string>)
    requires WellFormed(d)
    ensures WellFormed(Ordered(d, urls))
    ensures Ordered(d, urls).keys == Picked(Distinct(urls), Ordered(d, urls).at.Keys)
    ensures (forall u | u in d.at :: u in urls) ==> Ordered(d, urls).at == d.at
  {
    DistinctKeepsEachOnce(urls);
    PickedKeeps(Distinct(urls), d.at.Keys);
    hide Distinct, Picked;
    PickedSame(Distinct(urls), d.at.Keys, Ordered(d, urls).at.Keys);
  }

  lemma {:induction false} PickedAgain(urls: seq<string>, a: set<string>, b: set<string>)
    requires b <= a
    ensures Picked(Picked(urls, a), b) == Picked(urls, b)
  {
    if urls != [] {
      PickedAgain(urls[..|urls| - 1], a, b);
      var before, last := Picked(urls[..|urls| - 1], a), urls[|urls| - 1];
      if last in a { assert (before + [last])[..|before|] == before; }
    }
  }

  lemma PickTwice(urls: seq<string>, a: set<string>, b: set<string>)
    requires b <= a
    ensures Picked(Picked(Distinct(urls), a), b) == Picked(Distinct(urls), b)
  {
    PickedAgain(Distinct(urls), a, b);
  }

  function OrderAll(b: Books, urls: seq<string>): Books {
    Books(Ordered(b.found, urls), Ordered(b.interesting, urls), Ordered(b.authRequired, urls),
          Ordered(b.rateLimits, urls), Ordered(b.techStack, urls), Ordered(b.schemaDetected, urls))
  }

  lemma FiltersRestrict(found: map<string, Endpoint>, urls: seq<string>)
    ensures Interesting(Restricted(found, urls)) == Restricted(Interesting(found), urls)
    ensures AuthRequired(Restricted(found, urls)) == Restricted(AuthRequired(found), urls)
  {
  }

  lemma MoreFiltersRestrict(found: map<string, Endpoint>, urls: seq<string>)
    ensures RateLimited(Restricted(found, urls)) == Restricted(RateLimited(found), urls)
    ensures TechStacks(Restricted(found, urls)) == Restricted(TechStacks(found), urls)
  {
  }

  lemma SchemasRestrict(last: map<string, Answer>, schemaUrl: string -> bool, urls: seq<string>)
    ensures Schemas(Restricted(last, urls), schemaUrl) == Restricted(Schemas(last, schemaUrl), urls)
  {
  }

  lemma AllOrdered(b: Books, urls: seq<string>)
    requires AllWellFormed(b)
    ensures AllWellFormed(OrderAll(b, urls))
  {
    OrderKeeps(b.found, urls);
    OrderKeeps(b.interesting, urls);
    OrderKeeps(b.authRequired, urls);
    OrderKeeps(b.rateLimits, urls);
    OrderKeeps(b.techStack, urls);
    OrderKeeps(b.schemaDetected, urls);
    hide WellFormed, Ordered;
  }

  lemma OrderedAt<V>(d: Dict<V>, urls: seq<string>)
    ensures Ordered(d, urls).at == Restricted(d.at, urls)
  {
  }

  /** Ordering restricts every dictionary alike, so the indexes stay the filters they are. */
  lemma OrderKeepsIndexes(b: Books, last: map<string, Answer>, schemaUrl: string -> bool, urls: seq<string>)
    requires Indexed(b, last, schemaUrl)
    ensures Indexed(OrderAll(b, urls), Restricted(last, urls), schemaUrl)
  {
    AllOrdered(b, urls);
    FiltersRestrict(b.found.at, urls);
    MoreFiltersRestrict(b.found.at, urls);
    SchemasRestrict(last, schemaUrl, urls);
    OrderedAt(b.found, urls);
    OrderedAt(b.interesting, urls);
    OrderedAt(b.authRequired, urls);
    OrderedAt(b.rateLimits, urls);
    OrderedAt(b.techStack, urls);
    OrderedAt(b.schemaDetected, urls);
    hide AllWellFormed, Describe, Interesting, AuthRequired, RateLimited, TechStacks, Schemas, Ordered;
  }

  /** The keys of an index are those of the found endpoints that belong in it, in order. */
  lemma IndexKeys<V>(found: Dict<Endpoint>, index: Dict<V>, urls: seq<string>)
    requires WellFormed(found) && WellFormed(index) && index.at.Keys <= found.at.Keys
    ensures Ordered(index, urls).keys == Picked(Ordered(found, urls).keys, Ordered(index, urls).at.Keys)
  {
    OrderKeeps(index, urls);
    OrderKeeps(found, urls);
    hide Distinct, Picked;
    PickTwice(urls, Ordered(found, urls).at.Keys, Ordered(index, urls).at.Keys);
  }

  lemma IndexesWithin(b: Books, last: map<string, Answer>, schemaUrl: string -> bool)
    requires Indexed(b, last, schemaUrl)
    ensures AllWellFormed(b)
    ensures b.interesting.at.Keys <= b.found.at.Keys && b.authRequired.at.Keys <= b.found.at.Keys
    ensures b.rateLimits.at.Keys <= b.found.at.Keys && b.techStack.at.Keys <= b.found.at.Keys
    ensures b.schemaDetected.at.Keys <= b.found.at.Keys
  {
    hide AllWellFormed, Describe;
  }

  /** After ordering, the order of all keys is decided by the URL list alone. */
  lemma OrderDecidesKeys(b: Books, last: map<string, Answer>, schemaUrl: string -> bool, urls: seq<string>)
    requires Indexed(b, last, schemaUrl)
    ensures var a := OrderAll(b, urls);
            && a.found.keys == Picked(Distinct(urls), a.found.at.Keys)
            && a.interesting.keys == Picked(a.found.keys, a.interesting.at.Keys)
            && a.authRequired.keys == Picked(a.found.keys, a.authRequired.at.Keys)
            && a.rateLimits.keys == Picked(a.found.keys, a.rateLimits.at.Keys)
            && a.techStack.keys == Picked(a.found.keys, a.techStack.at.Keys)
            && a.schemaDetected.keys == Picked(a.found.keys, a.schemaDetected.at.Keys)
  {
    IndexesWithin(b, last, schemaUrl);
    hide Indexed, Ordered, Picked, Distinct, WellFormed;
    OrderKeeps(b.found, urls);
    IndexKeys(b.found, b.interesting, urls);
    IndexKeys(b.found, b.authRequired, urls);
    IndexKeys(b.found, b.rateLimits, urls);
    IndexKeys(b.found, b.techStack, urls);
    IndexKeys(b.found, b.schemaDetected, urls);
  }

  /** What the ordered found endpoints are, and that nothing on the list is lost. */
  lemma OrderedFacts(b: Books, last: map<string, Answer>, schemaUrl: string -> bool, urls: seq<string>)
    requires Indexed(b, last, schemaUrl)
    ensures var found := Ordered(b.found, urls);
            && WellFormed(found) && found.at == Restricted(b.found.at, urls)
            && |Values(found)| == |found.keys|
            && (forall i | 0 <= i < |found.keys| ::
                  found.keys[i] in found.at && Values(found)[i] == found.at[found.keys[i]])
            && ((forall u | u in b.found.at :: u in urls) ==> found.at == b.found.at && Restricted(last, urls) == last)
    ensures OrderAll(b, urls) ==
              Books(Ordered(b.found, urls), Ordered(b.interesting, urls), Ordered(b.authRequired, urls),
                    Ordered(b.rateLimits, urls), Ordered(b.techStack, urls), Ordered(b.schemaDetected, urls))
  {
    OrderKeeps(b.found, urls);
    var found := Ordered(b.found, urls);
    forall i | 0 <= i < |found.keys| ensures found.keys[i] in found.at { assert found.keys[i] in found.keys; }
    hide Picked, Distinct, Describe;
  }
}
