/** The GitHub code search loop: paging, retries and cycle detection against a provider
    that may answer anything.  The provider is the list of its answers, one per request;
    a search that would ask for more is cut off and says so. */
module GithubPaging {
  import opened Wrappers

  const MAX_RETRIES := 3

  datatype Response =
    | Http(status: int, fragments: seq<string>, next: Option<int>, last: Option<int>)
    | StreamError(reason: string)
    | OtherError

  datatype Result =
    | Success(fragments: seq<string>, nextPage: int, lastPage: int)
    | Retry
    | Error(statusCode: int)

  datatype ReportStatus = Partial | Failed | RateLimited

  datatype Report = Report(status: ReportStatus, reason: string)

  function OrZero(page: Option<int>): int { if page.Some? then page.value else 0 }

  function HandleResponse(r: Response): Result
    requires r.Http?
  {
    if r.status == 200 then Success(r.fragments, OrZero(r.next), OrZero(r.last))
    else if r.status == 429 || r.status == 403 then Retry
    else Error(r.status)
  }

  /** Why a search that reports a failure stopped, told by its last answer. */
  function Reason(r: Response): string {
    match r
    case StreamError(reason) => reason
    case OtherError => "transport-error"
    case Http(status, _, _, _) =>
      if status == 200 then "repeated-page"
      else if status == 429 || status == 403 then "rate-limited"
      else if status == 401 then "access-denied"
      else "provider-error"
  }

  /** Everything the provider has sent in successful answers, in order. */
  function AllFragments(script: seq<Response>): seq<string> {
    if script == [] then []
    else
      var last := script[|script| - 1];
      AllFragments(script[..|script| - 1]) + if last.Http? && last.status == 200 then last.fragments else []
  }

  function UpTo(xs: seq<string>, limit: Option<nat>): seq<string> {
    if limit.Some? && limit.value < |xs| then xs[..limit.value] else xs
  }

  /** Equal pages are asked for in one block: a page that was left is never asked again. */
  ghost predicate NeverReturns(pages: seq<int>) {
    forall i, j, k | 0 <= i < j < k < |pages| && pages[i] == pages[k] :: pages[j] == pages[i]
  }

  function Pages(pages: seq<int>): set<int> { set p | p in pages }

  predicate Successful(r: Response) { r.Http? && r.status == 200 }

  /** An answer after which the same page is asked again, as long as retries are left. */
  predicate Retryable(r: Response) { r.OtherError? || (r.Http? && r.status in {403, 429}) }

  /** The page a successful answer names: that of its next link, else that of its last link. */
  function NamedPage(r: Response): int
    requires r.Http?
  {
    match r.next
    case Some(page) => if page == 0 then r.last.GetOr(0) else page
    case None => r.last.GetOr(0)
  }

  /** What a search remembers between answers. */
  datatype State = State(counter: nat, page: int, retryCount: nat, total: seq<string>)

  const IDLE := State(0, 1, 0, [])

  function Remaining(limit: Option<nat>, counter: nat): Option<nat>
    requires limit.Some? ==> counter <= limit.value
  {
    if limit.Some? then Some(limit.value - counter) else None
  }

  predicate Exhausted(limit: Option<nat>, counter: nat) { limit.Some? && counter == limit.value }

  /** Without a limit, a page whose content was seen before, in whatever order, is refused. */
  predicate Repeats(limit: Option<nat>, r: Response, seen: set<multiset<string>>)
    requires r.Http?
  {
    limit.None? && r.fragments != [] && multiset(r.fragments) in seen
  }

  /** What a successful answer does: it is refused for its content, or what is left of the
      limit is kept of it; then the search ends when nothing was kept or the limit is met,
      is refused when the page it names was asked before, and else goes on to that page. */
  ghost predicate Taken(
      limit: Option<nat>, response: Response, visited: set<int>, seen: set<multiset<string>>, s: State, s': State,
      stop: Option<Option<Report>>)
    requires Successful(response) && (limit.Some? ==> s.counter <= limit.value)
  {
    if Repeats(limit, response, seen) then s'.total == s.total && stop.Some? && stop.value.Some?
    else
      && s'.total == s.total + UpTo(response.fragments, Remaining(limit, s.counter))
      && s'.retryCount == 0
      && if s'.total == s.total || Exhausted(limit, s'.counter) then stop == Some(None)
         else if NamedPage(response) in visited then stop.Some? && stop.value.Some?
         else stop.None? && s'.page == NamedPage(response)
  }

  /** What any other answer does: nothing is kept, and the page is asked again exactly when
      the answer is worth a retry and one is left. */
  ghost predicate Refused(response: Response, s: State, s': State, stop: Option<Option<Report>>) {
    && s'.total == s.total
    && if Retryable(response) && s.retryCount < MAX_RETRIES
       then stop.None? && s'.page == s.page && s'.retryCount == s.retryCount + 1
       else stop.Some? && stop.value.Some?
  }

  /** What one answer does to the state, and whether it ends the search: Some(None) ends it
      without a report, Some(Some(report)) with one. */
  ghost predicate Consumed(
      limit: Option<nat>, response: Response, visited: set<int>, seen: set<multiset<string>>, s: State, s': State,
      stop: Option<Option<Report>>)
    requires limit.Some? ==> s.counter <= limit.value
  {
    && s'.counter == |s'.total| && (stop.Some? ==> s'.page == 0)
    && (if Successful(response) then Taken(limit, response, visited, seen, s, s', stop)
        else Refused(response, s, s', stop))
    && (stop.Some? && stop.value.Some? ==>
          && stop.value.value.reason == Reason(response)
          && stop.value.value.status ==
               (if s'.counter > 0 then Partial
                else if stop.value.value.reason == "rate-limited" && response.Http? then RateLimited
                else Failed))
  }

  /** The contents remembered after one more answer. */
  function Noted(limit: Option<nat>, r: Response, seen: set<multiset<string>>): set<multiset<string>> {
    if limit.None? && Successful(r) && r.fragments != [] then seen + {multiset(r.fragments)} else seen
  }

  class SearchGithubCode {
    const limit: Option<nat>
    var counter: nat
    var page: int
    var retryCount: nat
    var totalResults: seq<string>

    constructor (limit: Option<nat>)
      ensures this.limit == limit && Now() == IDLE
    {
      this.limit := limit;
      counter, page, retryCount, totalResults := 0, 1, 0, [];
    }

    function Now(): State
      reads this
    {
      State(counter, page, retryCount, totalResults)
    }

    function FailureReport(reason: string, emptyStatus: ReportStatus): Report
      reads this
    {
      Report(if counter > 0 then Partial else emptyStatus, reason)
    }

    /** Handles a successful answer. */
    method ConsumeSuccess(response: Response, visitedPages: set<int>, seenContent: set<multiset<string>>)
      returns (stop: Option<Option<Report>>, seen: set<multiset<string>>)
      requires counter == |totalResults| && Successful(response) && (limit.Some? ==> counter < limit.value)
      modifies this
      ensures Consumed(limit, response, visitedPages, seenContent, old(Now()), Now(), stop)
      ensures stop.None? ==> seen == Noted(limit, response, seenContent)
    {
      seen := seenContent;
      var Success(found, nextPage, lastPage) := HandleResponse(response);
      if limit.None? && found != [] {
        var content := multiset(found);
        if content in seen {
          page := 0;
          return Some(Some(FailureReport("repeated-page", Failed))), seen;
        }
        seen := seen + {content};
      }
      retryCount := 0;
      var fragments := UpTo(found, Remaining(limit, counter));
      if fragments == [] {
        page := 0;
        return Some(None), seen;
      }
      totalResults := totalResults + fragments;
      counter := counter + |fragments|;
      if limit.Some? && counter >= limit.value {
        page := 0;
        return Some(None), seen;
      }
      var nextOrLast := if nextPage != 0 then nextPage else lastPage;
      if nextOrLast in visitedPages {
        page := 0;
        return Some(Some(FailureReport("repeated-page", Failed))), seen;
      }
      page := nextOrLast;
      return None, seen;
    }

    /** Handles one answer; Some(stop) ends the search with stop as its report. */
    method ConsumeAnswer(response: Response, visitedPages: set<int>, seenContent: set<multiset<string>>)
      returns (stop: Option<Option<Report>>, seen: set<multiset<string>>)
      requires counter == |totalResults| && retryCount <= MAX_RETRIES && page in visitedPages
      requires limit.Some? ==> counter < limit.value
      modifies this
      ensures Consumed(limit, response, visitedPages, seenContent, old(Now()), Now(), stop)
      ensures stop.None? ==> seen == Noted(limit, response, seenContent)
    {
      seen := seenContent;
      match response
      case StreamError(reason) =>
        page := 0;
        return Some(Some(FailureReport(reason, Failed))), seen;
      case OtherError =>
        retryCount := retryCount + 1;
        if retryCount > MAX_RETRIES {
          page := 0;
          return Some(Some(FailureReport("transport-error", Failed))), seen;
        }
        return None, seen;
      case Http(_, _, _, _) =>
        match HandleResponse(response)
        case Error(code) =>
          page := 0;
          var reason := if code == 401 || code == 403 then "access-denied" else "provider-error";
          return Some(Some(FailureReport(reason, Failed))), seen;
        case Retry =>
          retryCount := retryCount + 1;
          if retryCount > MAX_RETRIES {
            page := 0;
            return Some(Some(FailureReport("rate-limited", RateLimited))), seen;
          }
          return None, seen;
        case Success(_, _, _) =>
          stop, seen := ConsumeSuccess(response, visitedPages, seenContent);
    }

    /** pages are those requested, one request per answer used; cutOff says that the
        search wanted another answer than the provider had. */
    method Process(script: seq<Response>) returns (report: Option<Report>, pages: seq<int>, cutOff: bool)
      requires Now() == IDLE
      modifies this
      ensures Ended(script, pages, limit, Now(), report, cutOff)
      ensures limit.Some? ==> |pages| <= (MAX_RETRIES + 1) * limit.value && counter <= limit.value
      ensures limit.Some? ==> totalResults == UpTo(AllFragments(script[..|pages|]), limit)
      ensures NeverReturns(pages) && |pages| <= (MAX_RETRIES + 1) * |Pages(pages)|
      ensures Chained(script, pages)
    {
      hide Paging, Consumed, AllFragments, NeverReturns, Pages, Reason, UpTo, Chained, WhyEnded, Contents, Noted;
      var visitedPages: set<int> := {};
      var seenContent: set<multiset<string>> := {};
      pages := [];
      AtStart(limit, script);
      while (limit.None? || counter < limit.value) && page != 0
        invariant |pages| <= |script| && Paging(script, pages, visitedPages, limit, Now())
        invariant seenContent == Contents(limit, script[..|pages|])
        decreases |script| - |pages|
      {
        if |pages| == |script| {
          EndsCutOff(script, pages, visitedPages, limit, Now());
          return None, pages, true;
        }
        PagingFacts(script, pages, visitedPages, limit, Now());
        ghost var earlier := visitedPages;
        visitedPages := visitedPages + {page};
        var response := script[|pages|];
        pages := pages + [page];
        ghost var before := Now();
        var stop;
        stop, seenContent := ConsumeAnswer(response, visitedPages, seenContent);
        assert pages[..|pages| - 1] + [before.page] == pages;
        if stop.Some? {
          StopsHere(script, pages, earlier, limit, before, Now(), stop);
          return stop.value, pages, false;
        }
        GoesOn(script, pages, earlier, limit, before, Now());
        OneMoreContent(limit, script, |pages| - 1);
      }
      EndsByItself(script, pages, visitedPages, limit, Now());
      return None, pages, false;
    }
  }

  /** The page asked after a page and its answer. */
  function Following(r: Response, page: int): int { if Successful(r) then NamedPage(r) else page }

  /** The first page is page 1, and each later one is the page that the answer before it
      named, or the same page again when that answer was not successful. */
  ghost predicate Chained(script: seq<Response>, pages: seq<int>) {
    && |pages| <= |script| && (pages != [] ==> pages[0] == 1)
    && forall i | 0 <= i < |pages| - 1 :: pages[i + 1] == Following(script[i], pages[i])
  }

  /** The page that comes after those asked. */
  function NextPage(script: seq<Response>, pages: seq<int>): int
    requires |pages| <= |script|
  {
    if pages == [] then 1 else Following(script[|pages| - 1], pages[|pages| - 1])
  }

  /** The contents of the successful answers, remembered only without a limit. */
  function Contents(limit: Option<nat>, script: seq<Response>): set<multiset<string>> {
    if script == [] then {} else Noted(limit, script[|script| - 1], Contents(limit, script[..|script| - 1]))
  }

  lemma OneMoreContent(limit: Option<nat>, script: seq<Response>, n: nat)
    requires n < |script|
    ensures Contents(limit, script[..n + 1]) == Noted(limit, script[n], Contents(limit, script[..n]))
  {
    assert script[..n + 1][..n] == script[..n];
  }

  /** The answers since the last success, as many as the retries counted. */
  ghost predicate Retried(script: seq<Response>, requests: nat, retryCount: nat) {
    && retryCount <= requests <= |script|
    && (forall i | requests - retryCount <= i < requests :: Retryable(script[i]))
    && (retryCount < requests ==> Successful(script[requests - retryCount - 1]))
  }

  /** What holds while a search goes on. */
  ghost predicate Paging(script: seq<Response>, pages: seq<int>, visited: set<int>, limit: Option<nat>, s: State) {
    && |pages| <= |script|
    && s.counter == |s.total| && s.total == AllFragments(script[..|pages|])
    && (limit.Some? ==> s.counter <= limit.value)
    && (limit.Some? && s.counter == limit.value ==> limit.value == 0)
    && visited == Pages(pages) && NeverReturns(pages) && 0 !in pages
    && WithinBudget(|pages|, limit, s.counter, s.retryCount)
    && WithinPages(|pages|, visited, s.page, s.retryCount)
    && (limit.Some? ==> |pages| <= (MAX_RETRIES + 1) * limit.value)
    && |pages| <= (MAX_RETRIES + 1) * |visited|
    && s.retryCount <= MAX_RETRIES && Retried(script, |pages|, s.retryCount)
    && Chained(script, pages) && s.page == NextPage(script, pages)
    && (s.page in visited ==> pages != [] && s.page == pages[|pages| - 1])
    && (pages != [] && Successful(script[|pages| - 1]) ==>
          !Repeats(limit, script[|pages| - 1], Contents(limit, script[..|pages| - 1])))
    && (s.page == 0 ==> pages != [] && EndsAt(script, pages, limit, s))
  }

  /** A page was left because its answer names none. */
  ghost predicate EndsAt(script: seq<Response>, pages: seq<int>, limit: Option<nat>, s: State)
    requires pages != [] && |pages| <= |script|
  {
    var last := script[|pages| - 1];
    Successful(last) && NamedPage(last) == 0 && last.fragments != [] && !Exhausted(limit, s.counter)
  }

  /** Why a search ended with or without a report: its last answer says so. */
  ghost predicate WhyEnded(
      script: seq<Response>, pages: seq<int>, limit: Option<nat>, s: State, report: Option<Report>, cutOff: bool)
    requires |pages| <= |script|
  {
    if cutOff then report.None? && |pages| == |script| && !Exhausted(limit, s.counter) && NextPage(script, pages) != 0
    else if pages == [] then report.None? && limit == Some(0)
    else
      var last := script[|pages| - 1];
      if !Successful(last) then
        && report.Some?
        && (Retryable(last) ==>
              |pages| > MAX_RETRIES && forall i | |pages| - MAX_RETRIES - 1 <= i < |pages| :: Retryable(script[i]))
      else if Repeats(limit, last, Contents(limit, script[..|pages| - 1])) then report.Some?
      else if last.fragments == [] || Exhausted(limit, s.counter) then report.None?
      else (report.Some? <==> NamedPage(last) in pages) && (report.None? ==> NamedPage(last) == 0)
  }

  /** What a search has kept: everything sent up to the limit, except a page that it refused
      for its content. */
  ghost predicate Kept(script: seq<Response>, pages: seq<int>, limit: Option<nat>, s: State)
    requires |pages| <= |script|
  {
    && s.counter == |s.total|
    && (limit.Some? ==> s.total == UpTo(AllFragments(script[..|pages|]), limit))
    && (limit.None? ==>
          s.total == if pages != [] && Successful(script[|pages| - 1])
                        && Repeats(limit, script[|pages| - 1], Contents(limit, script[..|pages| - 1]))
                     then AllFragments(script[..|pages| - 1]) else AllFragments(script[..|pages|]))
  }

  /** What holds when a search has ended. */
  ghost predicate Ended(
      script: seq<Response>, pages: seq<int>, limit: Option<nat>, s: State, report: Option<Report>, cutOff: bool)
  {
    && |pages| <= |script|
    && (limit.Some? ==> |pages| <= (MAX_RETRIES + 1) * limit.value && s.counter <= limit.value)
    && |pages| <= (MAX_RETRIES + 1) * |Pages(pages)|
    && NeverReturns(pages) && 0 !in pages && Chained(script, pages)
    && Kept(script, pages, limit, s) && WhyEnded(script, pages, limit, s, report, cutOff)
    && (report.Some? ==>
          && pages != []
          && report.value.reason == Reason(script[|pages| - 1])
          && report.value.status == (if s.counter > 0 then Partial
                                     else if report.value.reason == "rate-limited" && script[|pages| - 1].Http?
                                     then RateLimited else Failed))
  }

  lemma PagingFacts(script: seq<Response>, pages: seq<int>, visited: set<int>, limit: Option<nat>, s: State)
    requires Paging(script, pages, visited, limit, s)
    ensures s.counter == |s.total| && s.retryCount <= MAX_RETRIES && (limit.Some? ==> s.counter <= limit.value)
  {
    hide AllFragments, Pages, NeverReturns, Chained, EndsAt, Retried;
  }

  /** A search that ends between answers was cut off, or left by the loop's own condition. */
  lemma EndsCutOff(script: seq<Response>, pages: seq<int>, visited: set<int>, limit: Option<nat>, s: State)
    requires Paging(script, pages, visited, limit, s) && |pages| == |script|
    requires (limit.None? || s.counter < limit.value) && s.page != 0
    ensures Ended(script, pages, limit, s, None, true)
  {
    hide AllFragments, Pages, NeverReturns, WithinBudget, WithinPages, Chained, Retried, EndsAt, Contents, Repeats;
  }

  lemma EndsByItself(script: seq<Response>, pages: seq<int>, visited: set<int>, limit: Option<nat>, s: State)
    requires Paging(script, pages, visited, limit, s) && !((limit.None? || s.counter < limit.value) && s.page != 0)
    ensures Ended(script, pages, limit, s, None, false)
  {
    hide AllFragments, Pages, NeverReturns, WithinPages, Chained, Retried, Contents, Repeats;
  }
  /** The pages and the budget after one more request. */
  lemma AskedFacts(script: seq<Response>, pages: seq<int>, earlier: set<int>, limit: Option<nat>, s: State)
    requires pages != [] && |pages| <= |script| && pages[|pages| - 1] == s.page && s.page != 0
    requires Paging(script, pages[..|pages| - 1], earlier, limit, s) && (limit.Some? ==> s.counter < limit.value)
    ensures var visited, response := earlier + {s.page}, script[|pages| - 1];
            && visited == Pages(pages) && NeverReturns(pages) && 0 !in pages
            && AllFragments(script[..|pages|]) == s.total + (if Successful(response) then response.fragments else [])
            && s.total == AllFragments(script[..|pages| - 1])
            && |pages| <= (MAX_RETRIES + 1) * |visited|
            && (limit.Some? ==> |pages| <= (MAX_RETRIES + 1) * limit.value)
            && (s.retryCount < MAX_RETRIES ==>
                  && WithinPages(|pages|, visited, s.page, s.retryCount + 1)
                  && WithinBudget(|pages|, limit, s.counter, s.retryCount + 1))
            && (forall next | next !in visited :: WithinPages(|pages|, visited, next, 0))
            && (forall c: nat | c > s.counter
                && (limit.Some? ==> c <= limit.value) :: WithinBudget(|pages|, limit, c, 0))
  {
    hide AllFragments, Pages, NeverReturns, WithinPages, WithinBudget, Chained, Retried, EndsAt, Contents, Repeats;
    var before := pages[..|pages| - 1];
    assert pages == before + [s.page];
    Extends(before, s.page, script);
    NextWithinPages(|before|, earlier, s.page, s.retryCount, |pages|);
    NextWithinBudget(|before|, limit, s.counter, s.retryCount, |pages|);
  }

  /** One more page keeps the chain. */
  lemma ChainGrows(script: seq<Response>, pages: seq<int>, page: int)
    requires |pages| < |script| && Chained(script, pages) && page == NextPage(script, pages)
    ensures Chained(script, pages + [page])
    ensures NextPage(script, pages + [page]) == Following(script[|pages|], page)
  {
    hide Following;
  }

  lemma AskedChain(script: seq<Response>, pages: seq<int>, earlier: set<int>, limit: Option<nat>, s: State)
    requires pages != [] && |pages| <= |script| && pages[|pages| - 1] == s.page
    requires Paging(script, pages[..|pages| - 1], earlier, limit, s)
    ensures Chained(script, pages) && NextPage(script, pages) == Following(script[|pages| - 1], s.page)
    ensures s.counter == |s.total| && Retried(script, |pages| - 1, s.retryCount)
  {
    hide AllFragments, Pages, NeverReturns, WithinPages, WithinBudget, Chained, Retried, EndsAt, Contents, Repeats,
      NextPage;
    ChainGrows(script, pages[..|pages| - 1], s.page);
    assert pages[..|pages| - 1] + [s.page] == pages;
  }

  /** A success starts the count of retries afresh; another answer adds one. */
  lemma RetryGrows(script: seq<Response>, n: nat, retryCount: nat)
    requires n < |script| && Retried(script, n, retryCount)
    ensures Successful(script[n]) ==> Retried(script, n + 1, 0)
    ensures Retryable(script[n]) ==> Retried(script, n + 1, retryCount + 1)
  {
  }

  /** An answer from which something was kept that does not meet the limit was kept whole. */
  lemma KeptWhole(limit: Option<nat>, response: Response, s: State, s': State)
    requires response.Http? && s.counter == |s.total| && s'.counter == |s'.total|
    requires limit.Some? ==> s.counter < limit.value
    requires s'.total == s.total + UpTo(response.fragments, Remaining(limit, s.counter))
    requires !Exhausted(limit, s'.counter)
    ensures s'.total == s.total + response.fragments && (limit.Some? ==> s'.counter < limit.value)
  {
  }

  lemma GoesOn(
      script: seq<Response>, pages: seq<int>, earlier: set<int>, limit: Option<nat>, s: State, s': State)
    requires pages != [] && |pages| <= |script| && pages[|pages| - 1] == s.page && s.page != 0
    requires Paging(script, pages[..|pages| - 1], earlier, limit, s) && (limit.Some? ==> s.counter < limit.value)
    requires Consumed(limit, script[|pages| - 1], earlier + {s.page}, Contents(limit, script[..|pages| - 1]), s, s',
                      None)
    ensures Paging(script, pages, earlier + {s.page}, limit, s')
  {
    if Successful(script[|pages| - 1]) {
      SuccessGoesOn(script, pages, earlier, limit, s, s');
    } else {
      RetryGoesOn(script, pages, earlier, limit, s, s');
    }
  }

  lemma SuccessGoesOn(
      script: seq<Response>, pages: seq<int>, earlier: set<int>, limit: Option<nat>, s: State, s': State)
    requires pages != [] && |pages| <= |script| && pages[|pages| - 1] == s.page && s.page != 0
    requires Paging(script, pages[..|pages| - 1], earlier, limit, s) && (limit.Some? ==> s.counter < limit.value)
    requires Successful(script[|pages| - 1]) && s'.counter == |s'.total|
    requires Taken(limit, script[|pages| - 1], earlier + {s.page}, Contents(limit, script[..|pages| - 1]), s, s', None)
    ensures Paging(script, pages, earlier + {s.page}, limit, s')
  {
    hide Paging, AllFragments, Pages, NeverReturns, WithinPages, WithinBudget, UpTo, Chained, Retried, NextPage,
      Contents, Repeats, NamedPage, Retryable;
    AskedFacts(script, pages, earlier, limit, s);
    AskedChain(script, pages, earlier, limit, s);
    RetryGrows(script, |pages| - 1, s.retryCount);
    KeptWhole(limit, script[|pages| - 1], s, s');
    NothingKept(script[|pages| - 1].fragments, Remaining(limit, s.counter), s.total);
    PagingAgain(script, pages, earlier + {s.page}, limit, s');
  }

  lemma NothingKept(fragments: seq<string>, limit: Option<nat>, total: seq<string>)
    ensures fragments == [] ==> total + UpTo(fragments, limit) == total
  {
  }

  /** What has to be shown of a search that goes on. */
  lemma PagingAgain(script: seq<Response>, pages: seq<int>, visited: set<int>, limit: Option<nat>, s: State)
    requires pages != [] && |pages| <= |script| && s.counter == |s.total| && s.total == AllFragments(script[..|pages|])
    requires limit.Some? ==> s.counter < limit.value
    requires visited == Pages(pages) && NeverReturns(pages) && 0 !in pages
    requires WithinBudget(|pages|, limit, s.counter, s.retryCount)
    requires WithinPages(|pages|, visited, s.page, s.retryCount)
    requires limit.Some? ==> |pages| <= (MAX_RETRIES + 1) * limit.value
    requires |pages| <= (MAX_RETRIES + 1) * |visited|
    requires s.retryCount <= MAX_RETRIES && Retried(script, |pages|, s.retryCount)
    requires Chained(script, pages) && s.page == NextPage(script, pages)
    requires s.page in visited ==> s.page == pages[|pages| - 1]
    requires Successful(script[|pages| - 1]) ==>
               !Repeats(limit, script[|pages| - 1], Contents(limit, script[..|pages| - 1]))
    requires s.page == 0 ==> EndsAt(script, pages, limit, s)
    ensures Paging(script, pages, visited, limit, s)
  {
    hide AllFragments, Pages, NeverReturns, WithinPages, WithinBudget, Chained, Retried, NextPage, Contents, Repeats,
      EndsAt;
  }

  lemma RetryGoesOn(
      script: seq<Response>, pages: seq<int>, earlier: set<int>, limit: Option<nat>, s: State, s': State)
    requires pages != [] && |pages| <= |script| && pages[|pages| - 1] == s.page && s.page != 0
    requires Paging(script, pages[..|pages| - 1], earlier, limit, s) && (limit.Some? ==> s.counter < limit.value)
    requires !Successful(script[|pages| - 1]) && s'.counter == |s'.total|
    requires Refused(script[|pages| - 1], s, s', None)
    ensures Paging(script, pages, earlier + {s.page}, limit, s')
  {
    hide Paging, AllFragments, Pages, NeverReturns, WithinPages, WithinBudget, Chained, Retried, NextPage, Contents,
      Repeats, NamedPage, Retryable;
    AskedFacts(script, pages, earlier, limit, s);
    AskedChain(script, pages, earlier, limit, s);
    RetryGrows(script, |pages| - 1, s.retryCount);
    PagingAgain(script, pages, earlier + {s.page}, limit, s');
  }

  lemma StopsHere(
      script: seq<Response>, pages: seq<int>, earlier: set<int>, limit: Option<nat>, s: State, s': State,
      stop: Option<Option<Report>>)
    requires pages != [] && |pages| <= |script| && pages[|pages| - 1] == s.page && s.page != 0
    requires Paging(script, pages[..|pages| - 1], earlier, limit, s) && (limit.Some? ==> s.counter < limit.value)
    requires stop.Some?
    requires Consumed(limit, script[|pages| - 1], earlier + {s.page}, Contents(limit, script[..|pages| - 1]), s, s',
                      stop)
    ensures Ended(script, pages, limit, s', stop.value, false)
  {
    AskedFacts(script, pages, earlier, limit, s);
    AskedChain(script, pages, earlier, limit, s);
    StopsKept(script, pages, limit, s, s', stop);
    StopsWhy(script, pages, limit, s, s', stop);
    hide AllFragments, Pages, NeverReturns, WithinPages, WithinBudget, UpTo, Reason, Chained, Retried, NextPage,
      Contents, Repeats, NamedPage, Kept, WhyEnded, Taken, Refused;
  }

  lemma StopsKept(
      script: seq<Response>, pages: seq<int>, limit: Option<nat>, s: State, s': State, stop: Option<Option<Report>>)
    requires pages != [] && |pages| <= |script| && s.counter == |s.total| && (limit.Some? ==> s.counter < limit.value)
    requires s.total == AllFragments(script[..|pages| - 1])
    requires var response := script[|pages| - 1];
             AllFragments(script[..|pages|]) == s.total + (if Successful(response) then response.fragments else [])
    requires stop.Some?
    requires Consumed(limit, script[|pages| - 1], Pages(pages), Contents(limit, script[..|pages| - 1]), s, s', stop)
    ensures Kept(script, pages, limit, s') && (limit.Some? ==> s'.counter <= limit.value)
  {
    TakenSoFar(limit, script[|pages| - 1], s);
    hide AllFragments, Pages, Reason, Contents, NamedPage;
  }

  lemma StopsWhy(
      script: seq<Response>, pages: seq<int>, limit: Option<nat>, s: State, s': State, stop: Option<Option<Report>>)
    requires pages != [] && |pages| <= |script| && s.counter == |s.total| && (limit.Some? ==> s.counter < limit.value)
    requires Retried(script, |pages| - 1, s.retryCount) && s.retryCount <= MAX_RETRIES && stop.Some?
    requires Consumed(limit, script[|pages| - 1], Pages(pages), Contents(limit, script[..|pages| - 1]), s, s', stop)
    ensures WhyEnded(script, pages, limit, s', stop.value, false)
  {
    hide AllFragments, Reason, Contents, NamedPage, Repeats;
  }

  /** What is kept of an answer is what is kept of everything sent so far. */
  lemma TakenSoFar(limit: Option<nat>, response: Response, s: State)
    requires s.counter == |s.total| && (limit.Some? ==> s.counter <= limit.value)
    ensures response.Http? ==>
              var all := s.total + response.fragments;
              && s.total + UpTo(response.fragments, Remaining(limit, s.counter)) == UpTo(all, limit)
              && s.total <= all && UpTo(response.fragments, None) == response.fragments
    ensures UpTo(s.total, limit) == s.total
  {
    if response.Http? && limit.Some? && limit.value < |s.total + response.fragments| {
      assert (s.total + response.fragments)[..limit.value] == s.total + response.fragments[..limit.value - |s.total|];
    }
    if limit.Some? && limit.value == |s.total| { assert s.total[..limit.value] == s.total; }
  }

  /** The lexicographic measure (limit - counter, retries left) bounds the requests. */
  predicate WithinBudget(requests: nat, limit: Option<nat>, counter: nat, retryCount: nat) {
    && retryCount <= MAX_RETRIES
    && (limit.Some? && counter <= limit.value ==>
          requests + (MAX_RETRIES + 1) * (limit.value - counter) <= (MAX_RETRIES + 1) * limit.value + retryCount)
  }

  /** Each page costs at most one request and its retries. */
  predicate WithinPages(requests: nat, visited: set<int>, page: int, retryCount: nat) {
    && (page !in visited ==> retryCount == 0 && requests <= (MAX_RETRIES + 1) * |visited|)
    && (page in visited ==> requests + MAX_RETRIES + 1 <= (MAX_RETRIES + 1) * |visited| + retryCount)
  }

  lemma AtStart(limit: Option<nat>, script: seq<Response>)
    ensures Paging(script, [], {}, limit, IDLE) && Contents(limit, script[..0]) == {}
  {
    assert AllFragments(script[..0]) == [] && Pages([]) == {};
  }

  lemma NextWithinPages(requests: nat, visited: set<int>, page: int, retryCount: nat, after: nat)
    requires after == requests + 1
    requires retryCount <= MAX_RETRIES && WithinPages(requests, visited, page, retryCount)
    ensures after <= (MAX_RETRIES + 1) * |visited + {page}|
    ensures retryCount < MAX_RETRIES ==> WithinPages(after, visited + {page}, page, retryCount + 1)
    ensures forall next | next !in visited + {page} :: WithinPages(after, visited + {page}, next, 0)
  {
    if page in visited { assert visited + {page} == visited; }
  }

  lemma NextWithinBudget(requests: nat, limit: Option<nat>, counter: nat, retryCount: nat, after: nat)
    requires after == requests + 1
    requires WithinBudget(requests, limit, counter, retryCount)
    requires limit.Some? ==> counter < limit.value
    ensures limit.Some? ==> after <= (MAX_RETRIES + 1) * limit.value
    ensures retryCount < MAX_RETRIES ==> WithinBudget(after, limit, counter, retryCount + 1)
    ensures forall c: nat | c > counter && (limit.Some? ==> c <= limit.value) :: WithinBudget(after, limit, c, 0)
  {}

  /** Bookkeeping for one more request. */
  lemma Extends(pages: seq<int>, page: int, script: seq<Response>)
    requires |pages| < |script| && NeverReturns(pages) && 0 !in pages && page != 0
    requires page in Pages(pages) ==> pages != [] && page == pages[|pages| - 1]
    ensures NeverReturns(pages + [page]) && 0 !in pages + [page]
    ensures Pages(pages + [page]) == Pages(pages) + {page}
    ensures AllFragments(script[..|pages| + 1]) == AllFragments(script[..|pages|])
              + (if script[|pages|].Http? && script[|pages|].status == 200 then script[|pages|].fragments else [])
  {
    assert script[..|pages| + 1][..|pages|] == script[..|pages|];
    forall i, j, k | 0 <= i < j < k < |pages + [page]| && (pages + [page])[i] == (pages + [page])[k]
      ensures (pages + [page])[j] == (pages + [page])[i]
    {
      if k == |pages| && j < |pages| - 1 {
        assert pages[i] == pages[|pages| - 1];
      }
    }
  }

  // ---- a provider that links its pages ----

  /** The provider answers page after page, each with something and each naming the next,
      the last of n naming none. */
  ghost predicate Linked(script: seq<Response>, n: nat) {
    && 0 < n <= |script|
    && forall i | 0 <= i < n ::
         Successful(script[i]) && script[i].fragments != [] && NamedPage(script[i]) == if i < n - 1 then i + 2 else 0
  }

  /** No two of its pages have the same content. */
  ghost predicate ContentsDiffer(script: seq<Response>, n: nat)
    requires Linked(script, n)
  {
    forall i, j | 0 <= i < j < n :: multiset(script[i].fragments) != multiset(script[j].fragments)
  }

  lemma {:induction false} LinkedPages(script: seq<Response>, pages: seq<int>, n: nat, i: nat)
    requires Linked(script, n) && Chained(script, pages) && 0 !in pages && i < |pages|
    ensures i < n && pages[i] == i + 1
  {
    if i > 0 {
      LinkedPages(script, pages, n, i - 1);
      assert pages[i - 1 + 1] == Following(script[i - 1], pages[i - 1]);
      assert pages[i] in pages;
    }
  }

  lemma {:induction false} ContentsAre(limit: Option<nat>, script: seq<Response>, n: nat, c: multiset<string>)
    requires n <= |script| && c in Contents(limit, script[..n])
    ensures exists i | 0 <= i < n :: Successful(script[i]) && multiset(script[i].fragments) == c
  {
    OneMoreContent(limit, script, n - 1);
    if c in Contents(limit, script[..n - 1]) {
      ContentsAre(limit, script, n - 1, c);
      var i :| 0 <= i < n - 1 && Successful(script[i]) && multiset(script[i].fragments) == c;
    }
  }

  lemma {:induction false} FragmentsGrow(script: seq<Response>, m: nat, n: nat)
    requires m <= n <= |script|
    ensures AllFragments(script[..m]) <= AllFragments(script[..n])
    ensures m < n && Successful(script[m]) && script[m].fragments != [] ==>
              |AllFragments(script[..m])| < |AllFragments(script[..n])|
  {
    if m < n {
      FragmentsGrow(script, m, n - 1);
      assert script[..n][..n - 1] == script[..n - 1];
    }
  }

  lemma NeverRefused(limit: Option<nat>, script: seq<Response>, n: nat, m: nat)
    requires Linked(script, n) && 0 < m <= n && (limit.None? ==> ContentsDiffer(script, n))
    ensures !Repeats(limit, script[m - 1], Contents(limit, script[..m - 1]))
  {
    hide Contents;
    if Repeats(limit, script[m - 1], Contents(limit, script[..m - 1])) {
      ContentsAre(limit, script, m - 1, multiset(script[m - 1].fragments));
    }
  }

  /** A search of such a provider that may take everything asks for pages 1 to n, in order,
      keeps every fragment, and reports no failure. */
  lemma LinkedPagesAreAllRead(
      script: seq<Response>, n: nat, pages: seq<int>, limit: Option<nat>, s: State, report: Option<Report>,
      cutOff: bool)
    requires Ended(script, pages, limit, s, report, cutOff) && Linked(script, n)
    requires if limit.Some? then |AllFragments(script[..n])| <= limit.value else ContentsDiffer(script, n)
    ensures pages == seq(n, i => i + 1) && report.None? && !cutOff
    ensures s.total == AllFragments(script[..n])
  {
    hide Chained, AllFragments, Pages, NeverReturns, Contents, Reason, Repeats, ContentsDiffer;
    forall i: nat | i < |pages| ensures i < n && pages[i] == i + 1 { LinkedPages(script, pages, n, i); }
    var m := |pages|;
    if m > 0 {
      LinkedPages(script, pages, n, m - 1);
      NeverRefused(limit, script, n, m);
    }
    if m < n { LinkedGoesOn(script, n, pages, limit, s, report, cutOff); }
    TakenSoFar(limit, script[0], State(|AllFragments(script[..n])|, 0, 0, AllFragments(script[..n])));
  }

  lemma LinkedGoesOn(
      script: seq<Response>, n: nat, pages: seq<int>, limit: Option<nat>, s: State, report: Option<Report>,
      cutOff: bool)
    requires Ended(script, pages, limit, s, report, cutOff) && Linked(script, n)
    requires forall i | 0 <= i < |pages| :: pages[i] == i + 1
    requires limit.Some? ==> |AllFragments(script[..n])| <= limit.value
    requires pages != [] && |pages| <= n ==>
               !Repeats(limit, script[|pages| - 1], Contents(limit, script[..|pages| - 1]))
    ensures |pages| >= n
  {
    hide Chained, AllFragments, Pages, NeverReturns, Contents, Reason, Repeats;
    if |pages| < n {
      FragmentsGrow(script, |pages|, n);
    }
  }
}
