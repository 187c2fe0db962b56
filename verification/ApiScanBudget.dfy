/** The request budget of an API scan: workers that check endpoints share one request
    count and one stop reason.  A step is what happens between two awaits. */
module ApiScanBudget {
  import opened Wrappers

  const MAX_RETRIES: nat := 2
  const MAX_REDIRECTS: nat := 10
  const METHODS := ["GET", "HEAD", "OPTIONS"]

  // ---- one fetch, with its redirects ----

  datatype Target = Target(scheme: string, host: string)

  /** What one request comes back with: a redirect may lack a Location, and a body may be
      longer than the limit. */
  datatype Answer = Final | Oversized | Redirect(location: Option<Target>, oversized: bool)

  /** Every request after the first follows a redirect, on the target host, over HTTP or
      HTTPS, with a claim that succeeded. */
  ghost predicate OnTarget(
      asked: seq<Target>, targetHost: string, follow: bool, answer: nat -> Answer, granted: nat -> bool)
  {
    forall i: nat :: Followed(asked, i, targetHost, follow, answer, granted)
  }

  predicate LeadsTo(a: Answer, next: Target) { a.Redirect? && a.location == Some(next) }

  predicate Followed(
      asked: seq<Target>, i: nat, targetHost: string, follow: bool, answer: nat -> Answer, granted: nat -> bool)
  {
    i + 1 < |asked| ==>
      InScope(asked[i + 1], targetHost) && follow && LeadsTo(answer(i), asked[i + 1]) && granted(i)
  }

  predicate InScope(next: Target, targetHost: string) { next.scheme in {"http", "https"} && next.host == targetHost }

  lemma FollowOne(
      asked: seq<Target>, next: Target, targetHost: string, follow: bool, answer: nat -> Answer, granted: nat -> bool)
    requires asked != [] && OnTarget(asked, targetHost, follow, answer, granted) && InScope(next, targetHost) && follow
    requires LeadsTo(answer(|asked| - 1), next) && granted(|asked| - 1)
    ensures OnTarget(asked + [next], targetHost, follow, answer, granted)
  {
    var longer := asked + [next];
    forall i: nat ensures Followed(longer, i, targetHost, follow, answer, granted) {
      assert Followed(asked, i, targetHost, follow, answer, granted);
    }
  }

  /** The redirect loop.  answer(k) is what the request after k redirects comes back with
      and granted(k) whether the claim for one more then succeeds, which other workers can
      decide.  asked lists the requests sent.  It stops at the first answer it does not
      follow: no redirect, one that leaves the target, the last one allowed, or one whose
      claim fails.  An overlong answer raises unless it is a redirect that could be
      followed. */
  method FetchResponse(start: Target, targetHost: string, follow: bool, answer: nat -> Answer, granted: nat -> bool)
    returns (asked: seq<Target>, requestErrors: nat, raised: bool)
    ensures asked != [] && asked[0] == start && |asked| <= MAX_REDIRECTS + 1
    ensures OnTarget(asked, targetHost, follow, answer, granted)
    ensures match answer(|asked| - 1)
            case Redirect(Some(next), oversized) =>
              if !follow then requestErrors == 0 && raised == oversized
              else if !InScope(next, targetHost) || |asked| == MAX_REDIRECTS + 1 then requestErrors == 1 && !raised
              else requestErrors == 0 && !raised && !granted(|asked| - 1)
            case Redirect(None, oversized) => requestErrors == 0 && raised == oversized
            case Oversized => requestErrors == 0 && raised
            case Final => requestErrors == 0 && !raised
  {
    hide OnTarget;
    asked, requestErrors, raised := [], 0, false;
    var current := start;
    StartsOnTarget(start, targetHost, follow, answer, granted);
    for redirects := 0 to MAX_REDIRECTS + 1
      invariant redirects <= MAX_REDIRECTS && |asked| == redirects && requestErrors == 0 && !raised
      invariant (asked + [current])[0] == start && OnTarget(asked + [current], targetHost, follow, answer, granted)
    {
      asked := asked + [current];
      var response := answer(redirects);
      if response.Oversized? {
        raised := true;
        return;
      }
      if response.Final? { return; }
      if !follow {
        raised := response.oversized;
        return;
      }
      if response.location.None? {
        raised := response.oversized;
        return;
      }
      var next := response.location.value;
      if next.scheme !in {"http", "https"} || next.host != targetHost {
        requestErrors := requestErrors + 1;
        return;
      }
      if redirects == MAX_REDIRECTS {
        requestErrors := requestErrors + 1;
        return;
      }
      if !granted(redirects) { return; }
      FollowOne(asked, next, targetHost, follow, answer, granted);
      current := next;
    }
    // the loop cannot be exhausted
    assert false;
  }

  lemma StartsOnTarget(start: Target, targetHost: string, follow: bool, answer: nat -> Answer, granted: nat -> bool)
    ensures OnTarget([] + [start], targetHost, follow, answer, granted)
  {
  }

  // ---- all workers together ----

  /** Where the check of one URL stands. */
  datatype Job =
    | Ready(verb: nat, attempt: nat)
    | Waiting(verb: nat, attempt: nat, hop: nat)   // a request is out
    | Resting(verb: nat, attempt: nat)             // the delay before a retry
    | Finished

  datatype Reply =
    | Usable                   // a result is returned
    | Unusable                 // no response, an error, or no status: the next method
    | Limited(status: int)     // 429 or 503, of any length
    | Overlong                 // any other status, longer than the limit: a result is returned
    | OverlongBlank            // longer than the limit and without a status: the next method
    | Redirected(inScope: bool)

  datatype Stop = Running | RequestLimit | RuntimeLimit | RateLimited | RequestErrors

  datatype Event =
    | Begin(job: nat)
    | Receive(job: nat, reply: Reply)
    | Wake(job: nat)
    | Cancel(job: nat)

  datatype Scan = Scan(requestCount: nat, stop: Stop, refused: bool, jobs: seq<Job>, sent: seq<nat>)

  /** After schema detection, which claims and sends one request. */
  function Start(urls: nat): Scan {
    Scan(1, Running, false, seq(urls, i => Ready(0, 0)), seq(urls, i => 0))
  }

  predicate CanClaim(s: Scan, limit: Option<nat>) {
    limit.None? || s.requestCount < limit.value
  }

  predicate Halted(s: Scan) { s.stop in {RequestLimit, RuntimeLimit} }

  predicate Enabled(s: Scan, e: Event) {
    e.job < |s.jobs| &&
    match e
    case Begin(j) => s.jobs[j].Ready?
    case Receive(j, _) => s.jobs[j].Waiting?
    case Wake(j) => s.jobs[j].Resting?
    case Cancel(j) => !s.jobs[j].Finished?
  }

  function Move(s: Scan, j: nat, job: Job): Scan
    requires j < |s.jobs|
  {
    s.(jobs := s.jobs[j := job])
  }

  /** Claim a request and send it, or stop at the limit. */
  function Claim(s: Scan, limit: Option<nat>, j: nat, waiting: Job): Scan
    requires j < |s.jobs| == |s.sent|
  {
    if CanClaim(s, limit) then
      Move(s.(requestCount := s.requestCount + 1, sent := s.sent[j := s.sent[j] + 1]), j, waiting)
    else Move(s.(stop := RequestLimit, refused := true), j, Finished)
  }

  function Step(s: Scan, limit: Option<nat>, e: Event): Scan
    requires Enabled(s, e) && |s.jobs| == |s.sent|
  {
    match e
    case Begin(j) =>
      if Halted(s) then Move(s, j, Finished) else Claim(s, limit, j, Waiting(s.jobs[j].verb, s.jobs[j].attempt, 0))
    case Wake(j) => Move(s, j, Ready(s.jobs[j].verb, s.jobs[j].attempt + 1))
    case Cancel(j) => Move(s, j, Finished)
    case Receive(j, reply) =>
      var job := s.jobs[j];
      match reply
      case Usable => Move(s, j, Finished)
      case Unusable => Move(s, j, if job.verb + 1 < |METHODS| then Ready(job.verb + 1, 0) else Finished)
      case Overlong => Move(s.(stop := RequestErrors), j, Finished)
      case OverlongBlank =>
        Move(s.(stop := RequestErrors), j, if job.verb + 1 < |METHODS| then Ready(job.verb + 1, 0) else Finished)
      case Limited(status) =>
        if job.attempt < MAX_RETRIES then Move(s, j, if Halted(s) then Finished else Resting(job.verb, job.attempt))
        else if status == 429 then Move(s.(stop := if s.stop == Running then RateLimited else s.stop), j, Finished)
        else Move(s.(stop := RequestErrors), j, Finished)
      case Redirected(inScope) =>
        if !inScope || job.hop == MAX_REDIRECTS then Move(s.(stop := RequestErrors), j, Finished)
        else Claim(s, limit, j, job.(hop := job.hop + 1))
  }

  function Sum(xs: seq<nat>): nat {
    if xs == [] then 0 else Sum(xs[..|xs| - 1]) + xs[|xs| - 1]
  }

  lemma {:induction false} SumUpdated(xs: seq<nat>, j: nat, x: nat)
    requires j < |xs|
    ensures Sum(xs[j := x]) == Sum(xs) - xs[j] + x
  {
    var n := |xs| - 1;
    if j < n {
      SumUpdated(xs[..n], j, x);
      assert xs[j := x][..n] == xs[..n][j := x];
    } else {
      assert xs[j := x][..n] == xs[..n];
    }
  }

  lemma {:induction false} SumOfZeros(n: nat)
    ensures Sum(seq(n, i => 0)) == 0
  {
    if n > 0 {
      SumOfZeros(n - 1);
      var zeros: seq<nat> := seq(n, i => 0);
      assert zeros[..n - 1] == seq(n - 1, i => 0);
    }
  }

  /** The most requests the check of one URL can still send. */
  function Allowance(job: Job): int {
    match job
    case Ready(v, a) => (2 - v) * 33 + (3 - a) * 11
    case Waiting(v, a, h) => (2 - v) * 33 + (2 - a) * 11 + (10 - h)
    case Resting(v, a) => (2 - v) * 33 + (2 - a) * 11
    case Finished => 0
  }

  predicate InBounds(job: Job) {
    match job
    case Ready(v, a) => v <= 2 && a <= 2
    case Waiting(v, a, h) => v <= 2 && a <= 2 && h <= 10
    case Resting(v, a) => v <= 2 && a <= 1
    case Finished => true
  }

  const MOST_PER_URL: nat := |METHODS| * (MAX_RETRIES + 1) * (MAX_REDIRECTS + 1)

  predicate JobFits(job: Job, sent: nat) {
    InBounds(job) && sent + Allowance(job) <= MOST_PER_URL
  }

  /** The requests sent are the claims that succeeded, within the limit; one is refused only
      when the limit is reached. */
  predicate KeepsCount(s: Scan, limit: Option<nat>) {
    && s.requestCount == 1 + Sum(s.sent)
    && (limit.Some? ==> s.requestCount <= limit.value)
    && (s.refused ==> limit.Some? && s.requestCount == limit.value)
  }

  predicate Invariant(s: Scan, limit: Option<nat>) {
    && |s.jobs| == |s.sent| && KeepsCount(s, limit)
    && forall j | 0 <= j < |s.jobs| :: JobFits(s.jobs[j], s.sent[j])
  }

  function Run(urls: nat, limit: Option<nat>, events: seq<Event>): Scan
    requires Legal(urls, limit, events)
    ensures |Run(urls, limit, events).jobs| == |Run(urls, limit, events).sent| == urls
    decreases |events|, 1
  {
    if events == [] then Start(urls)
    else
      var before := Run(urls, limit, events[..|events| - 1]);
      Step(before, limit, events[|events| - 1])
  }

  predicate Legal(urls: nat, limit: Option<nat>, events: seq<Event>)
    decreases |events|, 0
  {
    events == [] ||
    (Legal(urls, limit, events[..|events| - 1])
        && Enabled(Run(urls, limit, events[..|events| - 1]), events[|events| - 1]))
  }

  /** A step changes one job and its requests, no other. */
  lemma StepFrame(s: Scan, limit: Option<nat>, e: Event)
    requires |s.jobs| == |s.sent| && Enabled(s, e)
    ensures var after := Step(s, limit, e);
            && |after.jobs| == |after.sent| == |s.jobs|
            && (forall j | 0 <= j < |s.jobs| && j != e.job :: after.jobs[j] == s.jobs[j] && after.sent[j] == s.sent[j])
  {
    hide CanClaim, Halted;
  }

  /** The step changes one job, and moves it as its allowance permits. */
  lemma StepKeepsJob(s: Scan, limit: Option<nat>, e: Event)
    requires |s.jobs| == |s.sent| && Enabled(s, e) && JobFits(s.jobs[e.job], s.sent[e.job])
    ensures var after := Step(s, limit, e);
            |after.jobs| == |after.sent| == |s.jobs| && JobFits(after.jobs[e.job], after.sent[e.job])
  {
    if e.Receive? {
      ReceiveKeepsJob(s, limit, e.job, e.reply);
    }
    hide CanClaim, Halted;
  }

  lemma ReceiveKeepsJob(s: Scan, limit: Option<nat>, j: nat, reply: Reply)
    requires |s.jobs| == |s.sent| && j < |s.jobs| && s.jobs[j].Waiting? && JobFits(s.jobs[j], s.sent[j])
    ensures var after := Step(s, limit, Receive(j, reply));
            |after.jobs| == |after.sent| == |s.jobs| && JobFits(after.jobs[j], after.sent[j])
  {
    hide CanClaim, Halted;
  }

  lemma StepKeepsCount(s: Scan, limit: Option<nat>, e: Event)
    requires |s.jobs| == |s.sent| && Enabled(s, e) && KeepsCount(s, limit)
    ensures KeepsCount(Step(s, limit, e), limit)
  {
    SumUpdated(s.sent, e.job, s.sent[e.job] + 1);
    hide Sum, Halted;
  }

  /** In every interleaving the requests sent are the successful claims and stay within
      the limit, and the check of one URL sends at most 3 * 3 * 11. */
  lemma {:induction false} EveryRunKeepsBudget(urls: nat, limit: Option<nat>, events: seq<Event>)
    requires Legal(urls, limit, events) && (limit.Some? ==> limit.value > 0)
    ensures Invariant(Run(urls, limit, events), limit)
  {
    if events == [] {
      SumOfZeros(urls);
    } else {
      var before := Run(urls, limit, events[..|events| - 1]);
      var e := events[|events| - 1];
      EveryRunKeepsBudget(urls, limit, events[..|events| - 1]);
      assert JobFits(before.jobs[e.job], before.sent[e.job]);
      StepKeepsJob(before, limit, e);
      StepFrame(before, limit, e);
      StepKeepsCount(before, limit, e);
      var after := Step(before, limit, e);
      hide Step, JobFits, Sum, Enabled;
      forall j | 0 <= j < |after.jobs| ensures JobFits(after.jobs[j], after.sent[j]) {
        if j != e.job { assert JobFits(before.jobs[j], before.sent[j]); }
      }
    }
  }

  lemma AllowanceIsPositive(job: Job)
    requires InBounds(job)
    ensures Allowance(job) >= 0
  {
  }

  /** No URL costs more than the product of methods, attempts and hops. */
  lemma EveryUrlIsBounded(urls: nat, limit: Option<nat>, events: seq<Event>, j: nat)
    requires Legal(urls, limit, events) && (limit.Some? ==> limit.value > 0) && j < urls
    ensures Run(urls, limit, events).sent[j] <= 99
  {
    hide *;
    EveryRunKeepsBudget(urls, limit, events);
    UrlIsBounded(Run(urls, limit, events), limit, j);
  }

  lemma UrlIsBounded(s: Scan, limit: Option<nat>, j: nat)
    requires Invariant(s, limit) && j < |s.sent|
    ensures s.sent[j] <= 99
  {
    hide Sum;
    assert JobFits(s.jobs[j], s.sent[j]);
    AllowanceIsPositive(s.jobs[j]);
  }

  /** Once a claim has failed, no step sends another request. */
  lemma RefusalIsFinal(s: Scan, limit: Option<nat>, e: Event)
    requires Invariant(s, limit) && Enabled(s, e) && s.refused
    ensures var after := Step(s, limit, e);
            after.refused && after.requestCount == s.requestCount && after.sent == s.sent
  {
    hide Sum, JobFits;
  }

  lemma {:induction false} NoClaimAfterRefusal(urls: nat, limit: Option<nat>, events: seq<Event>, later: seq<Event>)
    requires Legal(urls, limit, events) && Legal(urls, limit, events + later) && (limit.Some? ==> limit.value > 0)
    requires Run(urls, limit, events).refused
    ensures Run(urls, limit, events + later).refused
    ensures Run(urls, limit, events + later).sent == Run(urls, limit, events).sent
    decreases |later|
  {
    if later == [] {
      assert events + later == events;
    } else {
      var init := later[..|later| - 1];
      assert (events + later)[..|events + later| - 1] == events + init;
      NoClaimAfterRefusal(urls, limit, events, init);
      EveryRunKeepsBudget(urls, limit, events + init);
      RefusalIsFinal(Run(urls, limit, events + init), limit, later[|later| - 1]);
      hide Step, Enabled;
    }
  }

  // ---- every run ends ----

  /** The most steps the check of one URL can still take. */
  function StepsLeft(job: Job): int {
    match job
    case Ready(v, a) => (2 - v) * 39 + (2 - a) * 13 + 13
    case Waiting(v, a, h) => (2 - v) * 39 + (2 - a) * 13 + (12 - h)
    case Resting(v, a) => (2 - v) * 39 + (2 - a) * 13 + 1
    case Finished => 0
  }

  function TotalLeft(jobs: seq<Job>): int {
    if jobs == [] then 0 else TotalLeft(jobs[..|jobs| - 1]) + StepsLeft(jobs[|jobs| - 1])
  }

  lemma {:induction false} TotalUpdated(jobs: seq<Job>, j: nat, job: Job)
    requires j < |jobs|
    ensures TotalLeft(jobs[j := job]) == TotalLeft(jobs) - StepsLeft(jobs[j]) + StepsLeft(job)
  {
    var n := |jobs| - 1;
    if j < n {
      TotalUpdated(jobs[..n], j, job);
      assert jobs[j := job][..n] == jobs[..n][j := job];
    } else {
      assert jobs[j := job][..n] == jobs[..n];
    }
  }

  lemma {:induction false} TotalIsPositive(jobs: seq<Job>)
    requires forall j | 0 <= j < |jobs| :: InBounds(jobs[j])
    ensures TotalLeft(jobs) >= 0
  {
    if jobs != [] { TotalIsPositive(jobs[..|jobs| - 1]); }
  }

  lemma {:induction false} TotalAtStart(n: nat)
    ensures TotalLeft(seq(n, i => Ready(0, 0))) == 117 * n
  {
    if n > 0 {
      TotalAtStart(n - 1);
      var jobs := seq(n, i => Ready(0, 0));
      assert jobs[..n - 1] == seq(n - 1, i => Ready(0, 0));
    }
  }

  lemma JobDescends(s: Scan, limit: Option<nat>, e: Event)
    requires Invariant(s, limit) && Enabled(s, e)
    ensures var after := Step(s, limit, e);
            && e.job < |after.jobs| && after.jobs == s.jobs[e.job := after.jobs[e.job]]
            && StepsLeft(after.jobs[e.job]) < StepsLeft(s.jobs[e.job])
  {
    hide Sum;
    assert JobFits(s.jobs[e.job], s.sent[e.job]);
  }

  lemma StepDescends(s: Scan, limit: Option<nat>, e: Event)
    requires Invariant(s, limit) && Enabled(s, e)
    ensures TotalLeft(Step(s, limit, e).jobs) < TotalLeft(s.jobs)
  {
    hide Sum, TotalLeft;
    var after := Step(s, limit, e);
    JobDescends(s, limit, e);
    TotalUpdated(s.jobs, e.job, after.jobs[e.job]);
  }

  /** Whatever the target answers, a scan of n URLs ends within 117 n steps. */
  lemma {:induction false} EveryRunEnds(urls: nat, limit: Option<nat>, events: seq<Event>)
    requires Legal(urls, limit, events) && (limit.Some? ==> limit.value > 0)
    ensures |events| + TotalLeft(Run(urls, limit, events).jobs) <= 117 * urls
    ensures |events| <= 117 * urls
  {
    EveryRunKeepsBudget(urls, limit, events);
    if events == [] {
      TotalAtStart(urls);
      assert Start(urls).jobs == seq(urls, i => Ready(0, 0));
    } else {
      EveryRunKeepsBudget(urls, limit, events[..|events| - 1]);
      EveryRunEnds(urls, limit, events[..|events| - 1]);
      StepDescends(Run(urls, limit, events[..|events| - 1]), limit, events[|events| - 1]);
    }
    var s := Run(urls, limit, events);
    forall j | 0 <= j < |s.jobs| ensures InBounds(s.jobs[j]) { assert JobFits(s.jobs[j], s.sent[j]); }
    TotalIsPositive(s.jobs);
  }

  // ---- retries, and why a scan stopped ----

  /** A 429 or 503 is retried exactly while attempts are left and no limit has been hit;
      otherwise the check of its URL ends. */
  lemma LimitedIsRetriedIff(s: Scan, limit: Option<nat>, j: nat, status: int)
    requires |s.jobs| == |s.sent| && j < |s.jobs| && s.jobs[j].Waiting?
    ensures var rested := Step(s, limit, Receive(j, Limited(status)));
            && |rested.jobs| == |rested.sent| == |s.jobs| && rested.sent == s.sent
            && (rested.jobs[j].Resting? <==> s.jobs[j].attempt < MAX_RETRIES && !Halted(s))
            && (!rested.jobs[j].Resting? ==> rested.jobs[j].Finished?)
            && (rested.jobs[j].Resting? ==>
                  && rested.stop == s.stop
                  && Step(rested, limit, Wake(j)).jobs[j] == Ready(s.jobs[j].verb, s.jobs[j].attempt + 1))
  {
  }

  /** A 429 on the last attempt. */
  predicate GivesUp(s: Scan, e: Event) {
    Enabled(s, e) && e.Receive? && e.reply == Limited(429) && s.jobs[e.job].attempt >= MAX_RETRIES
  }

  /** A claim that the limit refuses. */
  predicate Refuses(s: Scan, limit: Option<nat>, e: Event) {
    && Enabled(s, e) && !CanClaim(s, limit)
    && match e
       case Begin(_) => !Halted(s)
       case Receive(j, Redirected(inScope)) => inScope && s.jobs[j].hop != MAX_REDIRECTS
       case _ => false
  }

  /** An overlong answer, a 503 on the last attempt, a redirect that leaves the target or
      goes too far. */
  predicate Spoils(s: Scan, e: Event) {
    && Enabled(s, e)
    && match e
       case Receive(j, Overlong) => true
       case Receive(j, OverlongBlank) => true
       case Receive(j, Limited(status)) => status != 429 && s.jobs[j].attempt >= MAX_RETRIES
       case Receive(j, Redirected(inScope)) => !inScope || s.jobs[j].hop == MAX_REDIRECTS
       case _ => false
  }

  lemma StopStep(s: Scan, limit: Option<nat>, e: Event)
    requires |s.jobs| == |s.sent| && Enabled(s, e)
    ensures Step(s, limit, e).stop ==
              if Refuses(s, limit, e) then RequestLimit
              else if Spoils(s, e) then RequestErrors
              else if GivesUp(s, e) && s.stop == Running then RateLimited
              else s.stop
    ensures !(Refuses(s, limit, e) && Spoils(s, e))
    ensures GivesUp(s, e) ==> !Refuses(s, limit, e) && !Spoils(s, e)
  {
    hide CanClaim, Halted;
  }

  ghost predicate GaveUpAt(urls: nat, limit: Option<nat>, events: seq<Event>, k: int) {
    0 <= k < |events| && Legal(urls, limit, events[..k]) && GivesUp(Run(urls, limit, events[..k]), events[k])
  }

  ghost predicate RefusedAt(urls: nat, limit: Option<nat>, events: seq<Event>, k: int) {
    0 <= k < |events| && Legal(urls, limit, events[..k]) && Refuses(Run(urls, limit, events[..k]), limit, events[k])
  }

  ghost predicate SpoiledAt(urls: nat, limit: Option<nat>, events: seq<Event>, k: int) {
    0 <= k < |events| && Legal(urls, limit, events[..k]) && Spoils(Run(urls, limit, events[..k]), events[k])
  }

  ghost predicate OverwrittenAt(urls: nat, limit: Option<nat>, events: seq<Event>, k: int) {
    RefusedAt(urls, limit, events, k) || SpoiledAt(urls, limit, events, k)
  }

  /** What happened before the last event happened in the run without it. */
  lemma SameBefore(urls: nat, limit: Option<nat>, events: seq<Event>, k: int)
    requires events != [] && k != |events| - 1
    ensures var init := events[..|events| - 1];
            && (GaveUpAt(urls, limit, events, k) <==> GaveUpAt(urls, limit, init, k))
            && (RefusedAt(urls, limit, events, k) <==> RefusedAt(urls, limit, init, k))
            && (SpoiledAt(urls, limit, events, k) <==> SpoiledAt(urls, limit, init, k))
  {
    hide Legal, Run, GivesUp, Refuses, Spoils;
    if 0 <= k < |events| - 1 { assert events[..|events| - 1][..k] == events[..k]; }
  }

  lemma HappensLast(urls: nat, limit: Option<nat>, events: seq<Event>)
    requires events != [] && Legal(urls, limit, events)
    ensures var n := |events| - 1;
            && Legal(urls, limit, events[..n]) && Enabled(Run(urls, limit, events[..n]), events[n])
            && Run(urls, limit, events) == Step(Run(urls, limit, events[..n]), limit, events[n])
            && (GaveUpAt(urls, limit, events, n) <==> GivesUp(Run(urls, limit, events[..n]), events[n]))
            && (RefusedAt(urls, limit, events, n) <==> Refuses(Run(urls, limit, events[..n]), limit, events[n]))
            && (SpoiledAt(urls, limit, events, n) <==> Spoils(Run(urls, limit, events[..n]), events[n]))
  {
    hide GivesUp, Refuses, Spoils, Step, Enabled;
  }

  /** A scan is still running exactly when none of these has happened; it stopped for rate
      limits exactly when the last attempt of some URL was answered 429 and nothing was
      refused or spoiled, before or after. */
  lemma {:induction false} StopReasonIs(urls: nat, limit: Option<nat>, events: seq<Event>)
    requires Legal(urls, limit, events)
    ensures var stop := Run(urls, limit, events).stop;
            var overwritten := exists k :: OverwrittenAt(urls, limit, events, k);
            var gaveUp := exists k :: GaveUpAt(urls, limit, events, k);
            && (stop == Running <==> !overwritten && !gaveUp)
            && (stop == RateLimited <==> gaveUp && !overwritten)
            && (stop in {RequestLimit, RequestErrors} <==> overwritten)
            && stop != RuntimeLimit
  {
    if events != [] {
      var n := |events| - 1;
      HappensLast(urls, limit, events);
      var init, before := events[..n], Run(urls, limit, events[..n]);
      StopReasonIs(urls, limit, init);
      StopStep(before, limit, events[n]);
      hide Legal, Run, Step, Enabled, GivesUp, Refuses, Spoils, GaveUpAt, RefusedAt, SpoiledAt;
      forall k: int | k != n
        ensures GaveUpAt(urls, limit, events, k) <==> GaveUpAt(urls, limit, init, k)
        ensures OverwrittenAt(urls, limit, events, k) <==> OverwrittenAt(urls, limit, init, k)
      {
        SameBefore(urls, limit, events, k);
      }
      NotYet(urls, limit, init);
      assert OverwrittenAt(urls, limit, events, n) <==>
               RefusedAt(urls, limit, events, n) || SpoiledAt(urls, limit, events, n);
    }
  }

  lemma NotYet(urls: nat, limit: Option<nat>, events: seq<Event>)
    ensures !GaveUpAt(urls, limit, events, |events|) && !OverwrittenAt(urls, limit, events, |events|)
  {
  }

  /** How often the method of this number was answered 429 or 503 at this URL. */
  function LimitedReplies(urls: nat, limit: Option<nat>, events: seq<Event>, j: nat, verb: nat): nat
    requires Legal(urls, limit, events) && j < urls
  {
    if events == [] then 0
    else
      var n := |events| - 1;
      var before := Run(urls, limit, events[..n]);
      LimitedReplies(urls, limit, events[..n], j, verb) + if LimitedNow(before, events[n], j, verb) then 1 else 0
  }

  predicate LimitedNow(s: Scan, e: Event, j: nat, verb: nat) {
    Enabled(s, e) && e.Receive? && e.job == j && e.reply.Limited? && s.jobs[j].verb == verb
  }

  /** The attempts a job counts are the limited replies its method has had. */
  predicate CountsAttempts(job: Job, replies: nat -> nat) {
    match job
    case Ready(v, a) => replies(v) == a <= MAX_RETRIES
    case Waiting(v, a, _) => replies(v) == a <= MAX_RETRIES
    case Resting(v, a) => replies(v) == a + 1 <= MAX_RETRIES
    case Finished => true
  }

  predicate Ahead(job: Job, verb: nat) { !job.Finished? && job.verb < verb }

  /** What a step does to its own job: the methods follow one another without a gap, each
      only after an answer that is of no use, until none is left; attempts and redirects
      count up one by one. */
  lemma StepMovesJob(s: Scan, limit: Option<nat>, e: Event)
    requires |s.jobs| == |s.sent| && Enabled(s, e)
    ensures |Step(s, limit, e).jobs| == |s.jobs|
    ensures var job, next := s.jobs[e.job], Step(s, limit, e).jobs[e.job];
            || next.Finished?
            || (next == Ready(job.verb + 1, 0) && e.Receive? && (e.reply.Unusable? || e.reply.OverlongBlank?))
            || (next.verb == job.verb
                && if e.Receive? && e.reply.Limited? then next == Resting(job.verb, job.attempt)
                                                          && job.attempt < MAX_RETRIES
                   else if e.Wake? then next == Ready(job.verb, job.attempt + 1)
                   else next.Waiting? && next.attempt == job.attempt
                        && next.hop == if e.Begin? then 0 else job.hop + 1)
    ensures e.Receive? && (e.reply.Unusable? || e.reply.OverlongBlank?) ==>
              (Step(s, limit, e).jobs[e.job].Finished? <==> s.jobs[e.job].verb + 1 >= |METHODS|)
  {
    hide CanClaim, Halted;
  }

  lemma StepCounts(s: Scan, limit: Option<nat>, e: Event, j: nat, was: nat -> nat, now: nat -> nat)
    requires |s.jobs| == |s.sent| && Enabled(s, e) && j < |s.jobs|
    requires CountsAttempts(s.jobs[j], was) && forall v: nat | Ahead(s.jobs[j], v) :: was(v) == 0
    requires forall v: nat :: now(v) == was(v) + if LimitedNow(s, e, j, v) then 1 else 0
    ensures |Step(s, limit, e).jobs| == |s.jobs|
    ensures var job := Step(s, limit, e).jobs[j];
            CountsAttempts(job, now) && forall v: nat | Ahead(job, v) :: now(v) == 0
  {
    StepMovesJob(s, limit, e);
    StepFrame(s, limit, e);
    hide Step;
  }

  /** A method is asked again only for a limited reply, and at most twice. */
  lemma {:induction false} AttemptsAreCounted(urls: nat, limit: Option<nat>, events: seq<Event>, j: nat)
    requires Legal(urls, limit, events) && j < urls
    ensures var job := Run(urls, limit, events).jobs[j];
            && CountsAttempts(job, v => LimitedReplies(urls, limit, events, j, v))
            && forall v: nat | Ahead(job, v) :: LimitedReplies(urls, limit, events, j, v) == 0
  {
    if events != [] {
      var n := |events| - 1;
      HappensLast(urls, limit, events);
      AttemptsAreCounted(urls, limit, events[..n], j);
      hide Step, Enabled, Legal, Run, Ahead;
      StepCounts(Run(urls, limit, events[..n]), limit, events[n], j,
                 v => LimitedReplies(urls, limit, events[..n], j, v), v => LimitedReplies(urls, limit, events, j, v));
    }
  }

  /** A scan gives up on a URL only after three limited replies to one method. */
  lemma GivesUpAfterThree(urls: nat, limit: Option<nat>, events: seq<Event>)
    requires events != [] && Legal(urls, limit, events)
    requires GivesUp(Run(urls, limit, events[..|events| - 1]), events[|events| - 1])
    ensures var before, j := Run(urls, limit, events[..|events| - 1]), events[|events| - 1].job;
            LimitedReplies(urls, limit, events, j, before.jobs[j].verb) == MAX_RETRIES + 1
  {
    HappensLast(urls, limit, events);
    AttemptsAreCounted(urls, limit, events[..|events| - 1], events[|events| - 1].job);
  }
}
