/** The reverse-DNS worker pool: workers pull distinct addresses from one shared iterator
    under a query limit.  A state is what the workers share between awaits; a step is
    what one worker, or the runtime limit, does between two of them. */
module ReverseDns {
  import opened Wrappers

  type Address = int

  // ----- the address order -----

  datatype Range = Malformed | Network(address: Address, prefix: nat)
  {
    predicate WellFormed() { Network? ==> 0 <= address < 0x1_0000_0000 && prefix <= 32 }
  }

  function Pow2(n: nat): (p: nat)
    ensures p > 0
  {
    if n == 0 then 1 else 2 * Pow2(n - 1)
  }

  /** Usable addresses of a network whose host bits are ignored: a /32 is its address, a
      /31 both of its addresses, anything larger loses its first and last address. */
  function Hosts(range: Range): seq<Address>
    requires range.WellFormed()
  {
    if range.Malformed? then []
    else
      var size := Pow2(32 - range.prefix);
      var base := range.address - range.address % size;
      if size <= 2 then seq(size, i => base + i) else seq(size - 2, i => base + 1 + i)
  }

  /** The usable addresses of a network, whatever host bits its own address has: those of its
      block, without the first and the last when the block is larger than a pair. */
  predicate Usable(range: Range, a: Address)
    requires range.WellFormed()
  {
    && range.Network?
    && var size := Pow2(32 - range.prefix);
       && a / size == range.address / size
       && (range.prefix <= 30 ==> a % size != 0 && a % size != size - 1)
  }

  lemma MulMonotone(x: int, y: int, size: int)
    requires x <= y && size > 0
    ensures x * size <= y * size
  {
    assert (y - x) * size >= 0;
  }

  lemma Divided(a: int, size: int)
    requires size > 0
    ensures a == a / size * size + a % size && 0 <= a % size < size
  {
  }

  /** Which quotient a number has is decided by the block it lies in. */
  lemma InBlock(a: int, size: int, q: int)
    requires size > 0
    ensures a / size == q <==> q * size <= a < q * size + size
  {
    Divided(a, size);
    if a / size < q { MulMonotone(a / size + 1, q, size); }
    if a / size > q { MulMonotone(q + 1, a / size, size); }
  }

  /** Blocks of one size: same quotient, same block. */
  lemma SameBlock(a: int, b: int, size: int)
    requires size > 0
    ensures a / size == b / size <==> b - b % size <= a < b - b % size + size
    ensures a / size == b / size ==> a % size == a - (b - b % size)
  {
    InBlock(a, size, b / size);
    Divided(a, size);
    Divided(b, size);
  }

  lemma {:induction false} Pow2Splits(n: nat, m: nat)
    ensures Pow2(n + m) == Pow2(n) * Pow2(m)
  {
    if n > 0 { Pow2Splits(n - 1, m); }
  }

  lemma Pow2Of32()
    ensures Pow2(32) == 0x1_0000_0000
  {
    assert Pow2(4) == 16;
    Pow2Splits(4, 4);
    Pow2Splits(8, 8);
    Pow2Splits(16, 16);
  }

  lemma Pow2Sizes(prefix: nat)
    requires prefix <= 32
    ensures Pow2(prefix) * Pow2(32 - prefix) == 0x1_0000_0000
    ensures prefix == 32 ==> Pow2(32 - prefix) == 1
    ensures prefix == 31 ==> Pow2(32 - prefix) == 2
    ensures prefix <= 30 ==> Pow2(32 - prefix) >= 4
  {
    Pow2Of32();
    Pow2Splits(prefix, 32 - prefix);
    assert prefix <= 30 ==> Pow2(32 - prefix) == 2 * Pow2(31 - prefix) && Pow2(31 - prefix) == 2 * Pow2(30 - prefix);
  }

  /** The last block below a multiple of its size lies below it too. */
  lemma BlockInside(a: int, size: int, blocks: int)
    requires size > 0 && 0 <= a < blocks * size
    ensures 0 <= a - a % size && a - a % size + size <= blocks * size
  {
    Divided(a, size);
    InBlock(a, size, a / size);
    if a / size >= blocks {
      MulMonotone(blocks, a / size, size);
    } else {
      MulMonotone(a / size + 1, blocks, size);
      if a / size < 0 { MulMonotone(a / size, -1, size); } else { MulMonotone(0, a / size, size); }
    }
  }

  /** A range lists exactly its usable addresses, in ascending order, all of 32 bits. */
  lemma HostsExact(range: Range)
    requires range.WellFormed()
    ensures forall a :: a in Hosts(range) <==> Usable(range, a)
    ensures forall i, j | 0 <= i < j < |Hosts(range)| :: Hosts(range)[i] < Hosts(range)[j]
    ensures forall a | a in Hosts(range) :: 0 <= a < 0x1_0000_0000
  {
    if range.Network? {
      var size := Pow2(32 - range.prefix);
      var base := range.address - range.address % size;
      Pow2Sizes(range.prefix);
      BlockInside(range.address, size, Pow2(range.prefix));
      forall a ensures a in Hosts(range) <==> Usable(range, a) {
        SameBlock(a, range.address, size);
        if Usable(range, a) {
          var i := if range.prefix <= 30 then a - base - 1 else a - base;
          assert Hosts(range)[i] == a;
        }
      }
    }
  }

  /** The order of all ranges holds exactly what is usable in one of them. */
  lemma {:induction false} AllHostsExact(ranges: seq<Range>)
    requires forall r | r in ranges :: r.WellFormed()
    ensures forall a :: a in AllHosts(ranges) <==> exists i | 0 <= i < |ranges| :: Usable(ranges[i], a)
  {
    hide Usable, Hosts;
    if ranges != [] {
      var n := |ranges| - 1;
      AllHostsExact(ranges[..n]);
      HostsExact(ranges[n]);
      forall a ensures a in AllHosts(ranges) <==> exists i | 0 <= i < |ranges| :: Usable(ranges[i], a) {
        if i :| 0 <= i < |ranges| && Usable(ranges[i], a) { assert i < n ==> ranges[..n][i] == ranges[i]; }
        if i :| 0 <= i < n && Usable(ranges[..n][i], a) { assert Usable(ranges[i], a); }
      }
    }
  }

  function AllHosts(ranges: seq<Range>): seq<Address>
    requires forall r | r in ranges :: r.WellFormed()
  {
    if ranges == [] then [] else AllHosts(ranges[..|ranges| - 1]) + Hosts(ranges[|ranges| - 1])
  }

  lemma DistinctStep(xs: seq<Address>, x: Address)
    ensures Distinct(xs + [x]) == if x in Distinct(xs) then Distinct(xs) else Distinct(xs) + [x]
  {
    assert (xs + [x])[..|xs|] == xs;
  }

  lemma DistinctAll(xs: seq<Address>, ys: seq<Address>, n: nat)
    requires n < |ys|
    ensures Distinct(xs + ys[..n + 1]) ==
              if ys[n] in Distinct(xs + ys[..n]) then Distinct(xs + ys[..n]) else Distinct(xs + ys[..n]) + [ys[n]]
  {
    assert xs + ys[..n + 1] == xs + ys[..n] + [ys[n]];
    DistinctStep(xs + ys[..n], ys[n]);
  }

  method YieldRange(hosts: seq<Address>, yielded: seq<Address>, seen: set<Address>, ghost before: seq<Address>)
    returns (order: seq<Address>, seenAfter: set<Address>)
    requires yielded == Distinct(before) && seen == set x | x in yielded
    ensures order == Distinct(before + hosts) && seenAfter == set x | x in order
  {
    order, seenAfter := yielded, seen;
    assert before + hosts[..0] == before;
    for j := 0 to |hosts|
      invariant order == Distinct(before + hosts[..j])
      invariant seenAfter == set x | x in order
    {
      DistinctAll(before, hosts, j);
      if hosts[j] !in seenAfter {
        seenAfter := seenAfter + {hosts[j]};
        order := order + [hosts[j]];
      }
    }
    assert hosts[..|hosts|] == hosts;
  }

  lemma AllHostsStep(ranges: seq<Range>, i: nat)
    requires i < |ranges| && forall r | r in ranges :: r.WellFormed()
    ensures forall r | r in ranges[..i] :: r.WellFormed()
    ensures AllHosts(ranges[..i + 1]) == AllHosts(ranges[..i]) + Hosts(ranges[i])
  {
    assert ranges[..i + 1][..i] == ranges[..i];
  }

  /** The shared generator: every usable address of every range, once. */
  method Addresses(ranges: seq<Range>) returns (order: seq<Address>)
    requires forall r | r in ranges :: r.WellFormed()
    ensures order == Distinct(AllHosts(ranges))
    ensures NoDuplicates(order)
    ensures forall a :: a in order <==> exists i | 0 <= i < |ranges| :: Usable(ranges[i], a)
  {
    hide Usable, Hosts;
    var seen: set<Address> := {};
    order := [];
    for i := 0 to |ranges|
      invariant order == Distinct(AllHosts(ranges[..i]))
      invariant seen == set x | x in order
    {
      AllHostsStep(ranges, i);
      order, seen := YieldRange(Hosts(ranges[i]), order, seen, AllHosts(ranges[..i]));
    }
    assert ranges[..|ranges|] == ranges;
    DistinctKeepsEachOnce(AllHosts(ranges));
    AllHostsExact(ranges);
  }

  // ----- the pool -----

  datatype Worker = Ready | Waiting(address: Address) | Stopped

  datatype StopReason = QueryLimit | RuntimeLimit

  datatype Pool = Pool(
    position: nat,                 // of the shared iterator
    requestCount: nat,
    completedCount: nat,
    capacityChecked: bool,
    stopReason: Option<StopReason>,
    aborted: bool,                 // a callback raised: the call itself raises
    workers: seq<Worker>,
    answered: seq<Address>)        // in completion order

  datatype Job = Job(order: seq<Address>, concurrency: nat, limit: Option<nat>)
  {
    predicate Accepted() { concurrency > 0 && (limit.Some? ==> limit.value > 0) }

    /** How many addresses may be sent. */
    function Quota(): nat {
      if limit.Some? && limit.value < |order| then limit.value else |order|
    }
  }

  /** The addresses taken before any worker exists, to size the pool. */
  function Prefetched(job: Job): seq<Address> {
    var wanted := if job.limit.Some?
        && job.limit.value + 1 < job.concurrency then job.limit.value + 1 else job.concurrency;
    if wanted < |job.order| then job.order[..wanted] else job.order
  }

  function WorkerCount(job: Job): nat {
    var available := |Prefetched(job)|;
    var bound := if available < job.concurrency then available else job.concurrency;
    if job.limit.Some? && job.limit.value < bound then job.limit.value else bound
  }

  function Start(job: Job): Pool {
    Pool(0, 0, 0, false, None, false, seq(WorkerCount(job), _ => Ready), [])
  }

  /** Chaining the prefetched addresses in front of the rest is the whole order again. */
  lemma PrefetchLosesNothing(job: Job)
    ensures Prefetched(job) + job.order[|Prefetched(job)|..] == job.order
    ensures job.Accepted() && job.order != [] ==> WorkerCount(job) >= 1
    ensures job.Accepted() ==>
              WorkerCount(job) == if job.Quota() < job.concurrency then job.Quota() else job.concurrency
  {}

  /** next_address(): the pool afterwards and the address handed out. */
  function Take(job: Job, p: Pool): (Pool, Option<Address>) {
    if job.limit.Some? && p.requestCount >= job.limit.value then
      if p.capacityChecked then (p, None)
      else if p.position < |job.order| then
        (p.(capacityChecked := true, position := p.position + 1, stopReason := Some(QueryLimit)), None)
      else (p.(capacityChecked := true), None)
    else if p.position >= |job.order| then (p, None)
    else (p.(position := p.position + 1, requestCount := p.requestCount + 1), Some(job.order[p.position]))
  }

  class ReverseRun {
    const job: Job
    var position: nat
    var requestCount: nat
    var completedCount: nat
    var capacityChecked: bool
    var stopReason: Option<StopReason>

    constructor (job: Job)
      ensures this.job == job && Matches(Start(job))
    {
      this.job := job;
      position, requestCount, completedCount := 0, 0, 0;
      capacityChecked, stopReason := false, None;
    }

    predicate Matches(p: Pool)
      reads this
    {
      && position == p.position && requestCount == p.requestCount && completedCount == p.completedCount
      && capacityChecked == p.capacityChecked && stopReason == p.stopReason
    }

    method NextAddress(ghost p: Pool) returns (address: Option<Address>)
      requires Matches(p)
      modifies this
      ensures address == Take(job, p).1 && Matches(Take(job, p).0)
    {
      if job.limit.Some? && requestCount >= job.limit.value {
        if !capacityChecked {
          capacityChecked := true;
          if position < |job.order| {
            position := position + 1;
            stopReason := Some(QueryLimit);
          }
        }
        return None;
      }
      if position >= |job.order| {
        return None;
      }
      address := Some(job.order[position]);
      position := position + 1;
      requestCount := requestCount + 1;
    }

    /** What a worker does when its query has come back: the pool stays sound, so no more
        completions are counted than addresses were issued. */
    method RecordCompletion(ghost p: Pool, ghost worker: nat, ghost p': Pool)
      requires Matches(p) && Invariant(job, p) && Step(job, p, Answer(worker), p')
      modifies this
      ensures Matches(p') && Invariant(job, p')
      ensures completedCount <= requestCount <= job.Quota()
    {
      AnswerKeeps(job, p, worker, p');
      completedCount := completedCount + 1;
    }
  }

  datatype Event = Pull(worker: nat) | Answer(worker: nat) | Deadline | CallbackRaised(worker: nat)

  function AllStopped(p: Pool): Pool {
    p.(workers := seq(|p.workers|, _ => Stopped))
  }

  ghost predicate Quiet(p: Pool) { forall i | 0 <= i < |p.workers| :: p.workers[i].Stopped? }

  ghost predicate Step(job: Job, p: Pool, e: Event, p': Pool) {
    match e
    case Pull(w) =>
      && w < |p.workers| && p.workers[w].Ready?
      && var (taken, address) := Take(job, p);
         p' == taken.(workers := p.workers[w := if address.Some? then Waiting(address.value) else Stopped])
    case Answer(w) =>
      && w < |p.workers| && p.workers[w].Waiting?
      && p' == p.(workers := p.workers[w := Ready], completedCount := p.completedCount + 1,
                  answered := p.answered + [p.workers[w].address])
    case Deadline => !Quiet(p) && p' == AllStopped(p).(stopReason := Some(RuntimeLimit))
    case CallbackRaised(w) =>
      && w < |p.workers| && p.workers[w].Waiting?
      && p' == AllStopped(p).(aborted := true)
  }

  ghost predicate Run(job: Job, states: seq<Pool>, events: seq<Event>) {
    && |states| == |events| + 1 && states[0] == Start(job)
    && forall i | 0 <= i < |events| :: Step(job, states[i], events[i], states[i + 1])
  }

  /** How many workers wait for address a, and how many wait at all. */
  function FlightsOf(workers: seq<Worker>, a: Address): nat {
    if workers == [] then 0
    else FlightsOf(workers[..|workers| - 1], a) + (if workers[|workers| - 1] == Waiting(a) then 1 else 0)
  }

  function InFlight(workers: seq<Worker>): nat {
    if workers == [] then 0
    else InFlight(workers[..|workers| - 1]) + (if workers[|workers| - 1].Waiting? then 1 else 0)
  }

  lemma {:induction false} FlightsUpdate(workers: seq<Worker>, i: nat, w: Worker, a: Address)
    requires i < |workers|
    ensures FlightsOf(workers[i := w], a) + (if workers[i] == Waiting(a) then 1 else 0)
         == FlightsOf(workers, a) + (if w == Waiting(a) then 1 else 0)
    ensures InFlight(workers[i := w]) + (if workers[i].Waiting? then 1 else 0)
         == InFlight(workers) + (if w.Waiting? then 1 else 0)
    decreases |workers|
  {
    var n := |workers| - 1;
    if i < n {
      FlightsUpdate(workers[..n], i, w, a);
      assert workers[i := w][..n] == workers[..n][i := w];
    } else {
      assert workers[i := w][..n] == workers[..n];
    }
  }

  lemma {:induction false} InFlightBound(workers: seq<Worker>)
    ensures InFlight(workers) <= |workers|
    ensures (forall i | 0 <= i < |workers| :: !workers[i].Waiting?) ==>
              InFlight(workers) == 0 && forall a :: FlightsOf(workers, a) == 0
  {
    if workers != [] {
      InFlightBound(workers[..|workers| - 1]);
    }
  }

  ghost predicate Interrupted(p: Pool) { p.aborted || p.stopReason == Some(RuntimeLimit) }

  function Issued(job: Job, p: Pool): seq<Address>
    requires p.requestCount <= |job.order|
  {
    job.order[..p.requestCount]
  }

  /** The iterator and the budget move together. */
  ghost predicate Cursor(job: Job, p: Pool) {
    && p.requestCount <= job.Quota()
    && (p.capacityChecked ==> job.limit.Some? && p.requestCount == job.limit.value)
    && p.position == p.requestCount + (if p.capacityChecked && job.limit.value < |job.order| then 1 else 0)
    && (!Interrupted(p) ==>
          (p.stopReason == Some(QueryLimit) <==> p.capacityChecked && job.limit.value < |job.order|))
  }

  /** A worker stops by itself only when there is nothing left it may send. */
  ghost predicate Spent(job: Job, p: Pool) {
    && p.requestCount == job.Quota()
    && (job.limit.Some? && p.requestCount == job.limit.value ==> p.capacityChecked)
  }

  ghost predicate Roster(job: Job, p: Pool) {
    && |p.workers| == WorkerCount(job)
    && (Interrupted(p) ==> Quiet(p))
    && (!Interrupted(p) ==> forall i | 0 <= i < |p.workers| && p.workers[i].Stopped? :: Spent(job, p))
  }

  /** Every address sent is answered once, in flight once, or lost to an interruption. */
  ghost predicate Flow(job: Job, p: Pool)
    requires p.requestCount <= |job.order|
  {
    && p.completedCount == |p.answered|
    && p.completedCount + InFlight(p.workers) <= p.requestCount
    && (!Interrupted(p) ==> p.completedCount + InFlight(p.workers) == p.requestCount)
    && (forall a :: multiset(p.answered)[a] + FlightsOf(p.workers, a) <= multiset(Issued(job, p))[a])
    && (!Interrupted(p) ==>
          forall a :: multiset(p.answered)[a] + FlightsOf(p.workers, a) == multiset(Issued(job, p))[a])
  }

  ghost predicate Invariant(job: Job, p: Pool) {
    Cursor(job, p) && Roster(job, p) && Flow(job, p)
  }

  lemma TakeKeepsCursor(job: Job, p: Pool)
    requires Cursor(job, p) && !Interrupted(p)
    ensures var (p', address) := Take(job, p);
            && Cursor(job, p') && !Interrupted(p')
            && (address.None? ==> Spent(job, p') && p'.requestCount == p.requestCount)
            && (address.Some? ==>
                  && p.requestCount < |job.order| && address.value == job.order[p.requestCount]
                  && p'.requestCount == p.requestCount + 1)
            && (Spent(job, p) ==> Spent(job, p'))
            && p'.workers == p.workers && p'.answered == p.answered && p'.completedCount == p.completedCount
  {}

  lemma PullMoves(job: Job, p: Pool, w: nat, p': Pool)
    requires Invariant(job, p) && Step(job, p, Pull(w), p') && p'.requestCount <= |job.order|
    requires !Interrupted(p) && !Interrupted(p')
    ensures w < |p.workers| == |p'.workers| && p'.workers == p.workers[w := p'.workers[w]] && !p.workers[w].Waiting?
    ensures p'.answered == p.answered && p'.completedCount == p.completedCount
    ensures if p'.requestCount == p.requestCount then !p'.workers[w].Waiting?
            else && p'.requestCount == p.requestCount + 1 && p.requestCount < |job.order|
                 && p'.workers[w] == Waiting(job.order[p.requestCount])
  {
    TakeKeepsCursor(job, p);
    hide FlightsOf, InFlight;
  }

  lemma PullKeepsFlow(job: Job, p: Pool, w: nat, p': Pool)
    requires Invariant(job, p) && Step(job, p, Pull(w), p') && p'.requestCount <= |job.order|
    requires !Interrupted(p) && !Interrupted(p')
    ensures Flow(job, p')
  {
    PullMoves(job, p, w, p');
    FlowOf(job, p);
    hide Step, Invariant, Interrupted, FlightsOf, InFlight;
    forall a
      ensures multiset(p'.answered)[a] + FlightsOf(p'.workers, a) == multiset(Issued(job, p'))[a]
      ensures p'.completedCount + InFlight(p'.workers) == p'.requestCount
    {
      FlightsUpdate(p.workers, w, p'.workers[w], a);
      if p'.requestCount > p.requestCount {
        assert Issued(job, p') == Issued(job, p) + [job.order[p.requestCount]];
      }
    }
  }

  lemma FlowOf(job: Job, p: Pool)
    requires Invariant(job, p)
    ensures p.requestCount <= |job.order| && Flow(job, p)
  {
  }

  lemma PullKeeps(job: Job, p: Pool, w: nat, p': Pool)
    requires Invariant(job, p) && Step(job, p, Pull(w), p')
    ensures Invariant(job, p')
  {
    assert !Interrupted(p) && !p.workers[w].Stopped?;
    TakeKeepsCursor(job, p);
    PullKeepsFlow(job, p, w, p');
  }

  lemma AnswerKeeps(job: Job, p: Pool, w: nat, p': Pool)
    requires Invariant(job, p) && Step(job, p, Answer(w), p')
    ensures Invariant(job, p')
  {
    assert !Interrupted(p) && !p.workers[w].Stopped?;
    assert Issued(job, p') == Issued(job, p);
    forall a
      ensures multiset(p'.answered)[a] + FlightsOf(p'.workers, a) == multiset(Issued(job, p'))[a]
      ensures p'.completedCount + InFlight(p'.workers) == p'.requestCount
    {
      FlightsUpdate(p.workers, w, Ready, a);
    }
  }

  lemma InterruptKeeps(job: Job, p: Pool, e: Event, p': Pool)
    requires Invariant(job, p) && Step(job, p, e, p') && (e.Deadline? || e.CallbackRaised?)
    ensures Invariant(job, p')
  {
    InFlightBound(p'.workers);
    assert Issued(job, p') == Issued(job, p);
  }

  /** In every interleaving the issued addresses are a prefix of the distinct order, each
      answered at most once, within the limit and with bounded work in flight. */
  lemma {:induction false} EveryStateIsSafe(job: Job, states: seq<Pool>, events: seq<Event>, k: nat)
    requires Run(job, states, events) && k < |states|
    ensures Invariant(job, states[k])
    ensures states[k].completedCount <= states[k].requestCount <= job.Quota()
    ensures InFlight(states[k].workers) <= WorkerCount(job) <= job.concurrency
  {
    if k == 0 {
      InFlightBound(states[0].workers);
    } else {
      EveryStateIsSafe(job, states, events, k - 1);
      var p, e, p' := states[k - 1], events[k - 1], states[k];
      assert Step(job, p, e, p');
      match e
      case Pull(w) => PullKeeps(job, p, w, p');
      case Answer(w) => AnswerKeeps(job, p, w, p');
      case _ => InterruptKeeps(job, p, e, p');
    }
    InFlightBound(states[k].workers);
  }

  lemma TwiceCounted<T>(xs: seq<T>, i: nat, j: nat)
    requires i < j < |xs| && xs[i] == xs[j]
    ensures multiset(xs)[xs[i]] >= 2
  {
    assert xs == xs[..i] + [xs[i]] + xs[i + 1..j] + [xs[j]] + xs[j + 1..];
  }

  lemma NoRepeatsCounts<T>(xs: seq<T>)
    requires forall x :: multiset(xs)[x] <= 1
    ensures NoDuplicates(xs)
  {
    forall i, j | 0 <= i < j < |xs| ensures xs[i] != xs[j] {
      if xs[i] == xs[j] { TwiceCounted(xs, i, j); }
    }
  }

  lemma {:induction false} CountsOfNoRepeats<T(!new)>(xs: seq<T>)
    requires NoDuplicates(xs)
    ensures forall x :: multiset(xs)[x] <= 1
  {
    if xs != [] {
      var rest := xs[1..];
      CountsOfNoRepeats(rest);
      assert xs == [xs[0]] + rest;
      assert xs[0] !in rest;
    }
  }

  /** No address is sent or answered twice, whatever the interleaving. */
  lemma NothingIsRepeated(ranges: seq<Range>, job: Job, states: seq<Pool>, events: seq<Event>, k: nat)
    requires forall r | r in ranges :: r.WellFormed()
    requires job.order == Distinct(AllHosts(ranges))
    requires Run(job, states, events) && k < |states|
    ensures states[k].requestCount <= |job.order|
    ensures NoDuplicates(Issued(job, states[k])) && NoDuplicates(states[k].answered)
    ensures forall x :: x in states[k].answered ==> x in Issued(job, states[k])
  {
    var p := states[k];
    EveryStateIsSafe(job, states, events, k);
    DistinctKeepsEachOnce(AllHosts(ranges));
    CountsOfNoRepeats(Issued(job, p));
    forall x ensures multiset(p.answered)[x] <= 1 {
      assert multiset(p.answered)[x] + FlightsOf(p.workers, x) <= multiset(Issued(job, p))[x] <= 1;
    }
    NoRepeatsCounts(p.answered);
    forall x | x in p.answered ensures x in Issued(job, p) {
      assert multiset(p.answered)[x] + FlightsOf(p.workers, x) <= multiset(Issued(job, p))[x];
      assert x in multiset(p.answered);
    }
  }

  /** Only usable addresses of the ranges are ever sent. */
  lemma OnlyUsableAreSent(ranges: seq<Range>, job: Job, states: seq<Pool>, events: seq<Event>, k: nat, n: nat)
    requires forall r | r in ranges :: r.WellFormed()
    requires job.order == Distinct(AllHosts(ranges))
    requires Run(job, states, events) && k < |states| && n < states[k].requestCount
    ensures n < |job.order| && exists i | 0 <= i < |ranges| :: Usable(ranges[i], job.order[n])
  {
    EveryStateIsSafe(job, states, events, k);
    hide Run, Invariant, Usable, AllHosts, Distinct;
    AllHostsExact(ranges);
    DistinctKeepsEachOnce(AllHosts(ranges));
    assert job.order[n] in job.order;
  }

  /** A run that ends by itself has answered exactly the first min(limit, N) addresses,
      and reports the query limit exactly when addresses were left over. */
  lemma CompleteRun(job: Job, states: seq<Pool>, events: seq<Event>)
    requires job.Accepted() && job.order != []
    requires Run(job, states, events)
    requires var last := states[|states| - 1]; Quiet(last) && !Interrupted(last)
    ensures var last := states[|states| - 1];
            && last.requestCount == last.completedCount == job.Quota()
            && multiset(last.answered) == multiset(job.order[..job.Quota()])
            && last.stopReason == (if job.limit.Some? && job.limit.value < |job.order| then Some(QueryLimit) else None)
  {
    var last := states[|states| - 1];
    EveryStateIsSafe(job, states, events, |states| - 1);
    PrefetchLosesNothing(job);
    assert last.workers[0].Stopped?;
    assert Spent(job, last);
    assert last.stopReason.Some? ==> last.stopReason.value.QueryLimit?;
    InFlightBound(last.workers);
    assert Issued(job, last) == job.order[..job.Quota()];
    forall a ensures multiset(last.answered)[a] == multiset(Issued(job, last))[a] {
      assert multiset(last.answered)[a] + FlightsOf(last.workers, a) == multiset(Issued(job, last))[a];
    }
  }

  // ----- every run ends -----

  function Weight(workers: seq<Worker>): nat {
    if workers == [] then 0
    else Weight(workers[..|workers| - 1]) + Load(workers[|workers| - 1])
  }

  function Load(w: Worker): nat {
    match w
    case Ready => 1
    case Waiting(_) => 2
    case Stopped => 0
  }

  lemma {:induction false} WeightUpdate(workers: seq<Worker>, i: nat, w: Worker)
    requires i < |workers|
    ensures Weight(workers[i := w]) + Load(workers[i]) == Weight(workers) + Load(w)
    decreases |workers|
  {
    var n := |workers| - 1;
    if i < n {
      WeightUpdate(workers[..n], i, w);
      assert workers[i := w][..n] == workers[..n][i := w];
    } else {
      assert workers[i := w][..n] == workers[..n];
    }
  }

  lemma {:induction false} WeightBounds(workers: seq<Worker>)
    ensures (forall i | 0 <= i < |workers| :: workers[i].Stopped?) <==> Weight(workers) == 0
    ensures (forall i | 0 <= i < |workers| :: workers[i].Ready?) ==> Weight(workers) == |workers|
  {
    if workers != [] { WeightBounds(workers[..|workers| - 1]); }
  }

  function Measure(job: Job, p: Pool): nat
    requires p.requestCount <= job.Quota()
  {
    2 * (job.Quota() - p.requestCount) + Weight(p.workers)
  }

  lemma StepDescends(job: Job, p: Pool, e: Event, p': Pool)
    requires Invariant(job, p) && Invariant(job, p') && Step(job, p, e, p')
    ensures Measure(job, p') < Measure(job, p)
  {
    match e
    case Pull(w) => WeightUpdate(p.workers, w, p'.workers[w]);
    case Answer(w) => WeightUpdate(p.workers, w, Ready);
    case _ =>
      WeightBounds(p.workers);
      WeightBounds(p'.workers);
  }

  /** Every interleaving is finite: at most two steps per address and one per worker. */
  lemma {:induction false} EveryRunEnds(job: Job, states: seq<Pool>, events: seq<Event>, k: nat)
    requires Run(job, states, events) && k < |states|
    ensures Invariant(job, states[k])
    ensures k + Measure(job, states[k]) <= 2 * job.Quota() + WorkerCount(job)
  {
    EveryStateIsSafe(job, states, events, k);
    if k == 0 {
      WeightBounds(states[0].workers);
    } else {
      EveryRunEnds(job, states, events, k - 1);
      StepDescends(job, states[k - 1], events[k - 1], states[k]);
    }
  }
}
