/** The takeover workers: they pull hostnames from one shared iterator and record one
    outcome per hostname.  A step is what happens between two awaits. */
module TakeoverWorkers {
  import opened TakeoverEvidence

  /** hosts are numbered in the order they are handed out. */
  datatype Pool = Pool(next: nat, active: set<nat>, recorded: seq<nat>, completed: nat,
                       indicators: nat, noIndicators: nat, inconclusive: nat, raised: bool)

  const START := Pool(0, {}, [], 0, 0, 0, 0, false)

  datatype Event =
    | Take                            // a worker asks the iterator for its next host
    | Finish(host: nat, status: Status)  // a scan records its outcome and ends
    | Drop(host: nat)                 // a scan raises, or is cancelled because one raised

  predicate Enabled(p: Pool, e: Event, hosts: nat, workers: nat) {
    match e
    case Take => p.next < hosts && |p.active| < workers
    case Finish(host, _) => host in p.active
    case Drop(host) => host in p.active
  }

  function Step(p: Pool, e: Event): Pool {
    match e
    case Take => p.(next := p.next + 1, active := p.active + {p.next})
    case Finish(host, status) =>
      p.(active := p.active - {host}, recorded := p.recorded + [host], completed := p.completed + 1,
         indicators := p.indicators + if status == Indicated then 1 else 0,
         noIndicators := p.noIndicators + if status == NoIndicator then 1 else 0,
         inconclusive := p.inconclusive + if status == Inconclusive then 1 else 0)
    case Drop(host) => p.(active := p.active - {host}, completed := p.completed + 1, raised := true)
  }

  function Run(events: seq<Event>): Pool {
    if events == [] then START else Step(Run(events[..|events| - 1]), events[|events| - 1])
  }

  predicate Legal(events: seq<Event>, hosts: nat, workers: nat) {
    events == [] ||
    (Legal(events[..|events| - 1], hosts, workers)
        && Enabled(Run(events[..|events| - 1]), events[|events| - 1], hosts, workers))
  }

  predicate Invariant(p: Pool, hosts: nat, workers: nat) {
    && p.next <= hosts && |p.active| <= workers
    && (forall h | h in p.active :: h < p.next && h !in p.recorded)
    && (forall h | h in p.recorded :: h < p.next)
    && (forall i, j | 0 <= i < j < |p.recorded| :: p.recorded[i] != p.recorded[j])
    && p.completed + |p.active| == p.next
    && p.indicators + p.noIndicators + p.inconclusive == |p.recorded| <= p.completed
    && (!p.raised ==> p.completed == |p.recorded| && forall h: nat | h < p.next :: h in p.active || h in p.recorded)
  }

  lemma StepKeeps(p: Pool, e: Event, hosts: nat, workers: nat)
    requires Invariant(p, hosts, workers) && Enabled(p, e, hosts, workers)
    ensures Invariant(Step(p, e), hosts, workers)
  {
    var q := Step(p, e);
    match e
    case Take =>
      assert p.next !in p.active && p.next !in p.recorded;
      assert q.active - {p.next} == p.active;
    case Finish(host, _) =>
      assert host !in p.recorded && q.active + {host} == p.active;
      assert forall h | h in q.recorded :: h in p.recorded || h == host;
      assert forall h | h in p.recorded :: h in q.recorded;
      assert q.recorded[|p.recorded|] == host;
    case Drop(host) =>
      assert q.active + {host} == p.active;
  }

  /** In every interleaving no host is recorded twice, the three counts add up to the
      recorded outcomes, and at most as many scans run as there are workers. */
  lemma {:induction false} EveryRunIsSafe(events: seq<Event>, hosts: nat, workers: nat)
    requires Legal(events, hosts, workers)
    ensures Invariant(Run(events), hosts, workers)
  {
    if events != [] {
      EveryRunIsSafe(events[..|events| - 1], hosts, workers);
      StepKeeps(Run(events[..|events| - 1]), events[|events| - 1], hosts, workers);
    }
  }

  /** A run that ends with the iterator exhausted, no scan under way and none raised has
      recorded every host exactly once, and the counts add up to the number of hosts. */
  lemma CompleteRunRecordsAll(events: seq<Event>, hosts: nat, workers: nat)
    requires Legal(events, hosts, workers)
    requires var p := Run(events); p.next == hosts && p.active == {} && !p.raised
    ensures var p := Run(events);
            && (forall h: nat :: h < hosts <==> h in p.recorded)
            && p.indicators + p.noIndicators + p.inconclusive == p.completed == |p.recorded| == hosts
  {
    EveryRunIsSafe(events, hosts, workers);
    hide Run, Legal;
  }
}
