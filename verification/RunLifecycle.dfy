/** Run records shared by operators and workers.  Each SQL statement is one atomic step;
    cancel is three of them (two conditional updates and a read), and the steps of any
    number of callers interleave. */
module RunLifecycle {
  import opened Wrappers

  /** The durable lifecycle states; the store writes them as text. */
  datatype Status = Queued | Running | Cancelling | Cancelled | Completed | Failed

  datatype RunRecord = RunRecord(
    status: Status,
    createdAt: int,
    startedAt: Option<int>,
    completedAt: Option<int>,
    evidenceRunId: Option<string>,
    evidenceStatus: Option<string>,
    cancellationRequestedAt: Option<int>,
    error: Option<string>,
    log: string)

  type Records = map<string, RunRecord>

  datatype Report = Report(evidenceRunId: Option<string>, evidenceStatus: Option<string>, log: string)

  datatype Event =
    | Create(id: string, createdAt: int)
    | CancelQueued(id: string, at: int)
    | CancelRunning(id: string, at: int)
    | ClaimNext(at: int, claimed: Option<string>)
    | Finish(id: string, at: int, report: Report)
    | Fail(id: string, at: int, status: Status, error: string, report: Report)

  /** SQL coalesce(new, old). */
  function Coalesce<T>(value: Option<T>, old_: Option<T>): Option<T> {
    if value.Some? then value else old_
  }

  predicate HasStatus(records: Records, id: string, status: Status) {
    id in records && records[id].status == status
  }

  /** A queued run none of the queued runs is older than. */
  predicate OldestQueued(records: Records, id: string) {
    && HasStatus(records, id, Queued)
    && forall other | other in records && records[other].status == Queued ::
         records[id].createdAt <= records[other].createdAt
  }

  function Fresh(createdAt: int): RunRecord {
    RunRecord(Queued, createdAt, None, None, None, None, None, None, "")
  }

  function Finished(r: RunRecord, at: int, report: Report): RunRecord {
    r.(status := if r.status.Cancelling? then Cancelled else Completed,
       completedAt := Some(at),
       evidenceRunId := Coalesce(report.evidenceRunId, r.evidenceRunId),
       evidenceStatus := Coalesce(report.evidenceStatus, r.evidenceStatus),
       log := report.log)
  }

  function FailedWith(r: RunRecord, at: int, status: Status, error: string, report: Report): RunRecord {
    r.(status := status, completedAt := Some(at), error := Some(error), log := report.log,
       evidenceRunId := Coalesce(report.evidenceRunId, r.evidenceRunId),
       evidenceStatus := Coalesce(report.evidenceStatus, r.evidenceStatus))
  }

  /** One atomic step.  A claim takes some oldest queued run; ties are broken arbitrarily. */
  ghost predicate Step(s: Records, e: Event, s': Records) {
    match e
    case Create(id, createdAt) => id !in s && s' == s[id := Fresh(createdAt)]
    case CancelQueued(id, at) =>
      s' == if HasStatus(s, id, Queued)
            then s[id := s[id].(status := Cancelled, cancellationRequestedAt := Some(at), completedAt := Some(at))]
            else s
    case CancelRunning(id, at) =>
      s' == if HasStatus(s, id, Running)
            then s[id := s[id].(status := Cancelling, cancellationRequestedAt := Some(at))] else s
    case ClaimNext(at, None) => (forall id | id in s :: s[id].status != Queued) && s' == s
    case ClaimNext(at, Some(id)) =>
      OldestQueued(s, id) && s' == s[id := s[id].(status := Running, startedAt := Some(at))]
    case Finish(id, at, report) =>
      s' == if HasStatus(s, id, Running) || HasStatus(s, id, Cancelling)
            then s[id := Finished(s[id], at, report)] else s
    case Fail(id, at, status, error, report) =>
      s' == if id in s then s[id := FailedWith(s[id], at, status, error, report)] else s
  }

  datatype CancelReply = Unknown | Accepted(record: RunRecord) | Rejected(status: Status)

  /** What cancel answers once both updates have run and the record has been read. */
  function Reply(hitQueued: bool, hitRunning: bool, records: Records, id: string): CancelReply {
    if id !in records then Unknown
    else if hitQueued || hitRunning || records[id].status in {Cancelling, Cancelled} then Accepted(records[id])
    else Rejected(records[id].status)
  }

  class RunLifecycleStore {
    var records: Records

    constructor ()
      ensures records == map[]
    {
      records := map[];
    }

    /** The source may start a record in any status; here it starts queued. */
    method CreateQueued(id: string, createdAt: int)
      requires id !in records
      modifies this
      ensures Step(old(records), Create(id, createdAt), records)
    {
      records := records[id := Fresh(createdAt)];
    }

    method UpdateQueuedToCancelled(id: string, requestedAt: int) returns (rowCount: nat)
      modifies this
      ensures Step(old(records), CancelQueued(id, requestedAt), records)
      ensures rowCount == if HasStatus(old(records), id, Queued) then 1 else 0
    {
      rowCount := 0;
      if id in records && records[id].status == Queued {
        records := records[id := records[id].(status := Cancelled,
                                              cancellationRequestedAt := Some(requestedAt),
                                              completedAt := Some(requestedAt))];
        rowCount := 1;
      }
    }

    method UpdateRunningToCancelling(id: string, requestedAt: int) returns (rowCount: nat)
      modifies this
      ensures Step(old(records), CancelRunning(id, requestedAt), records)
      ensures rowCount == if HasStatus(old(records), id, Running) then 1 else 0
    {
      rowCount := 0;
      if id in records && records[id].status == Running {
        records := records[id := records[id].(status := Cancelling, cancellationRequestedAt := Some(requestedAt))];
        rowCount := 1;
      }
    }

    /** cancel with no other caller between its statements. */
    method Cancel(id: string, requestedAt: int) returns (reply: CancelReply)
      modifies this
      ensures id !in old(records) ==> reply == Unknown && records == old(records)
      ensures id in old(records) ==>
                var before := old(records)[id];
                match before.status
                case Queued => && Step(old(records), CancelQueued(id, requestedAt), records)
                               && reply == Accepted(records[id])
                case Running => && Step(old(records), CancelRunning(id, requestedAt), records)
                                && reply == Accepted(records[id])
                case Cancelling => records == old(records) && reply == Accepted(before)
                case Cancelled => records == old(records) && reply == Accepted(before)
                case _ => records == old(records) && reply == Rejected(before.status)
    {
      var queued := UpdateQueuedToCancelled(id, requestedAt);
      var running := 0;
      if queued != 1 {
        running := UpdateRunningToCancelling(id, requestedAt);
      }
      if id !in records {
        return Unknown;
      }
      var row := records[id];
      if queued == 1 || running == 1 || row.status == Cancelling || row.status == Cancelled {
        return Accepted(row);
      }
      return Rejected(row.status);
    }

    method Claim(startedAt: int) returns (claimed: Option<string>)
      modifies this
      ensures Step(old(records), ClaimNext(startedAt, claimed), records)
    {
      if id :| id in records && records[id].status == Queued {
        OldestExists(records, id);
        var candidate: string :| candidate in records && OldestQueued(records, candidate);
        records := records[candidate := records[candidate].(status := Running, startedAt := Some(startedAt))];
        return Some(candidate);
      }
      return None;
    }

    method FinishRun(id: string, completedAt: int, report: Report)
      modifies this
      ensures Step(old(records), Finish(id, completedAt, report), records)
      ensures HasStatus(old(records), id, Running) || HasStatus(old(records), id, Cancelling) ==>
                && HasStatus(records, id, if old(records)[id].status == Cancelling then Cancelled else Completed)
                && records[id].completedAt == Some(completedAt) && records[id].log == report.log
                && (report.evidenceRunId.Some? ==> records[id].evidenceRunId == report.evidenceRunId)
                && (report.evidenceStatus.Some? ==> records[id].evidenceStatus == report.evidenceStatus)
    {
      if id in records {
        var row := records[id];
        if row.status == Running || row.status == Cancelling {
          records := records[id := row.(
            status := if row.status == Cancelling then Cancelled else Completed,
            completedAt := Some(completedAt),
            evidenceRunId := if report.evidenceRunId != None then report.evidenceRunId else row.evidenceRunId,
            evidenceStatus := if report.evidenceStatus != None then report.evidenceStatus else row.evidenceStatus,
            log := report.log)];
        }
      }
    }

    method FailRun(id: string, completedAt: int, status: Status, error: string, report: Report)
      modifies this
      ensures Step(old(records), Fail(id, completedAt, status, error, report), records)
    {
      if id in records {
        var row := records[id];
        records := records[id := row.(
          status := status, completedAt := Some(completedAt), error := Some(error), log := report.log,
          evidenceRunId := if report.evidenceRunId != None then report.evidenceRunId else row.evidenceRunId,
          evidenceStatus := if report.evidenceStatus != None then report.evidenceStatus else row.evidenceStatus)];
      }
    }
  }

  /** Some queued run is oldest, so a claim never misses a queued run. */
  lemma {:induction false} OldestExists(records: Records, id: string)
    requires HasStatus(records, id, Queued)
    ensures exists oldest :: oldest in records && OldestQueued(records, oldest)
    decreases set other | other in records && records[other].status == Queued
              && records[other].createdAt < records[id].createdAt
  {
    if !OldestQueued(records, id) {
      var older :| older in records && records[older].status == Queued
          && records[older].createdAt < records[id].createdAt;
      var below := set other | other in records && records[other].status == Queued
          && records[other].createdAt < records[id].createdAt;
      assert older in below;
      OldestExists(records, older);
    }
  }

  // ----- every interleaving -----

  /** The store before and after each step of one interleaving of all callers. */
  ghost predicate Trace(states: seq<Records>, events: seq<Event>) {
    && |states| == |events| + 1
    && forall i | 0 <= i < |events| :: Step(states[i], events[i], states[i + 1])
  }

  /** No failure report for this run in events[i..j]. */
  ghost predicate NoFailureOf(events: seq<Event>, id: string, i: nat, j: nat) {
    forall l | i <= l < j && l < |events| :: !(events[l].Fail? && events[l].id == id)
  }

  /** fail writes whatever status it is given; its callers give it one of these two. */
  predicate AsCalled(e: Event) {
    e.Fail? ==> e.status in {Failed, Cancelled}
  }

  ghost predicate FailsAsCalled(events: seq<Event>) {
    forall l | 0 <= l < |events| :: AsCalled(events[l])
  }

  predicate Terminal(status: Status) { status in {Cancelled, Completed, Failed} }

  /** The lifecycle: what a status may become in any number of steps. */
  predicate Later(a: Status, b: Status) {
    a == b ||
    match a
    case Queued => b in {Running, Cancelling, Cancelled, Completed}
    case Running => b in {Cancelling, Cancelled, Completed}
    case Cancelling => b == Cancelled
    case _ => false
  }

  /** The moves one step may make. */
  predicate Move(a: Status, b: Status) {
    a == b || (a, b) in {(Queued, Running), (Queued, Cancelled), (Running, Cancelling),
                         (Running, Completed), (Cancelling, Cancelled)}
  }

  /** Every step but a failure report makes only lifecycle moves, and leaves finished
      records untouched. */
  lemma StepMoves(s: Records, e: Event, s': Records, id: string)
    requires Step(s, e, s') && id in s && !(e.Fail? && e.id == id)
    ensures id in s' && Move(s[id].status, s'[id].status)
    ensures Terminal(s[id].status) ==> s'[id] == s[id]
  {
    if e.Fail? { assert e.id != id; }
  }

  /** Between any two points of an interleaving a run only moves forward, and once it is
      finished its whole record is frozen, as long as no failure is reported for it. */
  lemma {:induction false} RunsOnlyMoveForward(states: seq<Records>, events: seq<Event>, i: nat, j: nat, id: string)
    requires Trace(states, events) && i <= j < |states| && id in states[i] && NoFailureOf(events, id, i, j)
    ensures id in states[j] && Later(states[i][id].status, states[j][id].status)
    ensures Terminal(states[i][id].status) ==> states[j][id] == states[i][id]
    decreases j - i
  {
    if i < j {
      RunsOnlyMoveForward(states, events, i, j - 1, id);
      assert Step(states[j - 1], events[j - 1], states[j]);
      StepMoves(states[j - 1], events[j - 1], states[j], id);
    }
  }

  /** What a status may become in any number of steps when failures are reported too. */
  predicate LaterOrFailed(a: Status, b: Status) {
    || Later(a, b)
    || (Terminal(a) && b in {Failed, Cancelled})
    || (!Terminal(a) && b == Failed)
  }

  /** With failure reports as they are called, a run still never returns to an earlier
      live status, and one that is being cancelled, cancelled or failed never completes. */
  lemma {:induction false} RunsNeverGoBack(states: seq<Records>, events: seq<Event>, i: nat, j: nat, id: string)
    requires Trace(states, events) && FailsAsCalled(events) && i <= j < |states| && id in states[i]
    ensures id in states[j] && LaterOrFailed(states[i][id].status, states[j][id].status)
    decreases j - i
  {
    if i < j {
      RunsNeverGoBack(states, events, i, j - 1, id);
      assert Step(states[j - 1], events[j - 1], states[j]) && AsCalled(events[j - 1]);
    }
  }

  /** The times and marks tell the same story as the status. */
  predicate Consistent(r: RunRecord) {
    && (r.error.Some? ==> r.status in {Failed, Cancelled})
    && match r.status
       case Queued => r.startedAt.None? && r.completedAt.None? && r.cancellationRequestedAt.None?
       case Running => r.startedAt.Some? && r.completedAt.None? && r.cancellationRequestedAt.None?
       case Cancelling => r.startedAt.Some? && r.completedAt.None? && r.cancellationRequestedAt.Some?
       case Cancelled => r.completedAt.Some? && (r.cancellationRequestedAt.Some? || r.error.Some?)
       case Completed => r.startedAt.Some? && r.completedAt.Some? && r.cancellationRequestedAt.None?
       case Failed => r.completedAt.Some? && r.error.Some?
  }

  /** In every reachable state a completed run was never asked to stop, and a cancelled
      one was asked or had its failure reported as a cancellation. */
  lemma {:induction false} RecordsStayConsistent(states: seq<Records>, events: seq<Event>, j: nat)
    requires Trace(states, events) && FailsAsCalled(events) && states[0] == map[] && j < |states|
    ensures forall id | id in states[j] :: Consistent(states[j][id])
  {
    if j > 0 {
      RecordsStayConsistent(states, events, j - 1);
      assert Step(states[j - 1], events[j - 1], states[j]) && AsCalled(events[j - 1]);
    }
  }

  // ----- claims -----

  ghost predicate NeverRequeued(events: seq<Event>, id: string, i: nat, j: nat) {
    forall l | i <= l < j && l < |events| && events[l].Fail? && events[l].id == id :: events[l].status != Queued
  }

  /** A run that has left the queue stays out unless a failure report puts it back. */
  lemma {:induction false} StaysOutOfQueue(states: seq<Records>, events: seq<Event>, i: nat, j: nat, id: string)
    requires Trace(states, events) && i <= j < |states| && NeverRequeued(events, id, i, j)
    requires id in states[i] && states[i][id].status != Queued
    ensures id in states[j] && states[j][id].status != Queued
    decreases j - i
  {
    if i < j {
      StaysOutOfQueue(states, events, i, j - 1, id);
      assert Step(states[j - 1], events[j - 1], states[j]);
    }
  }

  /** No run is claimed twice, and no run is claimed past an older queued one.  Failure
      reports may interleave; only one that writes "queued" to the run itself matters. */
  lemma ClaimsAreDistinctAndOldestFirst(states: seq<Records>, events: seq<Event>, i: nat, j: nat)
    requires Trace(states, events) && i < j < |events|
    requires events[i].ClaimNext? && events[i].claimed.Some? && events[j].ClaimNext? && events[j].claimed.Some?
    ensures var first, second := events[i].claimed.value, events[j].claimed.value;
            && first in states[i] && second in states[j]
            && (NeverRequeued(events, first, i, j) ==> first != second)
            && (HasStatus(states[i], second, Queued) ==> states[i][first].createdAt <= states[j][second].createdAt)
  {
    var first, second := events[i].claimed.value, events[j].claimed.value;
    assert Step(states[i], events[i], states[i + 1]) && Step(states[j], events[j], states[j + 1]);
    if NeverRequeued(events, first, i, j) {
      StaysOutOfQueue(states, events, i + 1, j, first);
    }
    if second in states[i] {
      CreationTimeKept(states, events, i, j, second);
    }
  }

  lemma {:induction false} CreationTimeKept(states: seq<Records>, events: seq<Event>, i: nat, j: nat, id: string)
    requires Trace(states, events) && i <= j < |states| && id in states[i]
    ensures id in states[j] && states[j][id].createdAt == states[i][id].createdAt
    decreases j - i
  {
    if i < j {
      CreationTimeKept(states, events, i, j - 1, id);
      assert Step(states[j - 1], events[j - 1], states[j]);
    }
  }

  ghost predicate ClaimedTwice(states: seq<Records>, events: seq<Event>) {
    exists i, j | 0 <= i < j < |events| ::
      events[i].ClaimNext? && events[i].claimed.Some? && events[j].ClaimNext? && events[j].claimed == events[i].claimed
  }

  /** Every failure report writes one of these statuses. */
  ghost predicate Writes(events: seq<Event>, written: set<Status>) {
    forall l | 0 <= l < |events| && events[l].Fail? :: events[l].status in written
  }

  /** Claims are unique over all traces exactly when no failure report may write "queued". */
  lemma ClaimedOnceIffNeverRequeued(written: set<Status>)
    ensures (forall states: seq<Records>, events: seq<Event> | Trace(states, events) && Writes(events, written) ::
               !ClaimedTwice(states, events))
       <==> Queued !in written
  {
    if Queued in written {
      var states, events := Requeued();
      assert Trace(states, events);
      assert Writes(events, written) && ClaimedTwice(states, events);
    } else {
      forall states: seq<Records>, events: seq<Event> | Trace(states, events) && Writes(events, written)
        ensures !ClaimedTwice(states, events)
      {
        NotClaimedTwice(states, events, written);
      }
    }
  }

  lemma NotClaimedTwice(states: seq<Records>, events: seq<Event>, written: set<Status>)
    requires Trace(states, events) && Writes(events, written) && Queued !in written
    ensures !ClaimedTwice(states, events)
  {
    if ClaimedTwice(states, events) {
      var i, j :| 0 <= i < j < |events| && events[i].ClaimNext? && events[i].claimed.Some?
                  && events[j].ClaimNext? && events[j].claimed == events[i].claimed;
      assert NeverRequeued(events, events[i].claimed.value, i, j);
      ClaimsAreDistinctAndOldestFirst(states, events, i, j);
    }
  }

  lemma Requeued() returns (states: seq<Records>, events: seq<Event>)
    ensures Trace(states, events) && ClaimedTwice(states, events) && Writes(events, {Queued})
  {
    var queued := Fresh(0);
    var running := queued.(status := Running, startedAt := Some(1));
    var report := Report(None, None, "");
    var again := FailedWith(running, 2, Queued, "", report);
    states := [map[], map["run" := queued], map["run" := running], map["run" := again],
               map["run" := again.(status := Running, startedAt := Some(1))]];
    events := [Create("run", 0), ClaimNext(1, Some("run")), Fail("run", 2, Queued, "", report),
        ClaimNext(1, Some("run"))];
    assert Step(states[0], events[0], states[1]) && Step(states[1], events[1], states[2]);
    assert Step(states[2], events[2], states[3]) && Step(states[3], events[3], states[4]);
    assert events[1].claimed == events[3].claimed;
  }

  // ----- cancellation -----

  /** cancel's statements at points q, r and the read at point k, with anything between
      them.  The second update runs only when the first changed no row. */
  ghost predicate CancelCall(states: seq<Records>, events: seq<Event>, id: string, q: nat, r: nat, k: nat) {
    && q < |events| < |states| && events[q].CancelQueued? && events[q].id == id
    && (if HasStatus(states[q], id, Queued) then r == q
        else q < r < |events| && events[r].CancelRunning? && events[r].id == id)
    && r < k < |states|
  }

  ghost function CancelAnswer(states: seq<Records>, id: string, q: nat, r: nat, k: nat): CancelReply
    requires q < |states| && r < |states| && k < |states|
  {
    Reply(HasStatus(states[q], id, Queued), r != q && HasStatus(states[r], id, Running), states[k], id)
  }

  /** An accepted cancel holds: from the answer on the run never completes.  Without a
      failure report for the run during the call, an accepted run is cancelling or
      cancelled, and a cancel is rejected exactly when the run had ended otherwise. */
  lemma CancelIsDecisive(states: seq<Records>, events: seq<Event>, id: string, q: nat, r: nat, k: nat)
    requires Trace(states, events) && FailsAsCalled(events)
    requires CancelCall(states, events, id, q, r, k) && id in states[q]
    ensures id in states[k] && id in states[r]
    ensures var reply := CancelAnswer(states, id, q, r, k);
            && reply != Unknown
            && (reply.Accepted? ==> forall l | k <= l < |states| ::
                  id in states[l] && states[l][id].status in {Cancelling, Cancelled, Failed})
            && (reply.Rejected? ==> reply.status in {Completed, Failed})
            && (NoFailureOf(events, id, q, k) ==>
                  && (reply.Accepted? ==> states[k][id].status in {Cancelling, Cancelled})
                  && (reply.Rejected? <==> states[r][id].status in {Completed, Failed}))
  {
    assert Step(states[q], events[q], states[q + 1]) && Step(states[r], events[r], states[r + 1]);
    RunsNeverGoBack(states, events, q, q + 1, id);
    RunsNeverGoBack(states, events, q + 1, k, id);
    if q != r { RunsNeverGoBack(states, events, q + 1, r, id); }
    RunsNeverGoBack(states, events, r, r + 1, id);
    RunsNeverGoBack(states, events, r + 1, k, id);
    if NoFailureOf(events, id, q, k) {
      RunsOnlyMoveForward(states, events, r + 1, k, id);
    }
    forall l | k <= l < |states| && CancelAnswer(states, id, q, r, k).Accepted?
      ensures id in states[l] && states[l][id].status in {Cancelling, Cancelled, Failed}
    {
      RunsNeverGoBack(states, events, k, l, id);
    }
  }

  /** No failure report for this run writes a status outside keep. */
  ghost predicate OnlyWrites(events: seq<Event>, id: string, i: nat, j: nat, keep: set<Status>) {
    forall l | i <= l < j && l < |events| && events[l].Fail? && events[l].id == id :: events[l].status in keep
  }

  /** A run that is cancelling or cancelled stays so exactly when no failure report for it
      writes another status.  An accepted run is one, unless a failure was
      reported during the call. */
  lemma {:induction false} CancellationStaysIff(states: seq<Records>, events: seq<Event>, i: nat, j: nat, id: string)
    requires Trace(states, events) && i <= j < |states|
    requires id in states[i] && states[i][id].status in {Cancelling, Cancelled}
    ensures (forall l | i <= l <= j :: id in states[l] && states[l][id].status in {Cancelling, Cancelled})
       <==> OnlyWrites(events, id, i, j, {Cancelling, Cancelled})
    decreases j - i
  {
    if i < j {
      CancellationStaysIff(states, events, i, j - 1, id);
      assert Step(states[j - 1], events[j - 1], states[j]);
      if OnlyWrites(events, id, i, j, {Cancelling, Cancelled}) {
        assert OnlyWrites(events, id, i, j - 1, {Cancelling, Cancelled});
      }
    }
  }

  /** A terminal run keeps its status exactly when no failure report for it writes another. */
  lemma {:induction false} TerminalStaysIff(states: seq<Records>, events: seq<Event>, i: nat, j: nat, id: string)
    requires Trace(states, events) && i <= j < |states| && id in states[i] && Terminal(states[i][id].status)
    ensures (forall l | i <= l <= j :: HasStatus(states[l], id, states[i][id].status))
       <==> OnlyWrites(events, id, i, j, {states[i][id].status})
    decreases j - i
  {
    if i < j {
      TerminalStaysIff(states, events, i, j - 1, id);
      assert Step(states[j - 1], events[j - 1], states[j]);
      if OnlyWrites(events, id, i, j, {states[i][id].status}) {
        assert OnlyWrites(events, id, i, j - 1, {states[i][id].status});
      }
    }
  }

  /** Nothing, not even a failure report, makes the store forget recorded evidence. */
  lemma {:induction false} EvidenceIsNeverDropped(states: seq<Records>, events: seq<Event>, i: nat, j: nat, id: string)
    requires Trace(states, events) && i <= j < |states| && id in states[i]
    ensures id in states[j]
    ensures states[i][id].evidenceRunId.Some? ==> states[j][id].evidenceRunId.Some?
    ensures states[i][id].evidenceStatus.Some? ==> states[j][id].evidenceStatus.Some?
    decreases j - i
  {
    if i < j {
      EvidenceIsNeverDropped(states, events, i, j - 1, id);
      assert Step(states[j - 1], events[j - 1], states[j]);
    }
  }

  /** The statement reports on this run and takes effect: a failure always, a finish only
      while the run is running or cancelling. */
  ghost predicate TakesEffect(states: seq<Records>, events: seq<Event>, id: string, l: int) {
    && 0 <= l < |events| < |states|
    && match events[l]
       case Fail(failed, _, _, _, _) => failed == id && id in states[l]
       case Finish(finished, _, _) =>
         finished == id && (HasStatus(states[l], id, Running) || HasStatus(states[l], id, Cancelling))
       case _ => false
  }

  /** The statement between two points is the last that reports an evidence run. */
  ghost predicate LastNamesRun(states: seq<Records>, events: seq<Event>, id: string, i: nat, j: nat, l: int) {
    && i <= l < j && TakesEffect(states, events, id, l) && events[l].report.evidenceRunId.Some?
    && forall m | l < m < j && TakesEffect(states, events, id, m) :: events[m].report.evidenceRunId.None?
  }

  ghost predicate LastNamesStatus(states: seq<Records>, events: seq<Event>, id: string, i: nat, j: nat, l: int) {
    && i <= l < j && TakesEffect(states, events, id, l) && events[l].report.evidenceStatus.Some?
    && forall m | l < m < j && TakesEffect(states, events, id, m) :: events[m].report.evidenceStatus.None?
  }

  /** What one statement does to the evidence of a run. */
  lemma EvidenceStep(states: seq<Records>, events: seq<Event>, l: nat, id: string)
    requires Trace(states, events) && l < |events| && id in states[l]
    ensures id in states[l + 1]
    ensures if TakesEffect(states, events, id, l)
            then && states[l + 1][id].log == events[l].report.log
                 && states[l + 1][id].evidenceRunId ==
                      Coalesce(events[l].report.evidenceRunId, states[l][id].evidenceRunId)
                 && states[l + 1][id].evidenceStatus ==
                      Coalesce(events[l].report.evidenceStatus, states[l][id].evidenceStatus)
            else && states[l + 1][id].log == states[l][id].log
                 && states[l + 1][id].evidenceRunId == states[l][id].evidenceRunId
                 && states[l + 1][id].evidenceStatus == states[l][id].evidenceStatus
  {
    assert Step(states[l], events[l], states[l + 1]);
  }

  /** A run carries the evidence run that was last reported for it, or the one it had. */
  lemma {:induction false} EvidenceRunIsTheLastReported(
      states: seq<Records>, events: seq<Event>, i: nat, j: nat, id: string)
    requires Trace(states, events) && i <= j < |states| && id in states[i]
    ensures id in states[j]
    ensures forall l | LastNamesRun(states, events, id, i, j, l) ::
              states[j][id].evidenceRunId == events[l].report.evidenceRunId
    ensures (forall l :: !LastNamesRun(states, events, id, i, j, l)) ==>
              states[j][id].evidenceRunId == states[i][id].evidenceRunId
    decreases j - i
  {
    if i < j {
      var n: nat := j - 1;
      EvidenceRunIsTheLastReported(states, events, i, n, id);
      EvidenceStep(states, events, n, id);
      if TakesEffect(states, events, id, n) && events[n].report.evidenceRunId.Some? {
        assert LastNamesRun(states, events, id, i, j, n);
      } else {
        if l :| LastNamesRun(states, events, id, i, n, l) { assert LastNamesRun(states, events, id, i, j, l); }
        forall l | LastNamesRun(states, events, id, i, j, l) ensures LastNamesRun(states, events, id, i, n, l) { }
      }
    }
  }

  /** And the evidence status last reported, or the one it had. */
  lemma {:induction false} EvidenceStatusIsTheLastReported(
      states: seq<Records>, events: seq<Event>, i: nat, j: nat, id: string)
    requires Trace(states, events) && i <= j < |states| && id in states[i]
    ensures id in states[j]
    ensures forall l | LastNamesStatus(states, events, id, i, j, l) ::
              states[j][id].evidenceStatus == events[l].report.evidenceStatus
    ensures (forall l :: !LastNamesStatus(states, events, id, i, j, l)) ==>
              states[j][id].evidenceStatus == states[i][id].evidenceStatus
    decreases j - i
  {
    if i < j {
      var n: nat := j - 1;
      EvidenceStatusIsTheLastReported(states, events, i, n, id);
      EvidenceStep(states, events, n, id);
      if TakesEffect(states, events, id, n) && events[n].report.evidenceStatus.Some? {
        assert LastNamesStatus(states, events, id, i, j, n);
      } else {
        if l :| LastNamesStatus(states, events, id, i, n, l) {
          assert LastNamesStatus(states, events, id, i, j, l);
        }
        forall l | LastNamesStatus(states, events, id, i, j, l)
          ensures LastNamesStatus(states, events, id, i, n, l)
        { }
      }
    }
  }

  /** A worker that reports a failure late takes a completed run out of its terminal state:
      the run is created, claimed, finished, and then failed. */
  lemma LateFailureUndoesCompletion() returns (states: seq<Records>, events: seq<Event>)
    ensures Trace(states, events) && FailsAsCalled(events) && states[0] == map[] && |states| == 5
    ensures HasStatus(states[3], "run", Completed) && HasStatus(states[4], "run", Failed)
  {
    var queued := Fresh(0);
    var running := queued.(status := Running, startedAt := Some(1));
    var report := Report(None, None, "");
    var done := Finished(running, 2, report);
    states := [map[], map["run" := queued], map["run" := running], map["run" := done],
               map["run" := FailedWith(done, 3, Failed, "", report)]];
    events := [Create("run", 0), ClaimNext(1, Some("run")), Finish("run", 2, report),
        Fail("run", 3, Failed, "", report)];
    assert Step(states[0], events[0], states[1]) && Step(states[1], events[1], states[2]);
    assert Step(states[2], events[2], states[3]) && Step(states[3], events[3], states[4]);
  }
}
