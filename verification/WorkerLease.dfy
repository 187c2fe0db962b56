/** The execution lease shared by competing workers: one row, replaced by a conditional
    upsert, refreshed by a conditional update and removed by a conditional delete.  Each
    SQL statement is one atomic step; times are integers on one clock. */
module WorkerLease {
  import opened Wrappers

  datatype LeaseRow = LeaseRow(owner: string, heartbeat: int)

  datatype Op =
    | Acquire(owner: string, now: int)
    | Heartbeat(owner: string, now: int)
    | Release(owner: string)

  /** The lease row after one statement. */
  function After(row: Option<LeaseRow>, op: Op, timeout: nat): Option<LeaseRow> {
    match op
    case Acquire(owner, now) => if Granted(row, op, timeout) then Some(LeaseRow(owner, now)) else row
    case Heartbeat(owner, now) => if Granted(row, op, timeout) then Some(LeaseRow(owner, now)) else row
    case Release(owner) => if Holds(row, owner) then None else row
  }

  /** Whether the statement reports that it changed a row for its caller. */
  predicate Granted(row: Option<LeaseRow>, op: Op, timeout: nat) {
    match op
    case Acquire(owner, now) => row.None? || Holds(row, owner) || row.value.heartbeat < now - timeout
    case Heartbeat(owner, _) => Holds(row, owner)
    case Release(_) => false
  }

  class LeaseTable {
    var row: Option<LeaseRow>

    constructor ()
      ensures row == None
    {
      row := None;
    }

    method AcquireLease(ownerId: string, now: int, timeoutSeconds: nat) returns (ok: bool)
      modifies this
      ensures ok == Granted(old(row), Acquire(ownerId, now), timeoutSeconds)
      ensures row == After(old(row), Acquire(ownerId, now), timeoutSeconds)
    {
      var staleBefore := now - timeoutSeconds;
      ok := true;
      match row {
        case None => row := Some(LeaseRow(ownerId, now));
        case Some(held) =>
          if held.owner == ownerId || held.heartbeat < staleBefore {
            row := Some(held.(owner := ownerId, heartbeat := now));
          } else {
            ok := false;
          }
      }
    }

    method HeartbeatLease(ownerId: string, now: int) returns (ok: bool)
      modifies this
      ensures forall timeout: nat :: ok == Granted(old(row), Heartbeat(ownerId, now), timeout)
      ensures forall timeout: nat :: row == After(old(row), Heartbeat(ownerId, now), timeout)
    {
      ok := row.Some? && row.value.owner == ownerId;
      if ok {
        row := Some(row.value.(heartbeat := now));
      }
    }

    method ReleaseLease(ownerId: string)
      modifies this
      ensures forall timeout: nat :: row == After(old(row), Release(ownerId), timeout)
    {
      if row.Some? && row.value.owner == ownerId {
        row := None;
      }
    }
  }

  // ----- every trace of competing owners -----

  function RowAfter(trace: seq<Op>, timeout: nat): Option<LeaseRow> {
    if trace == [] then None
    else After(RowAfter(trace[..|trace| - 1], timeout), trace[|trace| - 1], timeout)
  }

  /** What each owner believes: the time of its last granted acquire or heartbeat, kept
      until it releases.  An owner that was displaced still believes. */
  function Beliefs(trace: seq<Op>, timeout: nat): map<string, int> {
    if trace == [] then map[]
    else
      var before := Beliefs(trace[..|trace| - 1], timeout);
      var op := trace[|trace| - 1];
      if op.Release? then before - {op.owner}
      else if Granted(RowAfter(trace[..|trace| - 1], timeout), op, timeout) then before[op.owner := op.now]
      else before
  }

  /** No acquire was granted at a time later than this one. */
  ghost predicate NoAcquireAfter(trace: seq<Op>, timeout: nat, latest: int) {
    forall i | 0 <= i < |trace| && trace[i].Acquire? && Granted(RowAfter(trace[..i], timeout), trace[i], timeout) ::
      trace[i].now <= latest
  }

  predicate Live(beliefs: map<string, int>, owner: string, now: int, timeout: nat) {
    owner in beliefs && beliefs[owner] >= now - timeout
  }

  predicate Holds(row: Option<LeaseRow>, owner: string) {
    row.Some? && row.value.owner == owner
  }

  /** The row is one owner's belief, and every other belief has expired. */
  ghost predicate Explains(row: Option<LeaseRow>, beliefs: map<string, int>, timeout: nat, now: int) {
    && (row.Some? ==> row.value.owner in beliefs && beliefs[row.value.owner] == row.value.heartbeat)
    && (forall o | o in beliefs :: Holds(row, o) || beliefs[o] < now - timeout)
  }

  lemma NoAcquireBefore(trace: seq<Op>, timeout: nat, latest: int)
    requires trace != [] && NoAcquireAfter(trace, timeout, latest)
    ensures NoAcquireAfter(trace[..|trace| - 1], timeout, latest)
  {
    var before := trace[..|trace| - 1];
    forall i | 0 <= i < |before| && before[i].Acquire? && Granted(RowAfter(before[..i], timeout), before[i], timeout)
      ensures before[i].now <= latest
    {
      assert before[..i] == trace[..i] && before[i] == trace[i];
    }
  }

  /** Of the clock this needs only that no acquire was granted at a time still to come:
      heartbeats may carry any time, and operation times may go backwards. */
  lemma {:induction false} RowExplainsBeliefs(trace: seq<Op>, timeout: nat, now: int)
    requires NoAcquireAfter(trace, timeout, now)
    ensures Explains(RowAfter(trace, timeout), Beliefs(trace, timeout), timeout, now)
  {
    if trace != [] {
      NoAcquireBefore(trace, timeout, now);
      RowExplainsBeliefs(trace[..|trace| - 1], timeout, now);
    }
  }

  ghost predicate AtMostOneLive(trace: seq<Op>, timeout: nat, now: int) {
    var beliefs := Beliefs(trace, timeout);
    forall o, p | Live(beliefs, o, now, timeout) && Live(beliefs, p, now, timeout) :: o == p
  }

  /** Exclusion: at most one owner that has not released had an acquire or heartbeat
      granted within the timeout, and it is the owner in the row. */
  lemma AtMostOneLiveOwner(trace: seq<Op>, timeout: nat, now: int)
    requires NoAcquireAfter(trace, timeout, now)
    ensures AtMostOneLive(trace, timeout, now)
    ensures forall o | Live(Beliefs(trace, timeout), o, now, timeout) :: Holds(RowAfter(trace, timeout), o)
  {
    RowExplainsBeliefs(trace, timeout, now);
  }

  /** Acquire is granted exactly when no other owner is live: a worker is never refused by
      an expired or released one, and never displaces a live one. */
  lemma AcquireExactlyWhenFree(trace: seq<Op>, timeout: nat, owner: string, now: int)
    requires NoAcquireAfter(trace, timeout, now)
    ensures Granted(RowAfter(trace, timeout), Acquire(owner, now), timeout)
       <==> forall o | Live(Beliefs(trace, timeout), o, now, timeout) :: o == owner
  {
    RowExplainsBeliefs(trace, timeout, now);
    var row, beliefs := RowAfter(trace, timeout), Beliefs(trace, timeout);
    assert row.Some? ==> (Live(beliefs, row.value.owner, now, timeout) <==> row.value.heartbeat >= now - timeout);
  }

  /** An owner that keeps its heartbeats within the timeout cannot be displaced. */
  lemma PromptHeartbeatIsGranted(trace: seq<Op>, timeout: nat, owner: string, now: int)
    requires NoAcquireAfter(trace, timeout, now)
    requires Live(Beliefs(trace, timeout), owner, now, timeout)
    ensures Granted(RowAfter(trace, timeout), Heartbeat(owner, now), timeout)
  {
    AtMostOneLiveOwner(trace, timeout, now);
  }

  /** Once displaced or released, every heartbeat fails until the owner acquires again;
      this needs nothing of the clock. */
  lemma {:induction false} DisplacedStaysOut(trace: seq<Op>, more: seq<Op>, timeout: nat, owner: string, now: int)
    requires !Granted(RowAfter(trace, timeout), Heartbeat(owner, now), timeout)
    requires forall i | 0 <= i < |more| :: !(more[i].Acquire? && more[i].owner == owner)
    ensures !Granted(RowAfter(trace + more, timeout), Heartbeat(owner, now), timeout)
  {
    if more == [] {
      assert trace + more == trace;
    } else {
      var earlier := more[..|more| - 1];
      DisplacedStaysOut(trace, earlier, timeout, owner, now);
      assert (trace + more)[..|trace + more| - 1] == trace + earlier;
      assert (trace + more)[|trace + more| - 1] == more[|more| - 1];
    }
  }

  /** A worker whose clock is one tick ahead displaces an owner that is live until now. */
  lemma EarlyAcquireDisplaces(timeout: nat, now: int)
    ensures var trace := [Acquire("a", now - timeout), Acquire("b", now + 1)];
            && NoAcquireAfter(trace, timeout, now + 1)
            && Live(Beliefs(trace, timeout), "a", now, timeout) && Live(Beliefs(trace, timeout), "b", now, timeout)
  {
    var trace := [Acquire("a", now - timeout), Acquire("b", now + 1)];
    assert trace[..1] == [Acquire("a", now - timeout)];
    assert trace[..1][..0] == [];
    assert RowAfter(trace[..1], timeout) == Some(LeaseRow("a", now - timeout));
    assert Beliefs(trace[..1], timeout) == map["a" := now - timeout];
  }

  /** How far clocks may disagree: over all traces in which no acquire is granted later
      than "latest", exclusion holds at "now" exactly when latest is not after now. */
  lemma ExclusionIffNoAcquireAhead(timeout: nat, now: int, latest: int)
    ensures (forall trace | NoAcquireAfter(trace, timeout, latest) :: AtMostOneLive(trace, timeout, now))
              <==> latest <= now
  {
    if latest <= now {
      forall trace | NoAcquireAfter(trace, timeout, latest) ensures AtMostOneLive(trace, timeout, now) {
        AtMostOneLiveOwner(trace, timeout, now);
      }
    } else {
      EarlyAcquireDisplaces(timeout, now);
      var trace := [Acquire("a", now - timeout), Acquire("b", now + 1)];
      assert NoAcquireAfter(trace, timeout, latest) && "a" != "b";
      assert !AtMostOneLive(trace, timeout, now);
    }
  }
}
