/** What every run of the outbox workers guarantees. */
module OutboxTheorems {
  import opened Common
  import Runs
  import opened RetryPolicy
  import opened Outbox
  import opened OutboxProtocol

  // ------------------------------------------------------------------ attempts and sends

  lemma {:induction false} BoundedSetSize(s: set<nat>, n: nat)
    requires forall x :: x in s ==> 1 <= x <= n
    ensures |s| <= n
    decreases n
  {
    if n > 0 {
      BoundedSetSize(s - {n}, n - 1);
    } else {
      assert s == {};
    }
  }

  /**
   * In every reachable state: the CHECK constraint holds, a terminal row has lost its
   * payload, attempts stay within the limit, a pending job has an attempt left, and a job
   * was handed to the sender at most once per attempt.
   */
  lemma RowsAreSafe(c: Config, run: seq<State>, i: nat, id: JobId)
    requires WellFormed(c) && IsRun(c, run) && i < |run| && id in run[i].rows
    ensures var r := run[i].rows[id];
            && LeaseCheck(r)
            && (Terminal(r) ==> r.payload == EMPTY_PAYLOAD)
            && r.attempts <= c.maxAttempts
            && (r.status == Pending ==> r.attempts < c.maxAttempts)
            && id in run[i].sends && run[i].sends[id] <= r.attempts
  {
    InvHolds(c, run, i);
    assert RowOk(c, run[i].rows[id]) && SendsOk(run[i], id);
    BoundedSetSize(run[i].sentOn[id], run[i].rows[id].attempts);
  }

  // ------------------------------------------------------------------ leases

  /** A ticket whose lease is the row's current one carries the row's attempt count; there is one such ticket. */
  lemma CurrentHolderIsUnique(c: Config, run: seq<State>, i: nat, k: Lease, l: Lease)
    requires WellFormed(c) && IsRun(c, run) && i < |run|
    requires k in run[i].tickets && l in run[i].tickets && run[i].tickets[k].job == run[i].tickets[l].job
    requires Holds(run[i].rows, run[i].tickets[k].job, k)
    ensures run[i].tickets[k].attempts == run[i].rows[run[i].tickets[k].job].attempts
    ensures k != l ==> run[i].tickets[l].attempts < run[i].tickets[k].attempts && !Holds(run[i].rows, run[i].tickets[l].job, l)
  {
    InvHolds(c, run, i);
    HolderKnowsAttempts(c, run[i], k);
    assert TicketOk(run[i], k) && TicketOk(run[i], l) && RecordOk(run[i], l);
  }

  /**
   * How far a worker's clock may fall behind its own claim by the time it reports a
   * failure: as far as the delay after a second attempt.  With fewer than three claimable
   * attempts, or a second delay that is undefined, it does not matter.
   */
  predicate DriftOk(c: Config, drift: nat) {
    var delay := RetryDelay(2, c.baseDelay, c.maxDelay);
    ToInt32(c.maxAttempts) < 3 || delay.None? || drift <= delay.value
  }

  /** A lease that is neither current nor released has expired before whatever may come next. */
  ghost predicate Settled(c: Config, s: State, l: Lease)
    requires l in s.log && s.log[l].job in s.rows
  {
    var e, r := s.log[l], s.rows[s.log[l].job];
    l !in s.released && r.lease != Some(l) ==>
      && (r.lease.Some? && r.lease.value in s.log ==> e.until <= s.log[r.lease.value].claimedAt)
      && (r.status == Pending && r.attempts < ToInt32(c.maxAttempts) ==> e.until <= r.nextAttemptAt)
  }

  /** The later of two leases on a job begins after the earlier one has run out or was released by its holder. */
  ghost predicate Disjoint(s: State, k: Lease, l: Lease)
    requires k in s.log && l in s.log
  {
    s.log[k].job == s.log[l].job && s.log[k].attempt < s.log[l].attempt && k !in s.released ==>
      s.log[k].until <= s.log[l].claimedAt
  }

  ghost predicate LeasesDisjoint(s: State) {
    forall k, l :: k in s.log && l in s.log ==> Disjoint(s, k, l)
  }

  ghost predicate LeaseInv(c: Config, s: State) {
    && (forall l :: l in s.log ==> s.log[l].job in s.rows && Settled(c, s, l))
    && LeasesDisjoint(s)
  }

  /** Whatever lease is still unreleased when a row is claimed has run out by the time of the claim. */
  lemma ClaimWaitsForLeases(c: Config, s: State, step: Step, l: Lease)
    requires Inv(c, s) && LeaseInv(c, s) && Enabled(c, s, step) && step.Claim?
    requires l in s.log && s.log[l].job == step.id && l !in s.released
    ensures s.log[l].until <= step.now
  {
    assert RowOk(c, s.rows[step.id]) && LeaseLogged(s, step.id) && Settled(c, s, l);
    var r := s.rows[step.id];
    if r.lease.Some? { assert RecordOk(s, r.lease.value); }
  }

  lemma ClaimKeepsLeaseInv(c: Config, s: State, step: Step)
    requires Inv(c, s) && LeaseInv(c, s) && Enabled(c, s, step) && step.Claim?
    ensures LeaseInv(c, Apply(c, s, step))
  {
    var s' := Apply(c, s, step);
    forall l | l in s'.log ensures s'.log[l].job in s'.rows && Settled(c, s', l) {
      if l != step.lease {
        assert Settled(c, s, l) && LeaseLogged(s, s.log[l].job);
        if s.log[l].job == step.id && l !in s.released { ClaimWaitsForLeases(c, s, step, l); }
      }
    }
    forall k, l | k in s'.log && l in s'.log ensures Disjoint(s', k, l) {
      if k != step.lease && l != step.lease {
        assert Disjoint(s, k, l);
      } else if k != step.lease {
        if s.log[k].job == step.id && k !in s.released { ClaimWaitsForLeases(c, s, step, k); }
      } else if l != step.lease {
        assert RecordOk(s, l);
      }
    }
  }

  /** The holder of a first attempt is alone: there is no older lease to wait for. */
  lemma FirstAttemptIsAlone(c: Config, s: State, lease: Lease, l: Lease)
    requires Inv(c, s) && HasTicket(s, lease) && Holds(s.rows, s.tickets[lease].job, lease)
    requires s.tickets[lease].attempts == 1 && l in s.log && s.log[l].job == s.tickets[lease].job
    ensures l == lease
  {
    HolderKnowsAttempts(c, s, lease);
    assert TicketOk(s, lease) && RecordOk(s, l);
  }

  lemma GuardedKeepsLeaseInv(c: Config, s: State, lease: Lease, row: Row)
    requires Inv(c, s) && LeaseInv(c, s) && HasTicket(s, lease) && row.lease.None?
    requires Holds(s.rows, s.tickets[lease].job, lease) && row.status == Pending
             && s.tickets[lease].attempts >= 2 && row.attempts < ToInt32(c.maxAttempts) ==>
               s.tickets[lease].claimedAt <= row.nextAttemptAt
    ensures LeaseInv(c, Guarded(s, lease, row))
  {
    var s' := Guarded(s, lease, row);
    assert TicketOk(s, lease) && RecordOk(s, lease);
    forall l | l in s'.log ensures s'.log[l].job in s'.rows && Settled(c, s', l) {
      assert Settled(c, s, l);
      if Holds(s.rows, s.tickets[lease].job, lease) && s.log[l].job == s.tickets[lease].job && s.tickets[lease].attempts == 1 {
        FirstAttemptIsAlone(c, s, lease, l);
      }
    }
    forall k, l | k in s'.log && l in s'.log ensures Disjoint(s', k, l) {
      assert Disjoint(s, k, l);
    }
  }

  lemma FrameLeaseInv(c: Config, s: State, s': State)
    requires LeaseInv(c, s) && s'.log == s.log && s'.released == s.released
    requires forall id :: id in s.rows ==> id in s'.rows && s'.rows[id] == s.rows[id]
    ensures LeaseInv(c, s')
  {
    forall l | l in s'.log ensures s'.log[l].job in s'.rows && Settled(c, s', l) {
      assert Settled(c, s, l);
    }
    forall k, l | k in s'.log && l in s'.log ensures Disjoint(s', k, l) {
      assert Disjoint(s, k, l);
    }
  }

  /** A delay no shorter than the drift makes up for it. */
  lemma DelayCoversDrift(c: Config, attempts: nat, claimedAt: int, failureNow: int, drift: nat)
    requires WellFormed(c) && DriftOk(c, drift) && claimedAt - failureNow <= drift
    requires 2 <= attempts < ToInt32(c.maxAttempts) && RetryDelay(attempts, c.baseDelay, c.maxDelay).Some?
    ensures claimedAt <= failureNow + RetryDelay(attempts, c.baseDelay, c.maxDelay).value
  {
    DelayBounds(2, attempts, c.baseDelay, c.maxDelay);
  }

  lemma FailureKeepsLeaseInv(c: Config, s: State, step: Step)
    requires WellFormed(c) && Inv(c, s) && LeaseInv(c, s) && Enabled(c, s, step) && step.ReportFailure?
    requires DriftOk(c, Apply(c, s, step).behind)
    ensures LeaseInv(c, Apply(c, s, step))
  {
    var lease, t, r := step.lease, s.tickets[step.lease], RowOf(s, step.lease);
    var row := FailureRow(c, r, t, step.failureNow, step.now, step.error);
    if Holds(s.rows, t.job, lease) && row.status == Pending && t.attempts >= 2 && row.attempts < ToInt32(c.maxAttempts) {
      HolderKnowsAttempts(c, s, lease);
      DelayCoversDrift(c, t.attempts, t.claimedAt, step.failureNow, Apply(c, s, step).behind);
    }
    GuardedKeepsLeaseInv(c, s, lease, row);
    FrameLeaseInv(c, Guarded(s, lease, row), Apply(c, s, step));
  }

  lemma SuccessKeepsLeaseInv(c: Config, s: State, step: Step)
    requires Inv(c, s) && LeaseInv(c, s) && Enabled(c, s, step) && (step.ReportSent? || step.ReportSentThrows?)
    ensures LeaseInv(c, Apply(c, s, step))
  {
    var lease, row := step.lease, SentRow(RowOf(s, step.lease), step.now);
    if step.ReportSentThrows? && !step.applied {
      FrameLeaseInv(c, s, Apply(c, s, step));
    } else {
      GuardedKeepsLeaseInv(c, s, lease, row);
      FrameLeaseInv(c, Guarded(s, lease, row), Apply(c, s, step));
    }
  }

  lemma StepKeepsLeaseInv(c: Config, s: State, step: Step)
    requires WellFormed(c) && Inv(c, s) && LeaseInv(c, s) && Enabled(c, s, step)
    requires DriftOk(c, Apply(c, s, step).behind)
    ensures LeaseInv(c, Apply(c, s, step))
  {
    if step.Claim? { ClaimKeepsLeaseInv(c, s, step); }
    else if step.ReportFailure? { FailureKeepsLeaseInv(c, s, step); }
    else if step.ReportSent? || step.ReportSentThrows? { SuccessKeepsLeaseInv(c, s, step); }
    else { FrameLeaseInv(c, s, Apply(c, s, step)); }
  }

  ghost predicate SafeLeases(c: Config, s: State) {
    Inv(c, s) && (DriftOk(c, s.behind) ==> LeaseInv(c, s))
  }

  lemma BehindGrows(c: Config, s: State, step: Step)
    requires Enabled(c, s, step)
    ensures s.behind <= Apply(c, s, step).behind
  {
  }

  lemma NextKeepsSafeLeases(c: Config, s: State, s': State)
    requires WellFormed(c) && SafeLeases(c, s) && Next(c, s, s')
    ensures SafeLeases(c, s')
  {
    NextKeepsInv(c, s, s');
    var step :| Enabled(c, s, step) && s' == Apply(c, s, step);
    BehindGrows(c, s, step);
    if DriftOk(c, s'.behind) { StepKeepsLeaseInv(c, s, step); }
  }

  lemma LeaseInvHolds(c: Config, run: seq<State>, i: nat)
    requires WellFormed(c) && IsRun(c, run) && i < |run| && DriftOk(c, run[i].behind)
    ensures Inv(c, run[i]) && LeaseInv(c, run[i])
  {
    forall s, s' | SafeLeases(c, s) && Next(c, s, s') ensures SafeLeases(c, s') { NextKeepsSafeLeases(c, s, s'); }
    Runs.Invariant(Init(), Steps(c), s => SafeLeases(c, s), run, i);
  }

  /**
   * The later of two leases on one job begins only after the earlier one has run out,
   * unless the earlier one was released by its holder, whatever became of the later one.
   */
  lemma LeasesDoNotOverlap(c: Config, run: seq<State>, i: nat, k: Lease, l: Lease)
    requires WellFormed(c) && IsRun(c, run) && i < |run| && DriftOk(c, run[i].behind)
    requires k in run[i].log && l in run[i].log && run[i].log[k].job == run[i].log[l].job
    requires run[i].log[k].attempt < run[i].log[l].attempt && k !in run[i].released
    ensures run[i].log[k].until <= run[i].log[l].claimedAt
  {
    LeaseInvHolds(c, run, i);
    assert Disjoint(run[i], k, l);
  }

  // ------------------------------------------------------------------ terminal states

  /** Sent and dead are final to the last column; the payload survives until then; attempts only grow. */
  ghost predicate RowEvolves(x: Row, y: Row) {
    && (Terminal(x) ==> y == x)
    && (!Terminal(y) ==> y.payload == x.payload)
    && x.attempts <= y.attempts
    && y.toEmail == x.toEmail && y.template == x.template && y.createdAt == x.createdAt
  }

  ghost predicate JobEvolves(id: JobId, s: State, s': State) {
    id in s.rows ==> id in s'.rows && RowEvolves(s.rows[id], s'.rows[id])
  }

  lemma StepEvolves(c: Config, s: State, step: Step, id: JobId)
    requires Enabled(c, s, step)
    ensures JobEvolves(id, s, Apply(c, s, step))
  {
  }

  lemma RowsEvolve(c: Config, run: seq<State>, i: nat, j: nat, id: JobId)
    requires IsRun(c, run) && i <= j < |run| && id in run[i].rows
    ensures id in run[j].rows && RowEvolves(run[i].rows[id], run[j].rows[id])
  {
    forall s, s' | Next(c, s, s') ensures JobEvolves(id, s, s') {
      var step :| Enabled(c, s, step) && s' == Apply(c, s, step);
      StepEvolves(c, s, step, id);
    }
    Runs.Related(Init(), Steps(c), s => true, (s, s') => JobEvolves(id, s, s'), run, i, j);
  }

  // ------------------------------------------------------------------ what is sent was enqueued

  /** At this point of the run the job was put into the outbox with these contents. */
  ghost predicate EnqueuedAt(c: Config, run: seq<State>, i: int, step: Step) {
    0 <= i < |run| - 1 && step.Enqueue? && Enabled(c, run[i], step) && run[i + 1] == Apply(c, run[i], step)
  }

  lemma {:induction false} JobsWereEnqueued(c: Config, run: seq<State>, j: nat, id: JobId) returns (i: nat, step: Step)
    requires IsRun(c, run) && j < |run| && id in run[j].rows
    ensures i < j && EnqueuedAt(c, run, i, step) && step.id == id
  {
    assert j > 0 ==> Next(c, run[j - 1], run[j]);
    step :| Enabled(c, run[j - 1], step) && run[j] == Apply(c, run[j - 1], step);
    if id in run[j - 1].rows {
      i, step := JobsWereEnqueued(c, run, j - 1, id);
    } else {
      i := j - 1;
    }
  }

  /** A job keeps its address and template for ever, and its payload until it is sent or dead. */
  lemma ContentsSurvive(c: Config, run: seq<State>, i: nat, j: nat, step: Step)
    requires IsRun(c, run) && i < j < |run| && EnqueuedAt(c, run, i, step)
    ensures step.id in run[j].rows
    ensures var r := run[j].rows[step.id];
            r.toEmail == step.toEmail && r.template == step.template && (!Terminal(r) ==> r.payload == step.payload)
  {
    RowsEvolve(c, run, i + 1, j, step.id);
  }

  /** On every run, what a worker finds in a batch is what some request had enqueued. */
  lemma WhatIsSentWasEnqueued(c: Config, run: seq<State>, j: nat, batch: seq<Entry>, e: Entry, now: int, base: Lease)
    returns (i: nat, step: Step)
    requires IsRun(c, run) && j < |run| && e in batch
    requires Claimable(run[j].rows, batch, now, ToInt32(c.maxAttempts), base)
    ensures i < j && EnqueuedAt(c, run, i, step) && step.id == e.id
    ensures e.toEmail == step.toEmail && e.template == step.template && e.payload == step.payload
  {
    var k :| 0 <= k < |batch| && batch[k] == e;
    assert EntryFor(run[j].rows, batch[k]);
    i, step := JobsWereEnqueued(c, run, j, e.id);
    ContentsSurvive(c, run, i, j, step);
  }

  // ------------------------------------------------------------------ retries wait

  /** A pending row stays as it is until it is claimed, which raises its attempts. */
  ghost predicate WaitsForClaim(id: JobId, s: State, s': State) {
    id in s.rows ==>
      && id in s'.rows && s.rows[id].attempts <= s'.rows[id].attempts
      && (s.rows[id].status == Pending && s'.rows[id].attempts == s.rows[id].attempts ==> s'.rows[id] == s.rows[id])
  }

  lemma StepWaits(c: Config, s: State, step: Step, id: JobId)
    requires Enabled(c, s, step)
    ensures WaitsForClaim(id, s, Apply(c, s, step))
  {
  }

  lemma PendingWaits(c: Config, run: seq<State>, i: nat, j: nat, id: JobId)
    requires IsRun(c, run) && i <= j < |run|
    ensures WaitsForClaim(id, run[i], run[j])
  {
    forall s, s' | Next(c, s, s') ensures WaitsForClaim(id, s, s') {
      var step :| Enabled(c, s, step) && s' == Apply(c, s, step);
      StepWaits(c, s, step, id);
    }
    Runs.Related(Init(), Steps(c), s => true, (s, s') => WaitsForClaim(id, s, s'), run, i, j);
  }

  /** The row a retryable failure leaves: pending, not to be claimed before its delay has passed. */
  lemma RescheduledWaits(c: Config, s: State, step: Step)
    requires Enabled(c, s, step) && step.ReportFailure? && Holds(s.rows, s.tickets[step.lease].job, step.lease)
    requires !ShouldMarkDead(s.tickets[step.lease].attempts, c.maxAttempts, s.tickets[step.lease].phase.retryable)
    ensures var r := Apply(c, s, step).rows[s.tickets[step.lease].job];
            && r.status == Pending && r.attempts == RowOf(s, step.lease).attempts
            && r.nextAttemptAt == step.failureNow + RetryDelay(s.tickets[step.lease].attempts, c.baseDelay, c.maxDelay).value
  {
  }

  /**
   * After a retryable failure the job's next attempt, whichever worker makes it, is not
   * claimed before the failure time plus a delay of at least the base and at most the
   * maximum.
   */
  lemma RetryWaitsForBackoff(c: Config, run: seq<State>, i: nat, j: nat, step: Step, claim: Step)
    requires WellFormed(c) && IsRun(c, run) && i < j < |run|
    requires Enabled(c, run[i], step) && step.ReportFailure? && run[i + 1] == Apply(c, run[i], step)
    requires Holds(run[i].rows, run[i].tickets[step.lease].job, step.lease)
    requires !ShouldMarkDead(run[i].tickets[step.lease].attempts, c.maxAttempts, run[i].tickets[step.lease].phase.retryable)
    requires claim.Claim? && claim.id == run[i].tickets[step.lease].job && Enabled(c, run[j], claim)
    requires run[j].rows[claim.id].attempts == run[i].rows[claim.id].attempts
    ensures var delay := RetryDelay(run[i].rows[claim.id].attempts, c.baseDelay, c.maxDelay);
            delay.Some? && c.baseDelay <= delay.value <= c.maxDelay && claim.now >= step.failureNow + delay.value
  {
    InvHolds(c, run, i);
    HolderKnowsAttempts(c, run[i], step.lease);
    RescheduledWaits(c, run[i], step);
    PendingWaits(c, run, i + 1, j, claim.id);
    var n := run[i].tickets[step.lease].attempts;
    DelayBounds(n, n, c.baseDelay, c.maxDelay);
  }
}
