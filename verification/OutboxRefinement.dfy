/**
 * The worker's code takes only steps of the protocol: what ClaimBatch does is a run of
 * Claim steps, and what it does for one job is a send step, possibly a report that throws,
 * and a last report, with steps of other workers in between.
 */
module OutboxRefinement {
  import opened Common
  import opened RetryPolicy
  import opened Outbox
  import P = OutboxProtocol
  import W = OutboxWorker

  // ------------------------------------------------------------------ claiming a batch

  predicate TicketFor(s: P.State, e: Entry, now: int) {
    e.lease in s.tickets && s.tickets[e.lease] == P.Ticket(e.id, e.attempts, now, P.Unsent)
  }

  ghost predicate TicketsFor(s: P.State, batch: seq<Entry>, now: int) {
    forall e :: e in batch ==> TicketFor(s, e, now)
  }

  ghost predicate LeasesBelow(s: P.State, n: nat) {
    forall l :: l in s.log || l in s.tickets ==> l < n
  }

  lemma TicketsAfterClaim(c: Config, s: P.State, batch: seq<Entry>, e: Entry, now: int)
    requires TicketsFor(s, batch, now) && LeasesBelow(s, e.lease) && EntryFor(s.rows, e)
    ensures TicketsFor(P.AfterClaim(c, s, e.id, e.lease, now), batch + [e], now)
    ensures LeasesBelow(P.AfterClaim(c, s, e.id, e.lease, now), e.lease + 1)
  {
    var s' := P.AfterClaim(c, s, e.id, e.lease, now);
    forall x | x in batch + [e] ensures TicketFor(s', x, now) {
      if x in batch { assert TicketFor(s, x, now); }
    }
  }

  lemma ClaimReaches(c: Config, s: P.State, e: Entry, now: int)
    requires P.Reachable(c, s) && e.id in s.rows && e.lease !in s.log
    requires Eligible(s.rows[e.id], now, ToInt32(c.maxAttempts))
    ensures P.Reachable(c, P.AfterClaim(c, s, e.id, e.lease, now))
  {
    P.ReachStep(c, s, P.Claim(e.id, e.lease, now));
  }

  lemma RowsAfterClaim(c: Config, s: P.State, rows: Table, batch: seq<Entry>, e: Entry, now: int)
    requires s.rows == ClaimTable(rows, batch, now, now + c.stuckTimeout) && !InBatch(batch, e.id) && e.id in rows
    ensures e.id in s.rows && s.rows[e.id] == rows[e.id]
    ensures P.AfterClaim(c, s, e.id, e.lease, now).rows == ClaimTable(rows, batch + [e], now, now + c.stuckTimeout)
  {
    ClaimTableOther(rows, batch, now, now + c.stuckTimeout, e.id);
    ClaimTableSnoc(rows, batch, e, now, now + c.stuckTimeout);
  }

  /** The first rows of a batch have been claimed by steps. */
  ghost predicate Progress(c: Config, s: P.State, rows: Table, batch: seq<Entry>, now: int) {
    && P.Reachable(c, s)
    && s.rows == ClaimTable(rows, batch, now, now + c.stuckTimeout)
    && TicketsFor(s, batch, now)
  }

  lemma ClaimNext(c: Config, s: P.State, rows: Table, batch: seq<Entry>, e: Entry, now: int)
    requires Progress(c, s, rows, batch, now) && LeasesBelow(s, e.lease) && !InBatch(batch, e.id)
    requires EntryFor(rows, e) && Eligible(rows[e.id], now, ToInt32(c.maxAttempts))
    ensures e.id in s.rows
    ensures Progress(c, P.AfterClaim(c, s, e.id, e.lease, now), rows, batch + [e], now)
    ensures LeasesBelow(P.AfterClaim(c, s, e.id, e.lease, now), e.lease + 1)
  {
    RowsAfterClaim(c, s, rows, batch, e, now);
    TicketsAfterClaim(c, s, batch, e, now);
    ClaimReaches(c, s, e, now);
  }

  lemma ClaimableFront(rows: Table, batch: seq<Entry>, now: int, maxAttempts: int, base: Lease)
    requires Claimable(rows, batch, now, maxAttempts, base) && batch != []
    ensures var front, e := batch[..|batch| - 1], batch[|batch| - 1];
            && batch == front + [e] && Claimable(rows, front, now, maxAttempts, base) && !InBatch(front, e.id)
            && e.lease == base + |front| && EntryFor(rows, e) && Eligible(rows[e.id], now, maxAttempts)
  {
  }

  /** Claiming a batch in one statement is claiming its rows one after the other. */
  lemma {:induction false} BatchIsSteps(c: Config, s: P.State, batch: seq<Entry>, now: int, base: Lease)
    returns (s': P.State)
    requires P.Reachable(c, s) && LeasesBelow(s, base)
    requires Claimable(s.rows, batch, now, ToInt32(c.maxAttempts), base)
    ensures Progress(c, s', s.rows, batch, now) && LeasesBelow(s', base + |batch|)
    decreases |batch|
  {
    if batch == [] {
      s' := s;
    } else {
      var front, e := batch[..|batch| - 1], batch[|batch| - 1];
      ClaimableFront(s.rows, batch, now, ToInt32(c.maxAttempts), base);
      var before := BatchIsSteps(c, s, front, now, base);
      ClaimNext(c, before, s.rows, front, e, now);
      s' := P.AfterClaim(c, before, e.id, e.lease, now);
    }
  }

  lemma TicketsAreJobs(c: Config, s: P.State, batch: seq<Entry>, now: int)
    requires WellFormed(c) && P.Reachable(c, s) && TicketsFor(s, batch, now)
    ensures forall e :: e in batch ==> HasJob(s, e, P.Unsent)
  {
    forall e | e in batch ensures HasJob(s, e, P.Unsent) {
      assert TicketFor(s, e, now);
      P.TicketUsable(c, s, e.lease);
    }
  }

  lemma ClaimedBatch(c: Config, s: P.State, batch: seq<Entry>, now: int, base: Lease) returns (s': P.State)
    requires WellFormed(c) && P.Reachable(c, s) && LeasesBelow(s, base)
    requires Claimable(s.rows, batch, now, ToInt32(c.maxAttempts), base)
    ensures P.Reachable(c, s') && s'.rows == ClaimTable(s.rows, batch, now, now + c.stuckTimeout)
    ensures LeasesBelow(s', base + |batch|) && forall e :: e in batch ==> HasJob(s', e, P.Unsent)
  {
    s' := BatchIsSteps(c, s, batch, now, base);
    TicketsAreJobs(c, s', batch, now);
  }

  /**
   * ClaimBatch on the table of a reachable state leads to the table of a reachable state in
   * which the worker has an unsent ticket for every job of the batch.
   */
  method ClaimBatchIsRun(table: OutboxTable, c: Config, limit: nat, now: int, skipped: set<JobId>, base: Lease,
                         ghost s: P.State)
    returns (batch: seq<Entry>, ghost s': P.State)
    requires WellFormed(c) && P.Reachable(c, s) && table.rows == s.rows && LeasesBelow(s, base)
    modifies table
    ensures |batch| <= limit && P.Reachable(c, s') && table.rows == s'.rows && LeasesBelow(s', base + |batch|)
    ensures forall e :: e in batch ==>
              && HasJob(s', e, P.Unsent) && e.id in s.rows
              && e.toEmail == s.rows[e.id].toEmail && e.template == s.rows[e.id].template && e.payload == s.rows[e.id].payload
    ensures Claimable(s.rows, batch, now, ToInt32(c.maxAttempts), base)
  {
    batch := table.ClaimBatch(limit, now, now + c.stuckTimeout, ToInt32(c.maxAttempts), skipped, base);
    s' := ClaimedBatch(c, s, batch, now, base);
  }

  // ------------------------------------------------------------------ the steps for one job

  /** The worker has a ticket for the job, in this phase. */
  predicate HasJob(s: P.State, job: Entry, phase: P.Phase) {
    && P.HasTicket(s, job.lease)
    && s.tickets[job.lease].job == job.id && s.tickets[job.lease].attempts == job.attempts
    && s.tickets[job.lease].phase == phase
  }

  /** The tickets other than this one stay. */
  ghost predicate KeepsOthers(s: P.State, s': P.State, lease: Lease) {
    forall l :: l in s.tickets && l != lease ==> l in s'.tickets && s'.tickets[l] == s.tickets[l]
  }

  /** What the send does to the ticket. */
  function SendStep(job: Entry, w: W.Happening): P.Step {
    if !W.KnownTemplate(job.template) || !w.payloadParses then P.BadPayload(job.lease)
    else P.Send(job.lease, PhaseAfter(job, w))
  }

  function PhaseAfter(job: Entry, w: W.Happening): P.Phase {
    if W.Delivered(job, w) then P.Delivered else P.Failed(W.Retryable(job, w))
  }

  lemma SendIsStep(c: Config, s: P.State, job: Entry, w: W.Happening)
    requires HasJob(s, job, P.Unsent)
    ensures P.Enabled(c, s, SendStep(job, w))
    ensures var s' := P.Apply(c, s, SendStep(job, w));
            HasJob(s', job, PhaseAfter(job, w)) && KeepsOthers(s, s', job.lease)
  {
  }

  function ThrowStep(job: Entry, w: W.Happening): P.Step {
    P.ReportSentThrows(job.lease, w.reportApplied, w.sentAt)
  }

  lemma ThrowIsStep(c: Config, s: P.State, job: Entry, w: W.Happening)
    requires HasJob(s, job, P.Delivered)
    ensures P.Enabled(c, s, ThrowStep(job, w))
    ensures var s' := P.Apply(c, s, ThrowStep(job, w));
            HasJob(s', job, P.Failed(true)) && KeepsOthers(s, s', job.lease)
  {
  }

  function LastStep(job: Entry, w: W.Happening): P.Step {
    if W.Reports(job, w) then P.ReportSent(job.lease, w.sentAt)
    else if W.GivesUp(w) then P.Vanish(job.lease)
    else P.ReportFailure(job.lease, w.failureNow, w.updatedAt, w.error)
  }

  /** The worker's last transaction for the job is made on this table. */
  predicate LastTable(job: Entry, w: W.Happening, rows: Table) {
    rows == if W.Reports(job, w) then w.atReport else w.atFailure
  }

  lemma FailureIsStep(c: Config, s: P.State, job: Entry, w: W.Happening)
    requires HasJob(s, job, P.Failed(W.Retryable(job, w))) && w.atFailure == s.rows
    requires !W.Reports(job, w) && !W.GivesUp(w) && DelayKnown(c, job.attempts, W.Retryable(job, w))
    ensures P.Enabled(c, s, LastStep(job, w))
    ensures P.Apply(c, s, LastStep(job, w)).rows == W.FailureWritten(c, job, w, W.Retryable(job, w))
  {
    var retryable, t := W.Retryable(job, w), s.tickets[job.lease];
    if Holds(s.rows, job.id, job.lease) {
      var row := P.FailureRow(c, s.rows[job.id], t, w.failureNow, w.updatedAt, w.error);
      assert P.Apply(c, s, LastStep(job, w)).rows == s.rows[job.id := row];
    }
  }

  lemma LastIsStep(c: Config, s: P.State, job: Entry, w: W.Happening)
    requires W.Computable(c, job, w) && LastTable(job, w, s.rows)
    requires HasJob(s, job, if W.Reports(job, w) then P.Delivered else P.Failed(W.Retryable(job, w)))
    ensures P.Enabled(c, s, LastStep(job, w))
    ensures var s' := P.Apply(c, s, LastStep(job, w));
            s'.rows == W.TableAfter(c, job, w) && job.lease !in s'.tickets && KeepsOthers(s, s', job.lease)
  {
    if !W.Reports(job, w) && !W.GivesUp(w) { FailureIsStep(c, s, job, w); }
  }

  // ------------------------------------------------------------------ one job from claim to report

  /** Other workers take any number of steps; the ticket is only its owner's to change. */
  ghost predicate Meanwhile(c: Config, s: P.State, s': P.State, lease: Lease) {
    && P.Leads(c, s, s')
    && P.HasTicket(s, lease) && P.HasTicket(s', lease) && s'.tickets[lease] == s.tickets[lease]
  }

  /** The send was followed by a report that threw. */
  predicate ReportLost(job: Entry, w: W.Happening) {
    W.Delivered(job, w) && w.reportThrows
  }

  /**
   * The happening agrees with the states the protocol went through: mid is the one in which
   * the result of the send is reported, and late, after a report that threw, the one in
   * which the failure is.
   */
  ghost predicate Consistent(c: Config, s: P.State, mid: P.State, late: P.State, job: Entry, w: W.Happening)
    requires HasJob(s, job, P.Unsent)
  {
    SendIsStep(c, s, job, w);
    && Meanwhile(c, P.Apply(c, s, SendStep(job, w)), mid, job.lease)
    && if ReportLost(job, w) then
         && P.Enabled(c, mid, ThrowStep(job, w))
         && Meanwhile(c, P.Apply(c, mid, ThrowStep(job, w)), late, job.lease)
         && LastTable(job, w, late.rows)
       else
         late == mid && LastTable(job, w, mid.rows)
  }

  lemma ReachesMid(c: Config, s: P.State, mid: P.State, late: P.State, job: Entry, w: W.Happening)
    requires HasJob(s, job, P.Unsent) && Consistent(c, s, mid, late, job, w)
    ensures P.Leads(c, s, mid) && HasJob(mid, job, PhaseAfter(job, w))
  {
    SendIsStep(c, s, job, w);
    var sent := P.Apply(c, s, SendStep(job, w));
    P.LeadsNowhere(c, s);
    P.LeadsOn(c, s, s, SendStep(job, w));
    P.LeadsFurther(c, s, sent, mid);
  }

  lemma ReachesLate(c: Config, s: P.State, mid: P.State, late: P.State, job: Entry, w: W.Happening)
    requires HasJob(s, job, P.Unsent) && Consistent(c, s, mid, late, job, w)
    ensures P.Leads(c, s, late)
    ensures HasJob(late, job, if W.Reports(job, w) then P.Delivered else P.Failed(W.Retryable(job, w)))
    ensures LastTable(job, w, late.rows)
  {
    ReachesMid(c, s, mid, late, job, w);
    if ReportLost(job, w) {
      ThrowIsStep(c, mid, job, w);
      var thrown := P.Apply(c, mid, ThrowStep(job, w));
      P.LeadsOn(c, s, mid, ThrowStep(job, w));
      P.LeadsFurther(c, s, thrown, late);
    }
  }

  lemma ReachesEnd(c: Config, s: P.State, mid: P.State, late: P.State, job: Entry, w: W.Happening) returns (s': P.State)
    requires HasJob(s, job, P.Unsent) && Consistent(c, s, mid, late, job, w) && W.Computable(c, job, w)
    ensures P.Leads(c, s, s') && s'.rows == W.TableAfter(c, job, w)
    ensures job.lease !in s'.tickets && KeepsOthers(late, s', job.lease)
  {
    ReachesLate(c, s, mid, late, job, w);
    LastIsStep(c, late, job, w);
    P.LeadsOn(c, s, late, LastStep(job, w));
    s' := P.Apply(c, late, LastStep(job, w));
  }

  /**
   * Processing a job never leaves the protocol.  From the state that holds its unsent ticket
   * the send, a report that throws and the last report are steps, whatever other workers do
   * in between, and the worker's table is that of the state they lead to.
   */
  method ProcessIsRun(worker: W.Worker, c: Config, job: Entry, w: W.Happening,
                      ghost s: P.State, ghost mid: P.State, ghost late: P.State)
    returns (ghost s': P.State)
    requires HasJob(s, job, P.Unsent) && Consistent(c, s, mid, late, job, w) && W.Computable(c, job, w)
    modifies worker, worker.table
    ensures P.Leads(c, s, s') && worker.table.rows == s'.rows
    ensures job.lease !in s'.tickets && KeepsOthers(late, s', job.lease)
  {
    worker.Process(c, job, w);
    s' := ReachesEnd(c, s, mid, late, job, w);
  }

  // ------------------------------------------------------------------ whose report counts

  /** A ticket is the current one exactly while its attempt is the latest and still under way. */
  lemma CurrentExactly(c: Config, s: P.State, lease: Lease)
    requires P.Inv(c, s) && P.HasTicket(s, lease)
    ensures var t := s.tickets[lease]; var r := s.rows[t.job];
            Holds(s.rows, t.job, lease) <==> r.status == Processing && r.attempts == t.attempts
  {
    var t := s.tickets[lease];
    assert P.RowOk(c, s.rows[t.job]) && P.LeaseLogged(s, t.job) && P.TicketOk(s, lease);
    if Holds(s.rows, t.job, lease) { P.HolderKnowsAttempts(c, s, lease); }
  }

  /**
   * In every reachable state a worker whose transaction goes through loses its result exactly
   * when the job has since been finished, put back or attempted again, and then the table
   * stays as it is.
   */
  lemma ResultLostExactly(c: Config, s: P.State, job: Entry, phase: P.Phase, w: W.Happening)
    requires WellFormed(c) && P.Reachable(c, s) && HasJob(s, job, phase) && LastTable(job, w, s.rows)
    requires W.Computable(c, job, w) && (W.Reports(job, w) || !w.failureThrows)
    ensures W.OutcomeOf(c, job, w) == W.LeaseLost <==>
            s.rows[job.id].status != Processing || s.rows[job.id].attempts != job.attempts
    ensures W.OutcomeOf(c, job, w) == W.LeaseLost ==> W.TableAfter(c, job, w) == s.rows
  {
    P.ReachableInv(c, s);
    CurrentExactly(c, s, job.lease);
  }
}
