/**
 * One tick of the outbox worker: claim a batch, then send and report job by job, with the
 * failures of sending and of reporting handled inside one another.  What the outside world
 * does during the tick is a parameter: whether calls throw, and what other workers have
 * made of the table by the time a result is reported.
 */
module OutboxWorker {
  import opened Common
  import opened RetryPolicy
  import opened Outbox

  datatype SendResult = SendOk | DeliveryError(retryable: bool) | OtherException

  /**
   * What happens around one job.  A report that throws may all the same have been applied,
   * when only the answer to its commit was lost.
   */
  datatype Happening = Happening(
    payloadParses: bool, send: SendResult,
    atReport: Table, reportThrows: bool, reportApplied: bool, sentAt: int,
    atFailure: Table, failureThrows: bool, failureApplied: bool, failureNow: int, updatedAt: int, error: string)

  datatype Outcome = WasSent | WasRescheduled | WasDead | LeaseLost | PersistError

  predicate KnownTemplate(template: string) {
    template == "verification_code" || template == "password_reset"
  }

  /** Did the job reach the sender and come back without an exception? */
  predicate Delivered(job: Entry, w: Happening) {
    KnownTemplate(job.template) && w.payloadParses && w.send.SendOk?
  }

  /** How the catch block classifies the exception that reached it. */
  predicate Retryable(job: Entry, w: Happening) {
    if !KnownTemplate(job.template) || !w.payloadParses then false
    else if w.send.DeliveryError? then w.send.retryable
    else true
  }

  /** The send went through and its report came back. */
  predicate Reports(job: Entry, w: Happening) {
    Delivered(job, w) && !w.reportThrows
  }

  /** The failure's transaction gave up before it wrote anything. */
  predicate GivesUp(w: Happening) {
    w.failureThrows && !w.failureApplied
  }

  /** No undefined delay is computed for the job. */
  predicate Computable(c: Config, job: Entry, w: Happening) {
    Reports(job, w) || GivesUp(w) || DelayKnown(c, job.attempts, Retryable(job, w))
  }

  function FailureOutcome(c: Config, job: Entry, w: Happening, retryable: bool): Outcome {
    if w.failureThrows then PersistError
    else if !Holds(w.atFailure, job.id, job.lease) then LeaseLost
    else if ShouldMarkDead(job.attempts, c.maxAttempts, retryable) then WasDead
    else WasRescheduled
  }

  /** The single outcome recorded for a job, whatever path it takes. */
  function OutcomeOf(c: Config, job: Entry, w: Happening): Outcome {
    if Reports(job, w) then if Holds(w.atReport, job.id, job.lease) then WasSent else LeaseLost
    else FailureOutcome(c, job, w, Retryable(job, w))
  }

  /** The table the failure's guarded write leaves behind. */
  function FailureWritten(c: Config, job: Entry, w: Happening, retryable: bool): Table
    requires DelayKnown(c, job.attempts, retryable)
  {
    if !Holds(w.atFailure, job.id, job.lease) then w.atFailure
    else if ShouldMarkDead(job.attempts, c.maxAttempts, retryable) then
      w.atFailure[job.id := DeadRow(w.atFailure[job.id], w.failureNow, w.error)]
    else
      var nextAt := w.failureNow + RetryDelay(job.attempts, c.baseDelay, c.maxDelay).value;
      w.atFailure[job.id := RescheduledRow(w.atFailure[job.id], nextAt, w.error, w.updatedAt)]
  }

  /** The table a job's last transaction leaves behind. */
  function TableAfter(c: Config, job: Entry, w: Happening): Table
    requires Computable(c, job, w)
  {
    if Reports(job, w) then
      if Holds(w.atReport, job.id, job.lease)
      then w.atReport[job.id := SentRow(w.atReport[job.id], w.sentAt)]
      else w.atReport
    else if GivesUp(w) then w.atFailure
    else FailureWritten(c, job, w, Retryable(job, w))
  }

  /** A lease is current when the row is being processed under it. */
  predicate Current(rows: Table, job: Entry) {
    job.id in rows && rows[job.id].status == Processing && rows[job.id].lease == Some(job.lease)
  }

  /**
   * What becomes of a job, said of what happened to it.  Both templates of the service can be
   * sent; a payload that does not parse and any other template are hopeless, a delivery error
   * is as it says, and everything else is worth another attempt while there is one.
   */
  lemma OutcomeExactly(c: Config, job: Entry, w: Happening)
    requires Computable(c, job, w)
    ensures var readable := w.payloadParses && (job.template == "verification_code" || job.template == "password_reset");
            var hopeless := !readable || w.send == DeliveryError(false) || job.attempts >= c.maxAttempts;
            var o, rows := OutcomeOf(c, job, w), TableAfter(c, job, w);
            if readable && w.send == SendOk && !w.reportThrows then
              if Current(w.atReport, job)
              then o == WasSent && job.id in rows && rows[job.id].status == Sent && rows - {job.id} == w.atReport - {job.id}
              else o == LeaseLost && rows == w.atReport
            else if w.failureThrows then o == PersistError && (!w.failureApplied ==> rows == w.atFailure)
            else if !Current(w.atFailure, job) then o == LeaseLost && rows == w.atFailure
            else
              && job.id in rows && rows - {job.id} == w.atFailure - {job.id}
              && if hopeless then o == WasDead && rows[job.id].status == Dead
                 else o == WasRescheduled && rows[job.id].status == Pending
  {
  }

  /** How many of the first n jobs of the batch have the outcome. */
  function Tally(c: Config, batch: seq<Entry>, world: nat -> Happening, n: nat, o: Outcome): nat
    requires n <= |batch|
  {
    if n == 0 then 0
    else Tally(c, batch, world, n - 1, o) + (if OutcomeOf(c, batch[n - 1], world(n - 1)) == o then 1 else 0)
  }

  /** Every job of a batch is counted under exactly one outcome. */
  lemma {:induction false} TalliesAddUp(c: Config, batch: seq<Entry>, world: nat -> Happening, n: nat)
    requires n <= |batch|
    ensures Tally(c, batch, world, n, WasSent) + Tally(c, batch, world, n, WasRescheduled)
            + Tally(c, batch, world, n, WasDead) + Tally(c, batch, world, n, LeaseLost)
            + Tally(c, batch, world, n, PersistError) == n
  {
    if n > 0 { TalliesAddUp(c, batch, world, n - 1); }
  }

  /** The five delivery counters of the metrics port. */
  datatype Counts = Counts(sent: nat, rescheduled: nat, dead: nat, leaseLost: nat, persistErrors: nat)

  function Count(n: Counts, o: Outcome): nat {
    match o
    case WasSent => n.sent
    case WasRescheduled => n.rescheduled
    case WasDead => n.dead
    case LeaseLost => n.leaseLost
    case PersistError => n.persistErrors
  }

  /** Exactly the counter of this outcome went up, by one. */
  ghost predicate Raised(before: Counts, after: Counts, o: Outcome) {
    forall x :: Count(after, x) == Count(before, x) + (if x == o then 1 else 0)
  }

  /** Every counter went up by the tally of its outcome over the first n jobs. */
  ghost predicate Tallied(c: Config, batch: seq<Entry>, world: nat -> Happening, n: nat, before: Counts, after: Counts)
    requires n <= |batch|
  {
    forall o :: Count(after, o) == Count(before, o) + Tally(c, batch, world, n, o)
  }

  lemma TalliedStep(c: Config, batch: seq<Entry>, world: nat -> Happening, n: nat,
                    before: Counts, middle: Counts, after: Counts)
    requires n < |batch| && Tallied(c, batch, world, n, before, middle)
    requires Raised(middle, after, OutcomeOf(c, batch[n], world(n)))
    ensures Tallied(c, batch, world, n + 1, before, after)
  {
  }

  function Total(n: Counts): nat {
    n.sent + n.rescheduled + n.dead + n.leaseLost + n.persistErrors
  }

  lemma TalliedTotal(c: Config, batch: seq<Entry>, world: nat -> Happening, before: Counts, after: Counts)
    requires Tallied(c, batch, world, |batch|, before, after)
    ensures Total(after) == Total(before) + |batch|
  {
    TalliesAddUp(c, batch, world, |batch|);
    assert forall o :: Count(after, o) == Count(before, o) + Tally(c, batch, world, |batch|, o);
    assert Total(after) == Count(after, WasSent) + Count(after, WasRescheduled) + Count(after, WasDead)
                           + Count(after, LeaseLost) + Count(after, PersistError);
  }

  class Worker {
    const table: OutboxTable
    var sent: nat
    var rescheduled: nat
    var dead: nat
    var leaseLost: nat
    var persistErrors: nat
    var claimErrors: nat

    constructor (table: OutboxTable)
      ensures this.table == table
      ensures sent == rescheduled == dead == leaseLost == persistErrors == claimErrors == 0
    {
      this.table := table;
      sent, rescheduled, dead, leaseLost, persistErrors, claimErrors := 0, 0, 0, 0, 0, 0;
    }

    function Counters(): Counts
      reads this
    {
      Counts(sent, rescheduled, dead, leaseLost, persistErrors)
    }

    /** Writes the failure under the lease: dead, or back to pending after the retry delay. */
    method WriteFailure(c: Config, job: Entry, w: Happening, retryable: bool) returns (persisted: bool)
      requires DelayKnown(c, job.attempts, retryable)
      modifies table
      ensures persisted == Holds(old(table.rows), job.id, job.lease)
      ensures old(table.rows) == w.atFailure ==> table.rows == FailureWritten(c, job, w, retryable)
    {
      if ShouldMarkDead(job.attempts, c.maxAttempts, retryable) {
        persisted := table.MarkDead(job.id, job.lease, w.failureNow, w.error);
      } else {
        var delay := RetryDelay(job.attempts, c.baseDelay, c.maxDelay).value;
        persisted := table.Reschedule(job.id, job.lease, w.failureNow + delay, w.error, w.updatedAt);
      }
    }

    /** The catch block: decide between dead and retry, write under the lease, record what came of it. */
    method PersistFailure(c: Config, job: Entry, w: Happening, retryable: bool) returns (o: Outcome)
      requires GivesUp(w) || DelayKnown(c, job.attempts, retryable)
      modifies this, table
      ensures o == FailureOutcome(c, job, w, retryable)
      ensures table.rows == if GivesUp(w) then w.atFailure else FailureWritten(c, job, w, retryable)
      ensures claimErrors == old(claimErrors)
      ensures Raised(old(Counters()), Counters(), o)
    {
      table.rows := w.atFailure;
      var persisted := false;
      if !GivesUp(w) { persisted := WriteFailure(c, job, w, retryable); }
      if w.failureThrows {
        persistErrors := persistErrors + 1;
        o := PersistError;
      } else if !persisted {
        leaseLost := leaseLost + 1;
        o := LeaseLost;
      } else if ShouldMarkDead(job.attempts, c.maxAttempts, retryable) {
        dead := dead + 1;
        o := WasDead;
      } else {
        rescheduled := rescheduled + 1;
        o := WasRescheduled;
      }
    }

    /** The body of the loop for one claimed job. */
    method Process(c: Config, job: Entry, w: Happening)
      requires Computable(c, job, w)
      modifies this, table
      ensures table.rows == TableAfter(c, job, w)
      ensures claimErrors == old(claimErrors)
      ensures Raised(old(Counters()), Counters(), OutcomeOf(c, job, w))
      ensures w.payloadParses && (job.template == "verification_code" || job.template == "password_reset")
              && w.send == SendOk && !w.reportThrows && Current(w.atReport, job) ==>
                sent == old(sent) + 1 && job.id in table.rows && table.rows[job.id].status == Sent
      ensures (!w.payloadParses || (job.template != "verification_code" && job.template != "password_reset"))
              && !w.failureThrows && Current(w.atFailure, job) ==>
                dead == old(dead) + 1 && job.id in table.rows && table.rows[job.id].status == Dead
      ensures w.payloadParses && (job.template == "verification_code" || job.template == "password_reset")
              && (w.send.DeliveryError? || w.send.OtherException? || w.reportThrows)
              && !w.failureThrows && Current(w.atFailure, job) && job.attempts < c.maxAttempts ==>
                if w.send == DeliveryError(false)
                then dead == old(dead) + 1 && job.id in table.rows && table.rows[job.id].status == Dead
                else rescheduled == old(rescheduled) + 1 && job.id in table.rows && table.rows[job.id].status == Pending
    {
      OutcomeExactly(c, job, w);
      var retryable := true;
      if job.template != "verification_code" && job.template != "password_reset" {
        retryable := false;
      } else if !w.payloadParses {
        retryable := false;
      } else if w.send.DeliveryError? {
        retryable := w.send.retryable;
      } else if w.send.SendOk? && !w.reportThrows {
        table.rows := w.atReport;
        var persisted := table.MarkSent(job.id, job.lease, w.sentAt);
        if persisted { sent := sent + 1; } else { leaseLost := leaseLost + 1; }
        return;
      }
      var _ := PersistFailure(c, job, w, retryable);
      ghost var n := Counters();
      assert n.dead == Count(n, WasDead) && n.rescheduled == Count(n, WasRescheduled);
    }

    /** The loop over a claimed batch. */
    method ProcessAll(c: Config, batch: seq<Entry>, world: nat -> Happening)
      requires forall k :: 0 <= k < |batch| ==> Computable(c, batch[k], world(k))
      modifies this, table
      ensures claimErrors == old(claimErrors)
      ensures Tallied(c, batch, world, |batch|, old(Counters()), Counters())
    {
      for k := 0 to |batch|
        invariant claimErrors == old(claimErrors)
        invariant Tallied(c, batch, world, k, old(Counters()), Counters())
      {
        ghost var middle := Counters();
        Process(c, batch[k], world(k));
        TalliedStep(c, batch, world, k, old(Counters()), middle, Counters());
      }
    }

    /**
     * A disabled worker does nothing; a failed claim is one claim error; otherwise each
     * claimed job raises exactly one of the five counters.
     */
    method Tick(c: Config, now: int, claimThrows: bool, skipped: set<JobId>, base: Lease, world: nat -> Happening)
      returns (batch: seq<Entry>)
      requires WellFormed(c) && DelaysFit(c)
      modifies this, table
      ensures !c.enabled ==> batch == [] && table.rows == old(table.rows) && claimErrors == old(claimErrors)
      ensures c.enabled && (claimThrows || ToInt32(c.batchSize) < 0) ==>
                batch == [] && table.rows == old(table.rows) && claimErrors == old(claimErrors) + 1
      ensures c.enabled && !claimThrows && ToInt32(c.batchSize) >= 0 ==>
                |batch| <= ToInt32(c.batchSize) && claimErrors == old(claimErrors)
      ensures Claimable(old(table.rows), batch, now, ToInt32(c.maxAttempts), base)
      ensures c.enabled && !claimThrows && ToInt32(c.batchSize) >= 0 ==>
                forall id :: Candidate(old(table.rows), id, now, ToInt32(c.maxAttempts), skipped) && !InBatch(batch, id) ==>
                  |batch| == ToInt32(c.batchSize)
      ensures Tallied(c, batch, world, |batch|, old(Counters()), Counters())
      ensures Total(Counters()) == Total(old(Counters())) + |batch|
    {
      batch := [];
      if !c.enabled { return; }
      if claimThrows || ToInt32(c.batchSize) < 0 {
        claimErrors := claimErrors + 1;
        return;
      }
      batch := table.ClaimBatch(ToInt32(c.batchSize), now, now + c.stuckTimeout, ToInt32(c.maxAttempts), skipped, base);
      DelaysFitExactly(c);
      assert forall k :: 0 <= k < |batch| ==> DelayKnown(c, batch[k].attempts, Retryable(batch[k], world(k)));
      ProcessAll(c, batch, world);
      TalliedTotal(c, batch, world, old(Counters()), Counters());
    }
  }
}
