/** How many claims a run can make, and when a pending job can become unclaimable. */
module OutboxProgress {
  import opened Common
  import Runs
  import opened Powers
  import opened RetryPolicy
  import opened Outbox
  import opened OutboxProtocol

  // ------------------------------------------------------------------ the attempts still to come

  /** The attempts a row may still have: none once it is sent or dead. */
  function Left(r: Row, max: int): nat {
    if Terminal(r) || r.attempts >= max then 0 else max - r.attempts
  }

  ghost function LeftOver(ids: set<JobId>, rows: Table, max: int): nat
    requires ids <= rows.Keys
    decreases ids
  {
    if ids == {} then 0
    else
      var k :| k in ids;
      Left(rows[k], max) + LeftOver(ids - {k}, rows, max)
  }

  lemma {:induction false} LeftOverSplit(ids: set<JobId>, rows: Table, max: int, k: JobId)
    requires ids <= rows.Keys && k in ids
    ensures LeftOver(ids, rows, max) == Left(rows[k], max) + LeftOver(ids - {k}, rows, max)
    decreases ids
  {
    var c :| c in ids && LeftOver(ids, rows, max) == Left(rows[c], max) + LeftOver(ids - {c}, rows, max);
    if c != k {
      LeftOverSplit(ids - {c}, rows, max, k);
      LeftOverSplit(ids - {k}, rows, max, c);
      assert ids - {c} - {k} == ids - {k} - {c};
    }
  }

  lemma {:induction false} LeftOverFrame(ids: set<JobId>, rows: Table, rows': Table, max: int)
    requires ids <= rows.Keys && ids <= rows'.Keys
    requires forall id :: id in ids ==> rows'[id] == rows[id]
    ensures LeftOver(ids, rows', max) == LeftOver(ids, rows, max)
    decreases ids
  {
    if ids != {} {
      var k :| k in ids;
      LeftOverSplit(ids, rows, max, k);
      LeftOverSplit(ids, rows', max, k);
      LeftOverFrame(ids - {k}, rows, rows', max);
    }
  }

  /** Over the whole table. */
  ghost function Potential(s: State, max: int): nat {
    LeftOver(s.rows.Keys, s.rows, max)
  }

  lemma PotentialUpdate(rows: Table, id: JobId, row: Row, max: int)
    ensures LeftOver(rows[id := row].Keys, rows[id := row], max) ==
            Left(row, max) + LeftOver(rows.Keys - {id}, rows, max)
    ensures id in rows ==> LeftOver(rows.Keys, rows, max) == Left(rows[id], max) + LeftOver(rows.Keys - {id}, rows, max)
    ensures id !in rows ==> rows.Keys - {id} == rows.Keys
  {
    var rows' := rows[id := row];
    LeftOverSplit(rows'.Keys, rows', max, id);
    assert rows'.Keys - {id} == rows.Keys - {id};
    LeftOverFrame(rows.Keys - {id}, rows, rows', max);
    if id in rows { LeftOverSplit(rows.Keys, rows, max, id); }
  }

  lemma PotentialClaim(c: Config, s: State, step: Step)
    requires Enabled(c, s, step) && step.Claim?
    ensures Potential(Apply(c, s, step), ToInt32(c.maxAttempts)) + 1 == Potential(s, ToInt32(c.maxAttempts))
    ensures Apply(c, s, step).claims == s.claims + 1 && Apply(c, s, step).rows.Keys == s.rows.Keys
  {
    var row := Claimed(s.rows[step.id], step.lease, step.now, step.now + c.stuckTimeout);
    PotentialUpdate(s.rows, step.id, row, ToInt32(c.maxAttempts));
    assert Apply(c, s, step).rows == s.rows[step.id := row];
  }

  lemma InsertAddsOne(rows: Table, id: JobId, row: Row)
    requires id !in rows
    ensures |rows[id := row]| == |rows| + 1
  {
    assert rows[id := row].Keys == rows.Keys + {id};
    assert |rows[id := row].Keys| == |rows.Keys| + 1;
  }

  lemma PotentialEnqueue(c: Config, s: State, step: Step)
    requires Enabled(c, s, step) && step.Enqueue?
    ensures Potential(Apply(c, s, step), ToInt32(c.maxAttempts)) <= Potential(s, ToInt32(c.maxAttempts)) + c.maxAttempts
    ensures Apply(c, s, step).claims == s.claims && |Apply(c, s, step).rows| == |s.rows| + 1
  {
    var row := NewRow(step.toEmail, step.template, step.payload, step.now);
    PotentialUpdate(s.rows, step.id, row, ToInt32(c.maxAttempts));
    InsertAddsOne(s.rows, step.id, row);
  }

  /** Every other step writes at most one row, and never one with more attempts left. */
  lemma PotentialOther(c: Config, s: State, step: Step)
    requires Enabled(c, s, step) && !step.Claim? && !step.Enqueue?
    ensures Potential(Apply(c, s, step), ToInt32(c.maxAttempts)) <= Potential(s, ToInt32(c.maxAttempts))
    ensures Apply(c, s, step).claims == s.claims && Apply(c, s, step).rows.Keys == s.rows.Keys
  {
    var rows' := Apply(c, s, step).rows;
    if rows' != s.rows {
      var id := s.tickets[step.lease].job;
      assert rows' == s.rows[id := rows'[id]] && rows'[id].attempts == s.rows[id].attempts;
      PotentialUpdate(s.rows, id, rows'[id], ToInt32(c.maxAttempts));
    }
  }

  /** Each claimed row uses up one attempt; no other step but adding a job raises what is left. */
  lemma PotentialStep(c: Config, s: State, step: Step)
    requires Enabled(c, s, step)
    ensures var s', m := Apply(c, s, step), ToInt32(c.maxAttempts);
            && (step.Claim? ==> Potential(s', m) + 1 == Potential(s, m) && s'.claims == s.claims + 1)
            && (step.Enqueue? ==> Potential(s', m) <= Potential(s, m) + c.maxAttempts && |s'.rows| == |s.rows| + 1)
            && (!step.Claim? && !step.Enqueue? ==> Potential(s', m) <= Potential(s, m))
            && (!step.Claim? ==> s'.claims == s.claims)
            && (!step.Enqueue? ==> s'.rows.Keys == s.rows.Keys)
  {
    if step.Claim? { PotentialClaim(c, s, step); }
    else if step.Enqueue? { PotentialEnqueue(c, s, step); }
    else { PotentialOther(c, s, step); }
  }

  lemma SameKeysSameSize(a: Table, b: Table)
    requires a.Keys == b.Keys
    ensures |a| == |b|
  {
    assert |a.Keys| == |a| && |b.Keys| == |b|;
  }

  /** The arithmetic of one step: either a share is added, or nothing grows. */
  lemma BudgetKept(used: nat, jobs: nat, share: nat, used': nat, jobs': nat)
    requires used <= jobs * share
    requires (jobs' == jobs && used' <= used) || (jobs' == jobs + 1 && used' <= used + share)
    ensures used' <= jobs' * share
  {
    assert (jobs + 1) * share == jobs * share + share;
  }

  /** Claims made and attempts still to come. */
  ghost function Used(c: Config, s: State): nat {
    s.claims + Potential(s, ToInt32(c.maxAttempts))
  }

  lemma StepUses(c: Config, s: State, step: Step)
    requires Enabled(c, s, step)
    ensures var s' := Apply(c, s, step);
            || (|s'.rows| == |s.rows| && Used(c, s') <= Used(c, s))
            || (|s'.rows| == |s.rows| + 1 && Used(c, s') <= Used(c, s) + c.maxAttempts)
  {
    PotentialStep(c, s, step);
    if !step.Enqueue? { SameKeysSameSize(Apply(c, s, step).rows, s.rows); }
  }

  /** They never exceed max_attempts for every job ever enqueued. */
  ghost predicate WithinBudget(c: Config, s: State) {
    Used(c, s) <= |s.rows| * c.maxAttempts
  }

  lemma NextKeepsBudget(c: Config, s: State, s': State)
    requires WithinBudget(c, s) && Next(c, s, s')
    ensures WithinBudget(c, s')
  {
    var step :| Enabled(c, s, step) && s' == Apply(c, s, step);
    StepUses(c, s, step);
    BudgetKept(Used(c, s), |s.rows|, c.maxAttempts, Used(c, s'), |s'.rows|);
  }

  lemma ClaimsAreBounded(c: Config, run: seq<State>, i: nat)
    requires IsRun(c, run) && i < |run|
    ensures run[i].claims + Potential(run[i], ToInt32(c.maxAttempts)) <= |run[i].rows| * c.maxAttempts
  {
    assert WithinBudget(c, Init());
    forall s, s' | WithinBudget(c, s) && Next(c, s, s') ensures WithinBudget(c, s') { NextKeepsBudget(c, s, s'); }
    Runs.Invariant(Init(), Steps(c), s => WithinBudget(c, s), run, i);
  }

  // ------------------------------------------------------------------ stranded jobs

  /** Pending, yet no claim at any time will ever take it. */
  ghost predicate Stranded(c: Config, r: Row) {
    r.status == Pending && forall now: int :: !Eligible(r, now, ToInt32(c.maxAttempts))
  }

  ghost predicate NeverStrands(c: Config) {
    forall s: State, id: JobId :: Reachable(c, s) && id in s.rows ==> !Stranded(c, s.rows[id])
  }

  const JOB := "job"

  /** One job, pending after some failed attempts, with leases numbered by attempt. */
  ghost predicate FailedSoFar(s: State, attempts: nat) {
    && JOB in s.rows && JOB in s.sends && JOB in s.sentOn
    && s.rows[JOB].status == Pending && s.rows[JOB].attempts == attempts && s.rows[JOB].lockedUntil.None?
    && forall l :: l in s.log ==> l < attempts
  }

  /** The job is out under the lease of its latest attempt. */
  ghost predicate AttemptOpen(s: State, a: nat, now: int, phase: Phase) {
    && JOB in s.rows && JOB in s.sends && JOB in s.sentOn
    && s.rows[JOB].status == Processing && s.rows[JOB].lease == Some(a) && s.rows[JOB].attempts == a + 1
    && a in s.tickets && s.tickets[a] == Ticket(JOB, a + 1, now, phase)
    && forall l :: l in s.log ==> l <= a
  }

  lemma EnqueuedJob(c: Config) returns (s: State)
    ensures Reachable(c, s) && FailedSoFar(s, 0)
  {
    LeadsNowhere(c, Init());
    s := Apply(c, Init(), Enqueue(JOB, "", "", "", 0));
    ReachStep(c, Init(), Enqueue(JOB, "", "", "", 0));
  }

  lemma ClaimedOnce(c: Config, s: State, a: nat) returns (s': State)
    requires Reachable(c, s) && FailedSoFar(s, a) && a < ToInt32(c.maxAttempts)
    ensures Reachable(c, s') && AttemptOpen(s', a, s.rows[JOB].nextAttemptAt, Unsent)
  {
    var step := Claim(JOB, a, s.rows[JOB].nextAttemptAt);
    ReachStep(c, s, step);
    s' := Apply(c, s, step);
  }

  lemma FailedToSend(c: Config, s: State, a: nat, now: int) returns (s': State)
    requires Reachable(c, s) && AttemptOpen(s, a, now, Unsent)
    ensures Reachable(c, s') && AttemptOpen(s', a, now, Failed(true))
  {
    ReachStep(c, s, Send(a, Failed(true)));
    s' := Apply(c, s, Send(a, Failed(true)));
  }

  lemma PutBack(c: Config, s: State, a: nat, now: int) returns (s': State)
    requires Reachable(c, s) && AttemptOpen(s, a, now, Failed(true)) && a + 1 < c.maxAttempts
    requires RetryDelay(a + 1, c.baseDelay, c.maxDelay).Some?
    ensures Reachable(c, s') && FailedSoFar(s', a + 1)
  {
    ReachStep(c, s, ReportFailure(a, now, now, "temporary"));
    s' := Apply(c, s, ReportFailure(a, now, now, "temporary"));
  }

  /** One more retryable failure: claim, send, report. */
  lemma FailOnce(c: Config, s: State, a: nat) returns (s': State)
    requires RetryDelay(a + 1, c.baseDelay, c.maxDelay).Some?
    requires Reachable(c, s) && FailedSoFar(s, a) && a < ToInt32(c.maxAttempts) && a + 1 < c.maxAttempts
    ensures Reachable(c, s') && FailedSoFar(s', a + 1)
  {
    var now := s.rows[JOB].nextAttemptAt;
    var s1 := ClaimedOnce(c, s, a);
    var s2 := FailedToSend(c, s1, a, now);
    s' := PutBack(c, s2, a, now);
  }

  lemma {:induction false} FailTimes(c: Config, a: nat) returns (s: State)
    requires WellFormed(c)
    requires a > 0 ==> a <= ToInt32(c.maxAttempts) && a < c.maxAttempts && RetryDelay(a, c.baseDelay, c.maxDelay).Some?
    ensures Reachable(c, s) && FailedSoFar(s, a)
  {
    if a == 0 {
      s := EnqueuedJob(c);
    } else {
      DelayBounds(a - 1, a, c.baseDelay, c.maxDelay);
      var before := FailTimes(c, a - 1);
      s := FailOnce(c, before, a - 1);
    }
  }

  /** The two limits agree, or the delay that a stranded job would have been given is undefined. */
  predicate LimitsAgree(c: Config) {
    var limit := ToInt32(c.maxAttempts);
    c.maxAttempts <= INT32_MAX || (limit > 0 && RetryDelay(limit, c.baseDelay, c.maxDelay).None?)
  }

  lemma AgreeingLimitsNeverStrand(c: Config)
    requires WellFormed(c) && LimitsAgree(c)
    ensures NeverStrands(c)
  {
    forall s: State, id: JobId | Reachable(c, s) && id in s.rows ensures !Stranded(c, s.rows[id]) {
      ReachableInv(c, s);
      var r := s.rows[id];
      assert RowOk(c, r);
      assert r.status == Pending ==> Eligible(r, r.nextAttemptAt, ToInt32(c.maxAttempts));
    }
  }

  /**
   * The claim compares attempts with max_attempts cut down to 32 bits, the retry policy
   * with the full value.  No job is ever stranded exactly when the two agree, save for
   * delays so long that they overflow before they could strand it.
   */
  lemma NeverStrandsExactly(c: Config)
    requires WellFormed(c)
    ensures NeverStrands(c) <==> LimitsAgree(c)
  {
    if LimitsAgree(c) {
      AgreeingLimitsNeverStrand(c);
    } else {
      var m := ToInt32(c.maxAttempts);
      var s := FailTimes(c, if m > 0 then m else 0);
      assert Stranded(c, s.rows[JOB]);
    }
  }
}
