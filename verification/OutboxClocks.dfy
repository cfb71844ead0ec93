/** How far a worker's clock may step back before two leases on one job overlap. */
module OutboxClocks {
  import opened Common
  import Runs
  import opened RetryPolicy
  import opened Outbox
  import opened OutboxProtocol
  import opened OutboxTheorems

  const JOB := "job"

  /** Leases stay disjoint in every reachable state whose clocks never fell behind by more than the drift. */
  ghost predicate DisjointWithin(c: Config, drift: nat) {
    forall s :: Reachable(c, s) && s.behind <= drift ==> LeasesDisjoint(s)
  }

  lemma SmallDriftIsSafe(c: Config, drift: nat)
    requires WellFormed(c) && DriftOk(c, drift)
    ensures DisjointWithin(c, drift)
  {
    forall s | Reachable(c, s) && s.behind <= drift ensures LeasesDisjoint(s) {
      var run :| Runs.IsRun(Init(), Steps(c), run) && run[|run| - 1] == s;
      assert IsRun(c, run);
      LeaseInvHolds(c, run, |run| - 1);
    }
  }

  // ------------------------------------------------------------------ the overlapping run

  /** The job has been claimed once at time 0 and its worker has fallen silent. */
  ghost predicate ClaimedOnce(c: Config, s: State) {
    && Reachable(c, s) && s.behind == 0 && s.released == {}
    && JOB in s.rows && JOB in s.sends && JOB in s.sentOn
    && s.rows[JOB].status == Processing && s.rows[JOB].attempts == 1 && s.rows[JOB].nextAttemptAt == 0
    && s.rows[JOB].lockedUntil == Some(c.stuckTimeout)
    && s.log == map[0 := Record(JOB, 1, 0, c.stuckTimeout)]
  }

  /** Its second claim, made when the first lease ran out, is at work. */
  ghost predicate ClaimedTwice(c: Config, s: State, phase: Phase) {
    && Reachable(c, s) && s.behind == 0 && s.released == {}
    && JOB in s.rows && JOB in s.sends && JOB in s.sentOn
    && s.rows[JOB].status == Processing && s.rows[JOB].lease == Some(1) && s.rows[JOB].attempts == 2
    && 1 in s.tickets && s.tickets[1] == Ticket(JOB, 2, c.stuckTimeout, phase)
    && s.log.Keys == {0, 1} && s.log[0] == Record(JOB, 1, 0, c.stuckTimeout)
  }

  /** The second worker's clock stepped back before it reported its failure. */
  ghost predicate SteppedBack(c: Config, s: State, drift: nat) {
    && Reachable(c, s) && s.behind <= drift && 0 !in s.released
    && JOB in s.rows && s.rows[JOB].status == Pending && s.rows[JOB].attempts == 2 && s.rows[JOB].lockedUntil == None
    && s.rows[JOB].nextAttemptAt < c.stuckTimeout
    && s.log.Keys == {0, 1} && s.log[0] == Record(JOB, 1, 0, c.stuckTimeout)
  }

  lemma FirstClaim(c: Config) returns (s: State)
    requires ToInt32(c.maxAttempts) >= 3
    ensures ClaimedOnce(c, s)
  {
    LeadsNowhere(c, Init());
    var queued := Enqueue(JOB, "", "", "", 0);
    ReachStep(c, Init(), queued);
    s := Apply(c, Init(), queued);
    ReachStep(c, s, Claim(JOB, 0, 0));
    s := Apply(c, s, Claim(JOB, 0, 0));
  }

  lemma SecondClaim(c: Config, s: State) returns (s': State)
    requires WellFormed(c) && ToInt32(c.maxAttempts) >= 3 && ClaimedOnce(c, s)
    ensures ClaimedTwice(c, s', Unsent)
  {
    var step := Claim(JOB, 1, c.stuckTimeout);
    ReachStep(c, s, step);
    s' := Apply(c, s, step);
  }

  lemma SecondSendFails(c: Config, s: State) returns (s': State)
    requires ClaimedTwice(c, s, Unsent)
    ensures ClaimedTwice(c, s', Failed(true))
  {
    ReachStep(c, s, Send(1, Failed(true)));
    s' := Apply(c, s, Send(1, Failed(true)));
  }

  lemma LateReport(c: Config, s: State, drift: nat) returns (s': State)
    requires ClaimedTwice(c, s, Failed(true)) && c.maxAttempts >= 3
    requires RetryDelay(2, c.baseDelay, c.maxDelay).Some? && RetryDelay(2, c.baseDelay, c.maxDelay).value < drift
    ensures SteppedBack(c, s', drift)
  {
    var step := ReportFailure(1, c.stuckTimeout - drift, 0, "temporary");
    ReachStep(c, s, step);
    s' := Apply(c, s, step);
  }

  /** The third claim begins before the first lease has run out. */
  lemma ThirdClaim(c: Config, s: State, drift: nat) returns (s': State)
    requires SteppedBack(c, s, drift) && ToInt32(c.maxAttempts) >= 3
    ensures Reachable(c, s') && s'.behind <= drift && !LeasesDisjoint(s')
  {
    var step := Claim(JOB, 2, s.rows[JOB].nextAttemptAt);
    ReachStep(c, s, step);
    s' := Apply(c, s, step);
    assert !Disjoint(s', 0, 2);
  }

  /** Claim at 0, reclaim when the lease runs out, report a failure with a clock too far back, claim again at once. */
  lemma OverlappingRun(c: Config, drift: nat) returns (s: State)
    requires WellFormed(c) && !DriftOk(c, drift)
    ensures Reachable(c, s) && s.behind <= drift && !LeasesDisjoint(s)
  {
    s := FirstClaim(c);
    s := SecondClaim(c, s);
    s := SecondSendFails(c, s);
    s := LateReport(c, s, drift);
    s := ThirdClaim(c, s, drift);
  }

  /**
   * Leases on one job stay disjoint on every run in which no worker's clock falls behind
   * its own claim by more than the drift, exactly when the drift is at most the delay
   * after the second attempt.
   */
  lemma LeasesDisjointExactly(c: Config, drift: nat)
    requires WellFormed(c)
    ensures DisjointWithin(c, drift) <==> DriftOk(c, drift)
  {
    if DriftOk(c, drift) {
      SmallDriftIsSafe(c, drift);
    } else {
      var s := OverlappingRun(c, drift);
    }
  }

  /** With the default configuration clocks may step back by four seconds, and five are too many. */
  lemma DefaultDrift()
    ensures DisjointWithin(DEFAULTS, 4) && !DisjointWithin(DEFAULTS, 5)
  {
    assert Scale(2) == 2;
    assert RetryDelay(2, DEFAULTS.baseDelay, DEFAULTS.maxDelay) == Some(4);
    LeasesDisjointExactly(DEFAULTS, 4);
    LeasesDisjointExactly(DEFAULTS, 5);
  }
}
