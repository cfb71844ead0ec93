/**
 * Any number of workers over the outbox.  A claimed row gives its worker a ticket; the
 * worker sends, then reports the result under the lease of its ticket, or crashes.  A
 * ticket outlives its lease: the row may be claimed again once locked_until has passed.
 * A batch is claimed row by row, which only adds interleavings.
 */
module OutboxProtocol {
  import opened Common
  import Runs
  import opened RetryPolicy
  import opened Outbox

  datatype Phase = Unsent | Delivered | Failed(retryable: bool)

  datatype Ticket = Ticket(job: JobId, attempts: nat, claimedAt: int, phase: Phase)

  /** One entry per claim ever made: which job, which attempt, and the interval the lease covers. */
  datatype Record = Record(job: JobId, attempt: nat, claimedAt: int, until: int)

  /**
   * rows and tickets are the system; the rest is history: every lease ever given out, the
   * leases released by their holders, the attempts on which each job was handed to the
   * sender, how often it was, how many rows were claimed, and how far at most a worker's
   * clock was behind its own claim when it reported a failure.
   */
  datatype State = State(
    rows: Table, tickets: map<Lease, Ticket>,
    log: map<Lease, Record>, released: set<Lease>, sentOn: map<JobId, set<nat>>, sends: map<JobId, nat>, claims: nat,
    behind: nat)

  datatype Step =
    | Enqueue(id: JobId, toEmail: string, template: string, payload: string, now: int)
    | Claim(id: JobId, lease: Lease, now: int)
    | Send(lease: Lease, outcome: Phase)
    | BadPayload(lease: Lease)
    | ReportSent(lease: Lease, now: int)
    | ReportSentThrows(lease: Lease, applied: bool, now: int)
    | ReportFailure(lease: Lease, failureNow: int, now: int, error: string)
    | Vanish(lease: Lease)

  function Init(): State {
    State(map[], map[], map[], {}, map[], map[], 0, 0)
  }

  /** Applies a guarded update: only the current holder's write changes the row, and it releases the lease. */
  function Guarded(s: State, lease: Lease, row: Row): State
    requires lease in s.tickets
  {
    var job := s.tickets[lease].job;
    if Holds(s.rows, job, lease) then s.(rows := s.rows[job := row], released := s.released + {lease}) else s
  }

  function Discard(s: State, lease: Lease): State {
    s.(tickets := s.tickets - {lease})
  }

  function SetPhase(s: State, lease: Lease, phase: Phase): State
    requires lease in s.tickets
  {
    s.(tickets := s.tickets[lease := s.tickets[lease].(phase := phase)])
  }

  /** The row a failed attempt writes: dead or pending again, by the retry policy. */
  function FailureRow(c: Config, r: Row, t: Ticket, failureNow: int, now: int, error: string): Row
    requires t.phase.Failed? && DelayKnown(c, t.attempts, t.phase.retryable)
  {
    if ShouldMarkDead(t.attempts, c.maxAttempts, t.phase.retryable) then DeadRow(r, failureNow, error)
    else RescheduledRow(r, failureNow + RetryDelay(t.attempts, c.baseDelay, c.maxDelay).value, error, now)
  }

  function Max(a: nat, b: int): nat {
    if a < b then b else a
  }

  function RowOf(s: State, lease: Lease): Row
    requires lease in s.tickets && s.tickets[lease].job in s.rows
  {
    s.rows[s.tickets[lease].job]
  }

  predicate Enabled(c: Config, s: State, step: Step) {
    match step
    case Enqueue(id, _, _, _, _) => id !in s.rows
    case Claim(id, lease, now) =>
      id in s.rows && lease !in s.log && Eligible(s.rows[id], now, ToInt32(c.maxAttempts))
    case Send(lease, outcome) => HasTicket(s, lease) && s.tickets[lease].phase == Unsent && outcome != Unsent
    case BadPayload(lease) => HasTicket(s, lease) && s.tickets[lease].phase == Unsent
    case ReportSent(lease, _) => HasTicket(s, lease) && s.tickets[lease].phase == Delivered
    case ReportSentThrows(lease, _, _) => HasTicket(s, lease) && s.tickets[lease].phase == Delivered
    case ReportFailure(lease, _, _, _) =>
      && HasTicket(s, lease) && s.tickets[lease].phase.Failed?
      && DelayKnown(c, s.tickets[lease].attempts, s.tickets[lease].phase.retryable)
    case Vanish(lease) => HasTicket(s, lease)
  }

  predicate HasTicket(s: State, lease: Lease) {
    lease in s.tickets && s.tickets[lease].job in s.rows && s.tickets[lease].job in s.sends && s.tickets[lease].job in s.sentOn
  }

  function AfterClaim(c: Config, s: State, id: JobId, lease: Lease, now: int): State
    requires id in s.rows
  {
    var until := now + c.stuckTimeout;
    var row := Claimed(s.rows[id], lease, now, until);
    s.(rows := s.rows[id := row], tickets := s.tickets[lease := Ticket(id, row.attempts, now, Unsent)],
       log := s.log[lease := Record(id, row.attempts, now, until)], claims := s.claims + 1)
  }

  function Apply(c: Config, s: State, step: Step): State
    requires Enabled(c, s, step)
  {
    match step
    case Enqueue(id, toEmail, template, payload, now) =>
      s.(rows := s.rows[id := NewRow(toEmail, template, payload, now)], sentOn := s.sentOn[id := {}], sends := s.sends[id := 0])
    case Claim(id, lease, now) => AfterClaim(c, s, id, lease, now)
    case Send(lease, outcome) =>
      var t := s.tickets[lease];
      SetPhase(s, lease, outcome).(sends := s.sends[t.job := s.sends[t.job] + 1],
                                   sentOn := s.sentOn[t.job := s.sentOn[t.job] + {t.attempts}])
    case BadPayload(lease) => SetPhase(s, lease, Failed(false))
    case ReportSent(lease, now) => Discard(Guarded(s, lease, SentRow(RowOf(s, lease), now)), lease)
    case ReportSentThrows(lease, applied, now) =>
      SetPhase(if applied then Guarded(s, lease, SentRow(RowOf(s, lease), now)) else s, lease, Failed(true))
    case ReportFailure(lease, failureNow, now, error) =>
      Discard(Guarded(s, lease, FailureRow(c, RowOf(s, lease), s.tickets[lease], failureNow, now, error)), lease)
      .(behind := Max(s.behind, s.tickets[lease].claimedAt - failureNow))
    case Vanish(lease) => Discard(s, lease)
  }

  ghost predicate Next(c: Config, s: State, s': State) {
    exists step :: Enabled(c, s, step) && s' == Apply(c, s, step)
  }

  ghost function Steps(c: Config): (State, State) -> bool {
    (s, s') => Next(c, s, s')
  }

  ghost predicate IsRun(c: Config, run: seq<State>) {
    Runs.IsRun(Init(), Steps(c), run)
  }

  /** Some number of steps leads from one state to the other. */
  ghost predicate Leads(c: Config, s: State, s': State) {
    exists run :: Runs.IsRun(s, Steps(c), run) && run[|run| - 1] == s'
  }

  ghost predicate Reachable(c: Config, s: State) {
    Leads(c, Init(), s)
  }

  // ------------------------------------------------------------------ the invariant

  /** What the statements keep of a single row. */
  ghost predicate RowOk(c: Config, r: Row) {
    && LeaseCheck(r)
    && (r.status != Processing ==> r.lockedUntil.None?)
    && (r.attempts == 0 || r.attempts <= ToInt32(c.maxAttempts))
    && (r.status == Pending ==> r.attempts < c.maxAttempts)
    && (r.status == Pending && r.attempts > 0 ==> RetryDelay(r.attempts, c.baseDelay, c.maxDelay).Some?)
    && (Terminal(r) ==> r.payload == EMPTY_PAYLOAD)
  }

  /** The lease a row carries is the logged lease of its latest attempt, not yet released. */
  ghost predicate LeaseLogged(s: State, id: JobId)
    requires id in s.rows
  {
    var r := s.rows[id];
    r.lease.Some? && r.lockedUntil.Some? ==>
      && r.lease.value in s.log && r.lease.value !in s.released
      && var e := s.log[r.lease.value];
         e.job == id && e.attempt == r.attempts && e.until == r.lockedUntil.value
  }

  ghost predicate SendsOk(s: State, id: JobId)
    requires id in s.rows
  {
    && id in s.sends && id in s.sentOn
    && s.sends[id] == |s.sentOn[id]|
    && forall n :: n in s.sentOn[id] ==> 1 <= n <= s.rows[id].attempts
  }

  /** A logged claim names an attempt the job has had, and covers at least its own claim time. */
  ghost predicate RecordOk(s: State, lease: Lease)
    requires lease in s.log
  {
    var e := s.log[lease];
    e.job in s.rows && 1 <= e.attempt <= s.rows[e.job].attempts && e.claimedAt <= e.until
  }

  ghost predicate TicketOk(s: State, lease: Lease)
    requires lease in s.tickets
  {
    var t := s.tickets[lease];
    && lease in s.log
    && s.log[lease].job == t.job && s.log[lease].attempt == t.attempts && s.log[lease].claimedAt == t.claimedAt
    && (t.phase == Unsent ==> t.job in s.sentOn && t.attempts !in s.sentOn[t.job])
  }

  /** No attempt of a job is claimed twice. */
  ghost predicate AttemptsDiffer(log: map<Lease, Record>) {
    forall k, l :: k in log && l in log && k != l && log[k].job == log[l].job ==> log[k].attempt != log[l].attempt
  }

  ghost predicate Inv(c: Config, s: State) {
    && (forall id :: id in s.rows ==> RowOk(c, s.rows[id]) && LeaseLogged(s, id) && SendsOk(s, id))
    && (forall l :: l in s.log ==> RecordOk(s, l))
    && s.released <= s.log.Keys
    && AttemptsDiffer(s.log)
    && (forall l :: l in s.tickets ==> TicketOk(s, l))
  }

  // ------------------------------------------------------------------ each kind of step keeps it

  lemma EnqueueKeepsInv(c: Config, s: State, step: Step)
    requires WellFormed(c) && Inv(c, s) && Enabled(c, s, step) && step.Enqueue?
    ensures Inv(c, Apply(c, s, step))
  {
    var s' := Apply(c, s, step);
    forall id | id in s'.rows ensures RowOk(c, s'.rows[id]) && LeaseLogged(s', id) && SendsOk(s', id) {
      if id != step.id { assert RowOk(c, s.rows[id]) && LeaseLogged(s, id) && SendsOk(s, id); }
    }
    forall l | l in s'.log ensures RecordOk(s', l) {
      assert RecordOk(s, l);
    }
    forall l | l in s'.tickets ensures TicketOk(s', l) {
      assert TicketOk(s, l) && RecordOk(s, l);
    }
  }

  lemma ClaimKeepsInv(c: Config, s: State, step: Step)
    requires WellFormed(c) && Inv(c, s) && Enabled(c, s, step) && step.Claim?
    ensures Inv(c, Apply(c, s, step))
  {
    var s' := Apply(c, s, step);
    assert RowOk(c, s.rows[step.id]) && SendsOk(s, step.id);
    forall id | id in s'.rows ensures RowOk(c, s'.rows[id]) && LeaseLogged(s', id) && SendsOk(s', id) {
      assert RowOk(c, s.rows[id]) && LeaseLogged(s, id) && SendsOk(s, id);
    }
    forall l | l in s'.log ensures RecordOk(s', l) {
      if l != step.lease { assert RecordOk(s, l); }
    }
    forall l | l in s'.tickets ensures TicketOk(s', l) {
      if l != step.lease { assert TicketOk(s, l); }
    }
    forall k, l | k in s'.log && l in s'.log && k != l && s'.log[k].job == s'.log[l].job
      ensures s'.log[k].attempt != s'.log[l].attempt
    {
      if k != step.lease { assert RecordOk(s, k); }
      if l != step.lease { assert RecordOk(s, l); }
    }
  }

  lemma SendKeepsInv(c: Config, s: State, lease: Lease, outcome: Phase)
    requires Inv(c, s) && Enabled(c, s, Send(lease, outcome))
    ensures Inv(c, Apply(c, s, Send(lease, outcome)))
  {
    var s' := Apply(c, s, Send(lease, outcome));
    var t := s.tickets[lease];
    assert TicketOk(s, lease) && RecordOk(s, lease);
    forall id | id in s'.rows ensures RowOk(c, s'.rows[id]) && LeaseLogged(s', id) && SendsOk(s', id) {
      assert RowOk(c, s.rows[id]) && LeaseLogged(s, id) && SendsOk(s, id);
    }
    forall l | l in s'.log ensures RecordOk(s', l) {
      assert RecordOk(s, l);
    }
    forall l | l in s'.tickets ensures TicketOk(s', l) {
      assert TicketOk(s, l);
    }
  }

  /** Writing a row under the current lease: the row leaves Processing and the lease is spent. */
  lemma GuardedKeepsInv(c: Config, s: State, lease: Lease, row: Row)
    requires Inv(c, s) && lease in s.tickets && s.tickets[lease].job in s.rows
    requires Holds(s.rows, s.tickets[lease].job, lease) ==>
               RowOk(c, row) && row.lease.None? && row.attempts == RowOf(s, lease).attempts
    ensures Inv(c, Guarded(s, lease, row))
  {
    var s' := Guarded(s, lease, row);
    var job := s.tickets[lease].job;
    forall id | id in s'.rows ensures LeaseLogged(s', id) && SendsOk(s', id) {
      assert LeaseLogged(s, id) && SendsOk(s, id) && RowOk(c, s.rows[id]);
    }
    forall l | l in s'.log ensures RecordOk(s', l) {
      assert RecordOk(s, l);
    }
    forall l | l in s'.tickets ensures TicketOk(s', l) {
      assert TicketOk(s, l);
    }
  }

  lemma TicketsKeepInv(c: Config, s: State, s': State)
    requires Inv(c, s)
    requires s' == s.(tickets := s'.tickets, behind := s'.behind) && s'.tickets.Keys <= s.tickets.Keys
    requires forall l :: l in s'.tickets ==>
               s'.tickets[l] == s.tickets[l] || (s'.tickets[l] == s.tickets[l].(phase := s'.tickets[l].phase) && s'.tickets[l].phase != Unsent)
    ensures Inv(c, s')
  {
    forall id | id in s'.rows ensures LeaseLogged(s', id) && SendsOk(s', id) {
      assert LeaseLogged(s, id) && SendsOk(s, id);
    }
    forall l | l in s'.tickets ensures TicketOk(s', l) {
      assert TicketOk(s, l);
    }
  }

  /** The holder of the current lease knows the row's attempt count. */
  lemma HolderKnowsAttempts(c: Config, s: State, lease: Lease)
    requires Inv(c, s) && lease in s.tickets && Holds(s.rows, s.tickets[lease].job, lease)
    ensures s.tickets[lease].attempts == s.rows[s.tickets[lease].job].attempts
    ensures 1 <= s.tickets[lease].attempts
  {
    assert TicketOk(s, lease) && LeaseLogged(s, s.tickets[lease].job) && RecordOk(s, lease);
    assert RowOk(c, s.rows[s.tickets[lease].job]);
  }

  lemma SentRowOk(c: Config, r: Row, now: int)
    requires RowOk(c, r)
    ensures RowOk(c, SentRow(r, now))
  {
  }

  /** A failed attempt's row: rescheduled only while an attempt is left. */
  lemma FailureRowOk(c: Config, r: Row, t: Ticket, failureNow: int, now: int, error: string)
    requires RowOk(c, r) && t.phase.Failed? && DelayKnown(c, t.attempts, t.phase.retryable)
    requires t.attempts == r.attempts
    ensures RowOk(c, FailureRow(c, r, t, failureNow, now, error))
  {
  }

  lemma ReportSentKeepsInv(c: Config, s: State, step: Step)
    requires Inv(c, s) && Enabled(c, s, step) && (step.ReportSent? || step.ReportSentThrows?)
    ensures Inv(c, Apply(c, s, step))
  {
    var lease := step.lease;
    SentRowOk(c, RowOf(s, lease), step.now);
    var row := SentRow(RowOf(s, lease), step.now);
    GuardedKeepsInv(c, s, lease, row);
    if step.ReportSentThrows? && !step.applied {
      TicketsKeepInv(c, s, Apply(c, s, step));
    } else {
      TicketsKeepInv(c, Guarded(s, lease, row), Apply(c, s, step));
    }
  }

  lemma ReportFailureKeepsInv(c: Config, s: State, step: Step)
    requires Inv(c, s) && Enabled(c, s, step) && step.ReportFailure?
    ensures Inv(c, Apply(c, s, step))
  {
    var lease, t := step.lease, s.tickets[step.lease];
    var row := FailureRow(c, RowOf(s, lease), t, step.failureNow, step.now, step.error);
    if Holds(s.rows, t.job, lease) {
      HolderKnowsAttempts(c, s, lease);
      FailureRowOk(c, RowOf(s, lease), t, step.failureNow, step.now, step.error);
    }
    GuardedKeepsInv(c, s, lease, row);
    TicketsKeepInv(c, Guarded(s, lease, row), Apply(c, s, step));
  }

  lemma StepKeepsInv(c: Config, s: State, step: Step)
    requires WellFormed(c) && Inv(c, s) && Enabled(c, s, step)
    ensures Inv(c, Apply(c, s, step))
  {
    if step.Enqueue? { EnqueueKeepsInv(c, s, step); }
    else if step.Claim? { ClaimKeepsInv(c, s, step); }
    else if step.Send? { SendKeepsInv(c, s, step.lease, step.outcome); }
    else if step.BadPayload? || step.Vanish? { TicketsKeepInv(c, s, Apply(c, s, step)); }
    else if step.ReportFailure? { ReportFailureKeepsInv(c, s, step); }
    else { ReportSentKeepsInv(c, s, step); }
  }

  lemma NextKeepsInv(c: Config, s: State, s': State)
    requires WellFormed(c) && Inv(c, s) && Next(c, s, s')
    ensures Inv(c, s')
  {
    var step :| Enabled(c, s, step) && s' == Apply(c, s, step);
    StepKeepsInv(c, s, step);
  }

  lemma InvHolds(c: Config, run: seq<State>, i: nat)
    requires WellFormed(c) && IsRun(c, run) && i < |run|
    ensures Inv(c, run[i])
  {
    forall s, s' | Inv(c, s) && Next(c, s, s') ensures Inv(c, s') { NextKeepsInv(c, s, s'); }
    Runs.Invariant(Init(), Steps(c), s => Inv(c, s), run, i);
  }

  lemma ReachableInv(c: Config, s: State)
    requires WellFormed(c) && Reachable(c, s)
    ensures Inv(c, s)
  {
    var run :| Runs.IsRun(Init(), Steps(c), run) && run[|run| - 1] == s;
    assert IsRun(c, run);
    InvHolds(c, run, |run| - 1);
  }

  lemma LeadsNowhere(c: Config, s: State)
    ensures Leads(c, s, s)
  {
    assert Runs.IsRun(s, Steps(c), [s]);
  }

  lemma LeadsOn(c: Config, s: State, s1: State, step: Step)
    requires Leads(c, s, s1) && Enabled(c, s1, step)
    ensures Leads(c, s, Apply(c, s1, step))
  {
    var run :| Runs.IsRun(s, Steps(c), run) && run[|run| - 1] == s1;
    var s2 := Apply(c, s1, step);
    assert Next(c, s1, s2);
    Runs.Extend(s, Steps(c), run, s2);
    assert Runs.IsRun(s, Steps(c), run + [s2]);
  }

  lemma LeadsFurther(c: Config, s: State, s1: State, s2: State)
    requires Leads(c, s, s1) && Leads(c, s1, s2)
    ensures Leads(c, s, s2)
  {
    var run :| Runs.IsRun(s, Steps(c), run) && run[|run| - 1] == s1;
    var more :| Runs.IsRun(s1, Steps(c), more) && more[|more| - 1] == s2;
    Runs.Join(s, Steps(c), run, more);
  }

  lemma ReachStep(c: Config, s: State, step: Step)
    requires Reachable(c, s) && Enabled(c, s, step)
    ensures Reachable(c, Apply(c, s, step))
  {
    LeadsOn(c, Init(), s, step);
  }

  /** Every ticket of a reachable state can be acted on: the guards that mention the history exclude none. */
  lemma TicketUsable(c: Config, s: State, lease: Lease)
    requires WellFormed(c) && Reachable(c, s) && lease in s.tickets
    ensures HasTicket(s, lease)
  {
    ReachableInv(c, s);
    assert TicketOk(s, lease) && RecordOk(s, lease) && SendsOk(s, s.tickets[lease].job);
  }
}
