/** Wrong guesses are counted, right ones act. */
module TokenGuesses {
  import opened Common
  import Runs
  import opened OneTimeTokens
  import opened TokenProtocol

  // ------------------------------------------------------------------ every miss counts

  /** A confirmation with a wrong code adds one to the counter of the token it looked up, if that is still open. */
  lemma MissIsCounted(hash: Hash, max: int, s: State, q: nat)
    requires Enabled(max, s, CommitConfirm(q)) && s.confirms[q].Missed?
    ensures var x, s' := s.confirms[q], Apply(hash, max, s, CommitConfirm(q));
            if x.id in s.rows && s.rows[x.id].usedAt.None? && x.now < s.rows[x.id].expiresAt && s.rows[x.id].attempts < max
            then s'.rows == s.rows[x.id := s.rows[x.id].(attempts := s.rows[x.id].attempts + 1)]
                 && s'.misses == s.misses + [Miss(x.id, x.user, x.code, x.now)]
            else s'.rows == s.rows && s'.misses == s.misses
  {
  }

  function MissesOf(misses: seq<Miss>, id: TokenId): nat {
    if misses == [] then 0
    else MissesOf(misses[..|misses| - 1], id) + (if misses[|misses| - 1].id == id then 1 else 0)
  }

  lemma MissesAppend(misses: seq<Miss>, m: Miss, id: TokenId)
    ensures MissesOf(misses + [m], id) == MissesOf(misses, id) + (if m.id == id then 1 else 0)
  {
    assert (misses + [m])[..|misses|] == misses;
  }

  /** Every counter says how often a wrong code was committed against its token while it was open. */
  ghost predicate Counted(s: State) {
    && (forall id :: id in s.rows ==> s.rows[id].attempts == MissesOf(s.misses, id))
    && (forall id :: id !in s.rows ==> MissesOf(s.misses, id) == 0)
  }

  lemma ConfirmKeepsCounted(hash: Hash, max: int, s: State, q: nat)
    requires Counted(s) && Enabled(max, s, CommitConfirm(q))
    ensures Counted(Apply(hash, max, s, CommitConfirm(q)))
  {
    var x, s' := s.confirms[q], Apply(hash, max, s, CommitConfirm(q));
    if x.Missed? {
      MissIsCounted(hash, max, s, q);
      forall id ensures MissesOf(s.misses + [Miss(x.id, x.user, x.code, x.now)], id) ==
                        MissesOf(s.misses, id) + (if x.id == id then 1 else 0)
      {
        MissesAppend(s.misses, Miss(x.id, x.user, x.code, x.now), id);
      }
    }
  }

  lemma OtherStepKeepsCounters(hash: Hash, max: int, s: State, step: Step, id: TokenId)
    requires Inv(max, s) && Enabled(max, s, step) && !step.CommitConfirm?
    ensures var s' := Apply(hash, max, s, step);
            && s'.misses == s.misses
            && (id in s.rows ==> id in s'.rows && s'.rows[id].attempts == s.rows[id].attempts)
            && (id in s'.rows && id !in s.rows ==> s'.rows[id].attempts == 0)
  {
    if step.CommitRequest? { assert RequestOk(s, step.r); }
  }

  lemma StepKeepsCounted(hash: Hash, max: int, s: State, step: Step)
    requires Inv(max, s) && Counted(s) && Enabled(max, s, step)
    ensures Counted(Apply(hash, max, s, step))
  {
    if step.CommitConfirm? {
      ConfirmKeepsCounted(hash, max, s, step.q);
    } else {
      var s' := Apply(hash, max, s, step);
      forall id ensures id in s'.rows ==> s'.rows[id].attempts == MissesOf(s'.misses, id) {
        OtherStepKeepsCounters(hash, max, s, step, id);
      }
      forall id ensures id !in s'.rows ==> MissesOf(s'.misses, id) == 0 {
        OtherStepKeepsCounters(hash, max, s, step, id);
      }
    }
  }

  lemma NextKeepsCounted(hash: Hash, max: int, s: State, s': State)
    requires Inv(max, s) && Counted(s) && Next(hash, max, s, s')
    ensures Inv(max, s') && Counted(s')
  {
    NextKeepsInv(hash, max, s, s');
    var step :| Enabled(max, s, step) && s' == Apply(hash, max, s, step);
    StepKeepsCounted(hash, max, s, step);
  }

  /** On every run each token's counter is the number of wrong codes committed against it while it was open. */
  lemma CounterIsMisses(hash: Hash, max: int, run: seq<State>, i: nat, id: TokenId)
    requires IsRun(hash, max, run) && i < |run| && id in run[i].rows
    ensures run[i].rows[id].attempts == MissesOf(run[i].misses, id)
  {
    InitInv(max);
    forall s, s' | Inv(max, s) && Counted(s) && Next(hash, max, s, s') ensures Inv(max, s') && Counted(s') {
      NextKeepsCounted(hash, max, s, s');
    }
    Runs.Invariant(Init(), Steps(hash, max), s => Inv(max, s) && Counted(s), run, i);
  }

  /** After as many counted wrong guesses as the maximum allows, the token never acts again, even with the right code. */
  lemma GuessedOutTokenNeverActs(hash: Hash, max: int, run: seq<State>, i: nat, j: nat, id: TokenId)
    requires IsRun(hash, max, run) && i <= j < |run| && id in run[i].rows && MissesOf(run[i].misses, id) >= max
    ensures Acted(run[j].effects, id) <==> Acted(run[i].effects, id)
  {
    CounterIsMisses(hash, max, run, i, id);
    ClosedTokenNeverActs(hash, max, run, i, j, id);
  }

  // ------------------------------------------------------------------ only wrong codes are misses

  ghost predicate Wrong(hash: Hash, rows: Table, id: TokenId, user: string, code: string) {
    id in rows && rows[id].hash != hash(user, code)
  }

  ghost predicate AllWrong(hash: Hash, s: State) {
    && (forall q :: q in s.confirms && s.confirms[q].Missed? ==>
          Wrong(hash, s.rows, s.confirms[q].id, s.confirms[q].user, s.confirms[q].code))
    && (forall m :: m in s.misses ==> Wrong(hash, s.rows, m.id, m.user, m.code))
  }

  lemma MissedOrigin(hash: Hash, max: int, s: State, step: Step, q: nat)
    requires Enabled(max, s, step) && q in Apply(hash, max, s, step).confirms
    ensures var s' := Apply(hash, max, s, step);
            || (q in s.confirms && s'.confirms[q] == s.confirms[q])
            || (s'.rows == s.rows && (var x := s'.confirms[q]; x.Missed? ==> Wrong(hash, s.rows, x.id, x.user, x.code)))
  {
  }

  lemma MissOrigin(hash: Hash, max: int, s: State, step: Step, m: Miss)
    requires Enabled(max, s, step) && m in Apply(hash, max, s, step).misses
    ensures m in s.misses ||
            (step.CommitConfirm? && (var x := s.confirms[step.q]; x.Missed? && m.id == x.id && m.user == x.user && m.code == x.code))
  {
  }

  lemma StepKeepsWrong(hash: Hash, max: int, s: State, step: Step)
    requires AllWrong(hash, s) && Enabled(max, s, step) && OpenUntilActed(max, s, Apply(hash, max, s, step))
    ensures AllWrong(hash, Apply(hash, max, s, step))
  {
    var s' := Apply(hash, max, s, step);
    forall q | q in s'.confirms && s'.confirms[q].Missed?
      ensures Wrong(hash, s'.rows, s'.confirms[q].id, s'.confirms[q].user, s'.confirms[q].code)
    {
      MissedOrigin(hash, max, s, step, q);
    }
    forall m | m in s'.misses ensures Wrong(hash, s'.rows, m.id, m.user, m.code) {
      MissOrigin(hash, max, s, step, m);
    }
  }

  lemma NextKeepsWrong(hash: Hash, max: int, s: State, s': State)
    requires Inv(max, s) && AllWrong(hash, s) && Next(hash, max, s, s')
    ensures Inv(max, s') && AllWrong(hash, s')
  {
    NextKeepsInv(hash, max, s, s');
    var step :| Enabled(max, s, step) && s' == Apply(hash, max, s, step);
    StepOpens(hash, max, s, step);
    StepKeepsWrong(hash, max, s, step);
  }

  /** On every run only codes that do not match the token are counted against it. */
  lemma MissesWereWrong(hash: Hash, max: int, run: seq<State>, i: nat, m: Miss)
    requires IsRun(hash, max, run) && i < |run| && m in run[i].misses
    ensures m.id in run[i].rows && run[i].rows[m.id].hash != hash(m.user, m.code)
  {
    InitInv(max);
    forall s, s' | Inv(max, s) && AllWrong(hash, s) && Next(hash, max, s, s') ensures Inv(max, s') && AllWrong(hash, s') {
      NextKeepsWrong(hash, max, s, s');
    }
    Runs.Invariant(Init(), Steps(hash, max), s => Inv(max, s) && AllWrong(hash, s), run, i);
  }

  // ------------------------------------------------------------------ a right code acts

  /** A user's open token is the one the lookup finds: the index leaves no other. */
  lemma OpenTokenIsFound(max: int, s: State, id: TokenId, now: int)
    requires Inv(max, s) && id in s.rows
    requires s.rows[id].usedAt.None? && now < s.rows[id].expiresAt && s.rows[id].attempts < max
    ensures IsNewestActive(s.rows, id, s.rows[id].user, now, max)
  {
  }

  /** Whoever presents the right code of an open token, undisturbed, changes the account, and the token is used up. */
  lemma RightCodeActs(hash: Hash, max: int, s: State, id: TokenId, code: string, value: string, now: int, q: nat)
    requires Inv(max, s) && id in s.rows && q !in s.confirms && !RowLocked(s, id)
    requires s.rows[id].usedAt.None? && now < s.rows[id].expiresAt && s.rows[id].attempts < max
    requires s.rows[id].hash == hash(s.rows[id].user, code)
    ensures var user := s.rows[id].user;
            && Enabled(max, s, Read(q, user, id, code, value, now))
            && var s1 := Apply(hash, max, s, Read(q, user, id, code, value, now));
               && Enabled(max, s1, CommitConfirm(q))
               && var s2 := Apply(hash, max, s1, CommitConfirm(q));
                  && s2.effects == s.effects + [Effect(id, user, value, code, now)]
                  && s2.rows == s.rows[id := s.rows[id].(usedAt := Some(now))]
  {
    OpenTokenIsFound(max, s, id, now);
    var s1 := Apply(hash, max, s, Read(q, s.rows[id].user, id, code, value, now));
    assert s1.requests == s.requests;
    assert RowLocked(s1, id) <==> RowLocked(s, id);
  }

  // ------------------------------------------------------------------ a fresh code acts

  /** Nobody holds a row of a user whose requests are all still waiting or gone. */
  lemma NotLocked(max: int, s: State, id: TokenId)
    requires Inv(max, s) && id in s.rows
    requires forall r :: r in s.requests && s.requests[r].user == s.rows[id].user ==> s.requests[r].Waiting?
    ensures !RowLocked(s, id)
  {
    forall r | r in s.requests ensures id !in RowLocks(s.requests[r]) {
      assert RequestOk(s, r);
    }
  }

  /** A sign-up stores the token it was given, in a row nobody else touches. */
  lemma SignUpStores(hash: Hash, max: int, s: State, step: Step)
    requires Inv(max, s) && Enabled(max, s, step) && step.SignUp? && step.first.Some?
    ensures var s' := Apply(hash, max, s, step);
            s'.rows == s.rows[step.id := step.first.value] && !RowLocked(s', step.id) && s'.confirms == s.confirms
  {
    var s' := Apply(hash, max, s, step);
    StepKeepsInv(hash, max, s, step);
    NotLocked(max, s', step.id);
  }

  /** A request stores the token it made, and whoever else waits for the user's lock has not touched it. */
  lemma RequestStores(hash: Hash, max: int, s: State, r: nat)
    requires Inv(max, s) && Enabled(max, s, CommitRequest(r))
    ensures var x, s' := s.requests[r], Apply(hash, max, s, CommitRequest(r));
            x.id in s'.rows && s'.rows[x.id] == x.row && !RowLocked(s', x.id) && s'.confirms == s.confirms
  {
    var x, s' := s.requests[r], Apply(hash, max, s, CommitRequest(r));
    assert RequestOk(s, r);
    CommitRequestKeepsInv(hash, max, s, r);
    NotLocked(max, s', x.id);
  }

  /** The row a request inserts carries its user, the hash it was given and its own lifetime. */
  lemma InsertMakes(hash: Hash, max: int, s: State, r: nat, id: TokenId, h: string, ttl: int)
    requires Inv(max, s) && Enabled(max, s, Insert(r, id, h, ttl))
    ensures var x, s' := s.requests[r], Apply(hash, max, s, Insert(r, id, h, ttl));
            && r in s'.requests && s'.requests[r].Inserted? && s'.requests[r].user == x.user && s'.requests[r].id == id
            && s'.requests[r].row == Token(x.user, h, x.now, x.now + ttl, None, 0)
  {
    LockPreventsConflict(max, s, r);
  }

  /** The code of a token made at sign-up changes the account once it is presented in time. */
  lemma SignUpCodeActs(hash: Hash, max: int, s: State, step: Step, code: string, value: string, now: int, q: nat) returns (s': State)
    requires Inv(max, s) && Enabled(max, s, step) && step.SignUp? && step.first.Some? && q !in s.confirms
    requires step.first.value.hash == hash(step.user, code) && now < step.first.value.expiresAt && max > 0
    ensures s'.effects == s.effects + [Effect(step.id, step.user, value, code, now)]
    ensures var s1 := Apply(hash, max, s, step);
            && Enabled(max, s1, Read(q, step.user, step.id, code, value, now))
            && var s2 := Apply(hash, max, s1, Read(q, step.user, step.id, code, value, now));
               Enabled(max, s2, CommitConfirm(q)) && s' == Apply(hash, max, s2, CommitConfirm(q))
  {
    var s1 := Apply(hash, max, s, step);
    StepKeepsInv(hash, max, s, step);
    SignUpStores(hash, max, s, step);
    RightCodeActs(hash, max, s1, step.id, code, value, now, q);
    s' := Apply(hash, max, Apply(hash, max, s1, Read(q, step.user, step.id, code, value, now)), CommitConfirm(q));
  }

  /** So does the code of a token made by a request, whatever else is in flight. */
  lemma RequestedCodeActs(hash: Hash, max: int, s: State, r: nat, code: string, value: string, now: int, q: nat) returns (s': State)
    requires Inv(max, s) && Enabled(max, s, CommitRequest(r)) && q !in s.confirms
    requires s.requests[r].row.hash == hash(s.requests[r].user, code) && now < s.requests[r].row.expiresAt && max > 0
    ensures var x := s.requests[r];
            && s'.effects == s.effects + [Effect(x.id, x.user, value, code, now)]
            && var s1 := Apply(hash, max, s, CommitRequest(r));
               && Enabled(max, s1, Read(q, x.user, x.id, code, value, now))
               && var s2 := Apply(hash, max, s1, Read(q, x.user, x.id, code, value, now));
                  Enabled(max, s2, CommitConfirm(q)) && s' == Apply(hash, max, s2, CommitConfirm(q))
  {
    var x, s1 := s.requests[r], Apply(hash, max, s, CommitRequest(r));
    assert RequestOk(s, r);
    CommitRequestKeepsInv(hash, max, s, r);
    RequestStores(hash, max, s, r);
    RightCodeActs(hash, max, s1, x.id, code, value, now, q);
    s' := Apply(hash, max, Apply(hash, max, s1, Read(q, x.user, x.id, code, value, now)), CommitConfirm(q));
  }
}
