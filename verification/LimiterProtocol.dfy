/**
 * Concurrent limiter transactions.  A transaction captures its timestamp, takes its
 * advisory locks one at a time, counts and conditionally inserts, and commits or aborts;
 * its row becomes visible to others when it commits, and its locks are then released.
 * The lock of a scope is the 64-bit hash of its key text; the hash is a parameter.
 */
module LimiterProtocol {
  import opened RateLimiter
  import Runs

  type TxId = nat
  type Lock = int
  type Hash = string -> Lock

  datatype Tx = Tx(attempt: Attempt, got: nat, inserted: bool)

  datatype State = State(committed: seq<Attempt>, txs: map<TxId, Tx>, holder: map<Lock, TxId>)

  datatype Step =
    | Begin(t: TxId, a: Attempt)
    | Acquire(t: TxId)
    | Record(t: TxId)
    | Commit(t: TxId)
    | Abort(t: TxId)

  function LockOf(h: Hash, s: Scope): Lock {
    h(KeyText(s))
  }

  function Init(): State {
    State([], map[], map[])
  }

  /** The lock the transaction asks for next; only while it still has one to take. */
  predicate Acquiring(x: Tx) {
    x.got < |ScopesOf(x.attempt)|
  }

  function NextLock(h: Hash, x: Tx): Lock
    requires Acquiring(x)
  {
    LockOf(h, ScopesOf(x.attempt)[x.got])
  }

  function End(s: State, t: TxId): State {
    s.(txs := s.txs - {t}, holder := map l | l in s.holder && s.holder[l] != t :: s.holder[l])
  }

  predicate Enabled(h: Hash, s: State, step: Step) {
    match step
    case Begin(t, _) => t !in s.txs
    case Acquire(t) =>
      && t in s.txs && Acquiring(s.txs[t])
      && (var l := NextLock(h, s.txs[t]); l in s.holder ==> s.holder[l] == t)
    case Record(t) => t in s.txs && !Acquiring(s.txs[t]) && !s.txs[t].inserted
    case Commit(t) => t in s.txs && s.txs[t].inserted
    case Abort(t) => t in s.txs
  }

  function Apply(h: Hash, p: Policy, s: State, step: Step): State
    requires Enabled(h, s, step)
  {
    match step
    case Begin(t, a) => s.(txs := s.txs[t := Tx(a, 0, false)])
    case Acquire(t) =>
      var x := s.txs[t];
      s.(txs := s.txs[t := x.(got := x.got + 1)], holder := s.holder[NextLock(h, x) := t])
    case Record(t) =>
      // The count sees every committed row; a refused attempt throws and rolls back.
      if Admits(p, s.committed, s.txs[t].attempt)
      then s.(txs := s.txs[t := s.txs[t].(inserted := true)])
      else End(s, t)
    case Commit(t) => End(s, t).(committed := s.committed + [s.txs[t].attempt])
    case Abort(t) => End(s, t)
  }

  ghost predicate Next(h: Hash, p: Policy, s: State, s': State) {
    exists step :: Enabled(h, s, step) && s' == Apply(h, p, s, step)
  }

  ghost function Steps(h: Hash, p: Policy): (State, State) -> bool {
    (s, s') => Next(h, p, s, s')
  }

  ghost predicate IsRun(h: Hash, p: Policy, run: seq<State>) {
    Runs.IsRun(Init(), Steps(h, p), run)
  }

  ghost predicate Reachable(h: Hash, p: Policy, s: State) {
    exists run :: IsRun(h, p, run) && run[|run| - 1] == s
  }

  // ------------------------------------------------------------------ the invariant

  /** Has the transaction already taken this lock? */
  ghost predicate Took(h: Hash, x: Tx, l: Lock) {
    exists i :: 0 <= i < x.got && i < |ScopesOf(x.attempt)| && LockOf(h, ScopesOf(x.attempt)[i]) == l
  }

  ghost predicate OwnsWhatItTook(h: Hash, s: State, t: TxId)
    requires t in s.txs
  {
    forall l :: Took(h, s.txs[t], l) ==> l in s.holder && s.holder[l] == t
  }

  ghost predicate TakenByOwner(h: Hash, s: State, l: Lock)
    requires l in s.holder
  {
    s.holder[l] in s.txs && Took(h, s.txs[s.holder[l]], l)
  }

  /** Lock bookkeeping: a transaction owns exactly the locks it has taken so far. */
  ghost predicate LocksInv(h: Hash, s: State) {
    && (forall t :: t in s.txs ==>
          && s.txs[t].got <= |ScopesOf(s.txs[t].attempt)|
          && (s.txs[t].inserted ==> !Acquiring(s.txs[t])))
    && (forall t :: t in s.txs ==> OwnsWhatItTook(h, s, t))
    && (forall l :: l in s.holder ==> TakenByOwner(h, s, l))
  }

  ghost predicate Inv(h: Hash, p: Policy, s: State) {
    && LocksInv(h, s)
    && (forall t :: t in s.txs && s.txs[t].inserted ==> Admits(p, s.committed, s.txs[t].attempt))
    && WindowBound(p, s.committed)
  }

  lemma TookAfterAcquire(h: Hash, x: Tx, l: Lock)
    requires Acquiring(x)
    ensures Took(h, x.(got := x.got + 1), l) <==> Took(h, x, l) || l == NextLock(h, x)
  {
    var x' := x.(got := x.got + 1);
    if Took(h, x, l) {
      var i :| 0 <= i < x.got && i < |ScopesOf(x.attempt)| && LockOf(h, ScopesOf(x.attempt)[i]) == l;
      assert LockOf(h, ScopesOf(x'.attempt)[i]) == l;
    }
    if l == NextLock(h, x) {
      assert LockOf(h, ScopesOf(x'.attempt)[x.got]) == l;
    }
  }

  /** Any change that leaves what everyone took and who holds what alone. */
  lemma LocksInvFrame(h: Hash, s: State, s': State)
    requires LocksInv(h, s)
    requires s'.holder == s.holder && s'.txs.Keys == s.txs.Keys
    requires forall t :: t in s.txs ==>
               && s'.txs[t].attempt == s.txs[t].attempt && s'.txs[t].got == s.txs[t].got
               && (s'.txs[t].inserted ==> !Acquiring(s'.txs[t]))
    ensures LocksInv(h, s')
  {
    forall t | t in s.txs ensures OwnsWhatItTook(h, s', t) {
      assert OwnsWhatItTook(h, s, t);
      forall l ensures Took(h, s'.txs[t], l) <==> Took(h, s.txs[t], l) { }
    }
    forall l | l in s'.holder ensures TakenByOwner(h, s', l) {
      assert TakenByOwner(h, s, l);
    }
  }

  lemma LocksInvBegin(h: Hash, s: State, t: TxId, a: Attempt)
    requires LocksInv(h, s) && t !in s.txs
    ensures LocksInv(h, s.(txs := s.txs[t := Tx(a, 0, false)]))
  {
    var s' := s.(txs := s.txs[t := Tx(a, 0, false)]);
    forall u | u in s'.txs ensures OwnsWhatItTook(h, s', u) {
      if u != t { assert OwnsWhatItTook(h, s, u); }
    }
    forall l | l in s'.holder ensures TakenByOwner(h, s', l) {
      assert TakenByOwner(h, s, l);
    }
  }

  lemma LocksInvAcquire(h: Hash, p: Policy, s: State, t: TxId)
    requires LocksInv(h, s) && Enabled(h, s, Acquire(t))
    ensures LocksInv(h, Apply(h, p, s, Acquire(t)))
  {
    var s' := Apply(h, p, s, Acquire(t));
    var x := s.txs[t];
    forall u | u in s'.txs ensures OwnsWhatItTook(h, s', u) {
      assert OwnsWhatItTook(h, s, u);
      forall l | Took(h, s'.txs[u], l) ensures l in s'.holder && s'.holder[l] == u {
        if u == t { TookAfterAcquire(h, x, l); }
      }
    }
    forall l | l in s'.holder ensures TakenByOwner(h, s', l) {
      TookAfterAcquire(h, x, l);
      if l != NextLock(h, x) { assert TakenByOwner(h, s, l); }
    }
  }

  lemma LocksInvEnd(h: Hash, s: State, t: TxId)
    requires LocksInv(h, s) && t in s.txs
    ensures LocksInv(h, End(s, t))
  {
    var s' := End(s, t);
    forall u | u in s'.txs ensures OwnsWhatItTook(h, s', u) {
      assert OwnsWhatItTook(h, s, u);
    }
    forall l | l in s'.holder ensures TakenByOwner(h, s', l) {
      assert TakenByOwner(h, s, l);
    }
  }

  lemma LocksInvPreserved(h: Hash, p: Policy, s: State, step: Step)
    requires LocksInv(h, s) && Enabled(h, s, step)
    ensures LocksInv(h, Apply(h, p, s, step))
  {
    match step {
      case Begin(t, a) => LocksInvBegin(h, s, t, a);
      case Acquire(t) => LocksInvAcquire(h, p, s, t);
      case Record(t) =>
        if Admits(p, s.committed, s.txs[t].attempt) {
          LocksInvFrame(h, s, Apply(h, p, s, step));
        } else {
          LocksInvEnd(h, s, t);
        }
      case Commit(t) =>
        LocksInvEnd(h, s, t);
        LocksInvFrame(h, End(s, t), Apply(h, p, s, step));
      case Abort(t) => LocksInvEnd(h, s, t);
    }
  }

  /** Two transactions past their lock phase never share a scope: neither count can miss the other's row. */
  lemma MutualExclusion(h: Hash, s: State, t: TxId, u: TxId, scope: Scope)
    requires LocksInv(h, s)
    requires t in s.txs && u in s.txs && t != u
    requires !Acquiring(s.txs[t]) && !Acquiring(s.txs[u])
    ensures !(Matches(s.txs[t].attempt, scope) && Matches(s.txs[u].attempt, scope))
  {
    MatchingScopeIsLocked(h, s.txs[t], scope);
    MatchingScopeIsLocked(h, s.txs[u], scope);
    assert OwnsWhatItTook(h, s, t) && OwnsWhatItTook(h, s, u);
  }

  lemma MatchingScopeIsLocked(h: Hash, x: Tx, scope: Scope)
    requires !Acquiring(x)
    ensures Matches(x.attempt, scope) ==> Took(h, x, LockOf(h, scope))
  {
    ScopesAreTheMatchingOnes(x.attempt, scope);
    if Matches(x.attempt, scope) {
      var i :| 0 <= i < |ScopesOf(x.attempt)| && ScopesOf(x.attempt)[i] == scope;
      assert LockOf(h, ScopesOf(x.attempt)[i]) == LockOf(h, scope);
    }
  }

  /** A commit cannot invalidate the count another inserted transaction has already made. */
  lemma CommitKeepsOtherCounts(h: Hash, p: Policy, s: State, t: TxId, u: TxId)
    requires LocksInv(h, s)
    requires t in s.txs && u in s.txs && t != u && s.txs[t].inserted && s.txs[u].inserted
    requires Admits(p, s.committed, s.txs[u].attempt)
    ensures Admits(p, s.committed + [s.txs[t].attempt], s.txs[u].attempt)
  {
    var a, b := s.txs[t].attempt, s.txs[u].attempt;
    AdmitsEveryScope(p, s.committed, b);
    AdmitsEveryScope(p, s.committed + [a], b);
    forall scope | scope in ScopesOf(b)
      ensures CountSince(s.committed + [a], scope, b.at - p.window) == CountSince(s.committed, scope, b.at - p.window)
    {
      ScopesAreTheMatchingOnes(b, scope);
      MutualExclusion(h, s, t, u, scope);
      CountSinceAppend(s.committed, a, scope, b.at - p.window);
    }
  }

  lemma InvPreserved(h: Hash, p: Policy, s: State, step: Step)
    requires Inv(h, p, s) && Enabled(h, s, step)
    ensures Inv(h, p, Apply(h, p, s, step))
  {
    LocksInvPreserved(h, p, s, step);
    if step.Commit? {
      AdmittedKeepsWindowBound(p, s.committed, s.txs[step.t].attempt);
      forall u | u in s.txs && u != step.t && s.txs[u].inserted
        ensures Admits(p, s.committed + [s.txs[step.t].attempt], s.txs[u].attempt)
      {
        CommitKeepsOtherCounts(h, p, s, step.t, u);
      }
    }
  }

  lemma InitInv(h: Hash, p: Policy)
    ensures Inv(h, p, Init())
  {
  }

  lemma NextKeepsInv(h: Hash, p: Policy, s: State, s': State)
    requires Inv(h, p, s) && Next(h, p, s, s')
    ensures Inv(h, p, s')
  {
    var step :| Enabled(h, s, step) && s' == Apply(h, p, s, step);
    InvPreserved(h, p, s, step);
  }

  lemma InvHolds(h: Hash, p: Policy, run: seq<State>, i: nat)
    requires IsRun(h, p, run) && i < |run|
    ensures Inv(h, p, run[i])
  {
    InitInv(h, p);
    forall s, s' | Inv(h, p, s) && Next(h, p, s, s') ensures Inv(h, p, s') { NextKeepsInv(h, p, s, s'); }
    Runs.Invariant(Init(), Steps(h, p), s => Inv(h, p, s), run, i);
  }

  lemma ReachableInv(h: Hash, p: Policy, s: State)
    requires Reachable(h, p, s)
    ensures Inv(h, p, s)
  {
    var run :| IsRun(h, p, run) && run[|run| - 1] == s;
    InvHolds(h, p, run, |run| - 1);
  }

  /** On every run two transactions between their count and their commit never share a scope. */
  lemma CountsNeverOverlap(h: Hash, p: Policy, run: seq<State>, i: nat, t: TxId, u: TxId, scope: Scope)
    requires IsRun(h, p, run) && i < |run|
    requires t in run[i].txs && u in run[i].txs && run[i].txs[t].inserted && run[i].txs[u].inserted
    requires Matches(run[i].txs[t].attempt, scope) && Matches(run[i].txs[u].attempt, scope)
    ensures t == u
  {
    InvHolds(h, p, run, i);
    if t != u { MutualExclusion(h, run[i], t, u, scope); }
  }

  /**
   * The limiter's promise, for every hash and every interleaving: in every reachable
   * state each closed interval of one window length holds at most `limit` committed
   * attempts of every limited scope.
   */
  lemma WindowBoundOnEveryRun(h: Hash, p: Policy, run: seq<State>, i: nat, scope: Scope, lo: int)
    requires IsRun(h, p, run) && i < |run| && LimitOf(p, scope) > 0
    ensures CountWithin(run[i].committed, scope, lo, p.window) <= LimitOf(p, scope)
  {
    InvHolds(h, p, run, i);
  }

  /**
   * The same said of the rows themselves: on every run, no closed interval of one window
   * length holds more committed rows of one identifier, whatever its case, of one user or
   * of one address than the limit that is set for it.
   */
  lemma AtMostLimitInAnyWindow(h: Hash, p: Policy, run: seq<State>, i: nat, name: string, user: string, ip: string, lo: int)
    requires IsRun(h, p, run) && i < |run| && user != "" && ip != ""
    ensures var rows := run[i].committed;
            && (p.perIdentifier > 0 ==>
                  |set k | 0 <= k < |rows| && SameUpToCase(rows[k].identifier, name) && lo <= rows[k].at <= lo + p.window| <= p.perIdentifier)
            && (p.perUser > 0 ==>
                  |set k | 0 <= k < |rows| && rows[k].user == user && lo <= rows[k].at <= lo + p.window| <= p.perUser)
            && (p.perIp > 0 ==>
                  |set k | 0 <= k < |rows| && rows[k].ip == ip && lo <= rows[k].at <= lo + p.window| <= p.perIp)
  {
    var rows := run[i].committed;
    if p.perIdentifier > 0 {
      WindowBoundOnEveryRun(h, p, run, i, ByIdentifier(Lower(name)), lo);
      IdentifierWindow(rows, name, lo, p.window);
    }
    if p.perUser > 0 {
      WindowBoundOnEveryRun(h, p, run, i, ByUser(user), lo);
      UserWindow(rows, user, lo, p.window);
    }
    if p.perIp > 0 {
      WindowBoundOnEveryRun(h, p, run, i, ByIp(ip), lo);
      IpWindow(rows, ip, lo, p.window);
    }
  }

  lemma IdentifierWindow(rows: seq<Attempt>, name: string, lo: int, width: nat)
    ensures CountWithin(rows, ByIdentifier(Lower(name)), lo, width) ==
            |set k | 0 <= k < |rows| && SameUpToCase(rows[k].identifier, name) && lo <= rows[k].at <= lo + width|
  {
    var s := ByIdentifier(Lower(name));
    WithinIsCardinality(rows, s, lo, width);
    forall k | 0 <= k < |rows| ensures Matches(rows[k], s) <==> SameUpToCase(rows[k].identifier, name) {
      CaseDoesNotMatter(rows[k].identifier, name);
    }
    assert (set k | 0 <= k < |rows| && Matches(rows[k], s) && lo <= rows[k].at <= lo + width)
           == (set k | 0 <= k < |rows| && SameUpToCase(rows[k].identifier, name) && lo <= rows[k].at <= lo + width);
  }

  lemma UserWindow(rows: seq<Attempt>, user: string, lo: int, width: nat)
    requires user != ""
    ensures CountWithin(rows, ByUser(user), lo, width) ==
            |set k | 0 <= k < |rows| && rows[k].user == user && lo <= rows[k].at <= lo + width|
  {
    WithinIsCardinality(rows, ByUser(user), lo, width);
    assert (set k | 0 <= k < |rows| && Matches(rows[k], ByUser(user)) && lo <= rows[k].at <= lo + width)
           == (set k | 0 <= k < |rows| && rows[k].user == user && lo <= rows[k].at <= lo + width);
  }

  lemma IpWindow(rows: seq<Attempt>, ip: string, lo: int, width: nat)
    requires ip != ""
    ensures CountWithin(rows, ByIp(ip), lo, width) ==
            |set k | 0 <= k < |rows| && rows[k].ip == ip && lo <= rows[k].at <= lo + width|
  {
    WithinIsCardinality(rows, ByIp(ip), lo, width);
    assert (set k | 0 <= k < |rows| && Matches(rows[k], ByIp(ip)) && lo <= rows[k].at <= lo + width)
           == (set k | 0 <= k < |rows| && rows[k].ip == ip && lo <= rows[k].at <= lo + width);
  }

  // ------------------------------------------------------------------ nothing is lost or made up

  /** Only a commit adds to the table, and exactly its transaction's attempt. */
  lemma StepCommits(h: Hash, p: Policy, s: State, step: Step)
    requires Enabled(h, s, step)
    ensures Apply(h, p, s, step).committed ==
            if step.Commit? then s.committed + [s.txs[step.t].attempt] else s.committed
  {
  }

  /** Recorded attempts stay recorded, in their order. */
  lemma CommittedGrows(h: Hash, p: Policy, run: seq<State>, i: nat, j: nat)
    requires IsRun(h, p, run) && i <= j < |run|
    ensures run[i].committed <= run[j].committed
  {
    forall s, s' | Next(h, p, s, s') ensures s.committed <= s'.committed {
      var step :| Enabled(h, s, step) && s' == Apply(h, p, s, step);
      StepCommits(h, p, s, step);
    }
    Runs.Related(Init(), Steps(h, p), s => true, (s: State, s': State) => s.committed <= s'.committed, run, i, j);
  }

  ghost predicate BegunAt(h: Hash, p: Policy, run: seq<State>, i: int, t: TxId, a: Attempt) {
    0 <= i < |run| - 1 && t !in run[i].txs && run[i + 1] == Apply(h, p, run[i], Begin(t, a))
  }

  lemma StepOf(h: Hash, p: Policy, run: seq<State>, j: nat) returns (step: Step)
    requires IsRun(h, p, run) && 0 < j < |run|
    ensures Enabled(h, run[j - 1], step) && run[j] == Apply(h, p, run[j - 1], step)
  {
    assert Steps(h, p)(run[j - 1], run[j]);
    step :| Enabled(h, run[j - 1], step) && run[j] == Apply(h, p, run[j - 1], step);
  }

  lemma StepKeepsAttempts(h: Hash, p: Policy, s: State, step: Step, t: TxId)
    requires Enabled(h, s, step) && t in Apply(h, p, s, step).txs
    ensures var x := Apply(h, p, s, step).txs[t];
            if step.Begin? && step.t == t then x.attempt == step.a && t !in s.txs else t in s.txs && x.attempt == s.txs[t].attempt
  {
  }

  /** On every run an open transaction records the attempt it was begun with. */
  lemma {:induction false} OpenWereBegun(h: Hash, p: Policy, run: seq<State>, j: nat, t: TxId) returns (i: nat)
    requires IsRun(h, p, run) && j < |run| && t in run[j].txs
    ensures i < j && BegunAt(h, p, run, i, t, run[j].txs[t].attempt)
  {
    var step := StepOf(h, p, run, j);
    StepKeepsAttempts(h, p, run[j - 1], step, t);
    if step.Begin? && step.t == t {
      i := j - 1;
    } else {
      i := OpenWereBegun(h, p, run, j - 1, t);
    }
  }

  /** On every run each recorded attempt is one that some transaction was begun with. */
  lemma {:induction false} CommittedWereBegun(h: Hash, p: Policy, run: seq<State>, j: nat, k: nat) returns (i: nat, t: TxId)
    requires IsRun(h, p, run) && j < |run| && k < |run[j].committed|
    ensures i < j && BegunAt(h, p, run, i, t, run[j].committed[k])
  {
    var step := StepOf(h, p, run, j);
    StepCommits(h, p, run[j - 1], step);
    if k < |run[j - 1].committed| {
      i, t := CommittedWereBegun(h, p, run, j - 1, k);
    } else {
      t := step.t;
      i := OpenWereBegun(h, p, run, j - 1, t);
    }
  }

  /** Under its locks, the statement on the store is the record step, and its commit adds exactly the new row. */
  method RecordIsStep(table: AttemptTable, h: Hash, p: Policy, ghost s: State, t: TxId, a: Attempt) returns (recorded: bool)
    requires Enabled(h, s, Record(t)) && s.txs[t].attempt == a && table.rows == s.committed
    modifies table
    ensures recorded <==> t in Apply(h, p, s, Record(t)).txs
    ensures !recorded ==> table.rows == old(table.rows) == Apply(h, p, s, Record(t)).committed
    ensures recorded ==>
              var s1 := Apply(h, p, s, Record(t));
              && Enabled(h, s1, Commit(t)) && s1.committed == old(table.rows)
              && table.rows == old(table.rows) + [a] == Apply(h, p, s1, Commit(t)).committed
  {
    recorded := table.TryRecord(p, a);
  }
}
