/**
 * Deadlock of the advisory-lock phase.  The scopes are locked in sorted key order, but
 * what is locked is the hash of the key, so the order of keys says nothing once two keys
 * collide.  This module states exactly which hashes make a deadlock impossible.
 */
module LimiterDeadlock {
  import opened RateLimiter
  import opened LimiterProtocol
  import Runs

  // ------------------------------------------------------------------ what a deadlock is

  ghost predicate Blocked(h: Hash, s: State, t: TxId)
    requires t in s.txs
  {
    && Acquiring(s.txs[t])
    && var l := NextLock(h, s.txs[t]);
       l in s.holder && s.holder[l] != t
  }

  /** A nonempty set of transactions each waiting for a lock held inside the set. */
  ghost predicate Deadlocked(h: Hash, s: State, D: set<TxId>) {
    && D != {}
    && D <= s.txs.Keys
    && forall t :: t in D ==> Blocked(h, s, t) && s.holder[NextLock(h, s.txs[t])] in D
  }

  ghost predicate DeadlockFree(h: Hash, p: Policy) {
    forall s, D :: Reachable(h, p, s) ==> !Deadlocked(h, s, D)
  }

  // ------------------------------------------------------------------ the condition on the hash

  ghost predicate LocksBeforeAt(h: Hash, l: Lock, m: Lock, a: Attempt, i: int, j: int) {
    0 <= i < j < |ScopesOf(a)| && LockOf(h, ScopesOf(a)[i]) == l && LockOf(h, ScopesOf(a)[j]) == m
  }

  /** Some attempt takes lock l before lock m. */
  ghost predicate LocksBefore(h: Hash, l: Lock, m: Lock) {
    exists a: Attempt, i: int, j: int :: LocksBeforeAt(h, l, m, a, i, j)
  }

  /** No two distinct locks are taken in both orders. */
  ghost predicate OrderConsistent(h: Hash) {
    forall l, m :: l != m && LocksBefore(h, l, m) ==> !LocksBefore(h, m, l)
  }

  function Gate(h: Hash, a: Attempt): Lock {
    LockOf(h, ScopesOf(a)[0])
  }

  /** Every attempt starts with the same lock, which then serialises everything. */
  ghost predicate SingleGate(h: Hash) {
    forall a, b :: Gate(h, a) == Gate(h, b)
  }

  // ------------------------------------------------------------------ levels rank the locks

  function Level(s: Scope): nat {
    match s
    case ByIdentifier(_) => 0
    case ByIp(_) => 1
    case ByUser(_) => 2
  }

  /** Scopes that some attempt has. */
  predicate Attainable(s: Scope) {
    if s.ByIdentifier? then Lower(s.text) == s.text else s.text != ""
  }

  lemma LowerIdempotent(t: string)
    ensures Lower(Lower(t)) == Lower(t)
  {
  }

  lemma LevelsIncrease(a: Attempt, i: int, j: int)
    requires 0 <= i < j < |ScopesOf(a)|
    ensures Level(ScopesOf(a)[i]) < Level(ScopesOf(a)[j])
    ensures Attainable(ScopesOf(a)[i]) && Attainable(ScopesOf(a)[j])
  {
    LowerIdempotent(a.identifier);
  }

  ghost predicate AtLevel(h: Hash, level: nat, l: Lock) {
    exists s :: Attainable(s) && Level(s) == level && LockOf(h, s) == l
  }

  ghost function MaxLevel(h: Hash, l: Lock): int {
    if AtLevel(h, 2, l) then 2 else if AtLevel(h, 1, l) then 1 else if AtLevel(h, 0, l) then 0 else -1
  }

  ghost function MinLevel(h: Hash, l: Lock): int {
    if AtLevel(h, 0, l) then 0 else if AtLevel(h, 1, l) then 1 else if AtLevel(h, 2, l) then 2 else 3
  }

  /** Strictly increasing along the order in which a consistent hash takes its locks. */
  ghost function Rank(h: Hash, l: Lock): int {
    4 * MaxLevel(h, l) + MinLevel(h, l)
  }

  /** An attempt with the two given scopes, preceded by the given identifier when neither is one. */
  function AttemptWith(gate: Scope, s1: Scope, s2: Scope): Attempt {
    if s1.ByIdentifier? then
      if s2.ByIp? then Attempt(s1.text, "", s2.text, 0) else Attempt(s1.text, s2.text, "", 0)
    else Attempt(gate.text, s2.text, s1.text, 0)
  }

  lemma AttemptWithScopes(gate: Scope, s1: Scope, s2: Scope)
    requires gate.ByIdentifier? && Attainable(gate) && Attainable(s1) && Attainable(s2)
    requires Level(s1) < Level(s2)
    ensures ScopesOf(AttemptWith(gate, s1, s2)) == if s1.ByIdentifier? then [s1, s2] else [gate, s1, s2]
  {
  }

  lemma LocksBeforeByLevel(h: Hash, l: Lock, m: Lock, i: nat, j: nat)
    requires AtLevel(h, i, l) && AtLevel(h, j, m) && i < j
    ensures LocksBefore(h, l, m)
  {
    var s1 :| Attainable(s1) && Level(s1) == i && LockOf(h, s1) == l;
    var s2 :| Attainable(s2) && Level(s2) == j && LockOf(h, s2) == m;
    var gate := ByIdentifier("");
    AttemptWithScopes(gate, s1, s2);
    var a := AttemptWith(gate, s1, s2);
    var k := if s1.ByIdentifier? then 0 else 1;
    assert LocksBeforeAt(h, l, m, a, k, k + 1);
  }

  lemma LevelsOfLocksBefore(h: Hash, l: Lock, m: Lock) returns (i: nat, j: nat)
    requires LocksBefore(h, l, m)
    ensures i < j <= 2 && AtLevel(h, i, l) && AtLevel(h, j, m)
  {
    var a, x, y :| LocksBeforeAt(h, l, m, a, x, y);
    LevelsIncrease(a, x, y);
    i, j := Level(ScopesOf(a)[x]), Level(ScopesOf(a)[y]);
  }

  lemma RankIncreases(h: Hash, l: Lock, m: Lock)
    requires OrderConsistent(h) && l != m && LocksBefore(h, l, m)
    ensures Rank(h, l) < Rank(h, m)
  {
    var i, j := LevelsOfLocksBefore(h, l, m);
    if MinLevel(h, m) < MaxLevel(h, l) {
      LocksBeforeByLevel(h, m, l, MinLevel(h, m), MaxLevel(h, l));
      assert false;
    }
  }

  // ------------------------------------------------------------------ a good hash never deadlocks

  ghost function WantedRank(h: Hash, s: State, t: TxId): int
    requires t in s.txs
  {
    if Acquiring(s.txs[t]) then Rank(h, NextLock(h, s.txs[t])) else 0
  }

  lemma {:induction false} HighestWaiter(h: Hash, s: State, D: set<TxId>) returns (t: TxId)
    requires D != {} && D <= s.txs.Keys
    ensures t in D
    ensures forall u :: u in D ==> WantedRank(h, s, u) <= WantedRank(h, s, t)
    decreases D
  {
    var x :| x in D;
    if D == {x} {
      t := x;
    } else {
      t := HighestWaiter(h, s, D - {x});
      if WantedRank(h, s, t) < WantedRank(h, s, x) { t := x; }
    }
  }

  /** The owner of a wanted lock took it before the lock it now waits for itself. */
  lemma OwnerTookBefore(h: Hash, s: State, t: TxId)
    requires LocksInv(h, s) && t in s.txs && Blocked(h, s, t)
    requires var u := s.holder[NextLock(h, s.txs[t])]; u in s.txs && Blocked(h, s, u)
    ensures var l := NextLock(h, s.txs[t]);
            var m := NextLock(h, s.txs[s.holder[l]]);
            l != m && LocksBefore(h, l, m)
  {
    var l := NextLock(h, s.txs[t]);
    var x := s.txs[s.holder[l]];
    assert TakenByOwner(h, s, l);
    var i :| 0 <= i < x.got && i < |ScopesOf(x.attempt)| && LockOf(h, ScopesOf(x.attempt)[i]) == l;
    assert LocksBeforeAt(h, l, NextLock(h, x), x.attempt, i, x.got);
  }

  lemma OwnerTookGate(h: Hash, s: State, t: TxId)
    requires LocksInv(h, s) && t in s.txs && Blocked(h, s, t)
    ensures var u := s.holder[NextLock(h, s.txs[t])];
            u in s.txs && Gate(h, s.txs[u].attempt) in s.holder && s.holder[Gate(h, s.txs[u].attempt)] == u
  {
    var l := NextLock(h, s.txs[t]);
    assert TakenByOwner(h, s, l);
    var u := s.holder[l];
    assert LockOf(h, ScopesOf(s.txs[u].attempt)[0]) == Gate(h, s.txs[u].attempt);
    assert Took(h, s.txs[u], Gate(h, s.txs[u].attempt));
    assert OwnsWhatItTook(h, s, u);
  }

  lemma GoodHashHasNoDeadlock(h: Hash, s: State, D: set<TxId>)
    requires LocksInv(h, s)
    requires SingleGate(h) || OrderConsistent(h)
    ensures !Deadlocked(h, s, D)
  {
    if Deadlocked(h, s, D) {
      if OrderConsistent(h) {
        var t := HighestWaiter(h, s, D);
        OwnerTookBefore(h, s, t);
        var l := NextLock(h, s.txs[t]);
        RankIncreases(h, l, NextLock(h, s.txs[s.holder[l]]));
        assert false;
      } else {
        var t :| t in D;
        var u := s.holder[NextLock(h, s.txs[t])];
        OwnerTookGate(h, s, t);
        OwnerTookGate(h, s, u);
        assert false;
      }
    }
  }

  // ------------------------------------------------------------------ a bad hash does deadlock

  lemma ReachStep(h: Hash, p: Policy, s: State, step: Step)
    requires Reachable(h, p, s) && Enabled(h, s, step)
    ensures Reachable(h, p, Apply(h, p, s, step))
  {
    var run :| IsRun(h, p, run) && run[|run| - 1] == s;
    var s' := Apply(h, p, s, step);
    assert Next(h, p, s, s');
    Runs.Extend(Init(), Steps(h, p), run, s');
    assert IsRun(h, p, run + [s']);
  }

  lemma ReachInit(h: Hash, p: Policy)
    ensures Reachable(h, p, Init())
  {
    assert IsRun(h, p, [Init()]);
  }

  function HolderAfter(h: Hash, holder: map<Lock, TxId>, t: TxId, a: Attempt, n: nat): map<Lock, TxId>
    requires n <= |ScopesOf(a)|
  {
    if n == 0 then holder
    else HolderAfter(h, holder, t, a, n - 1)[LockOf(h, ScopesOf(a)[n - 1]) := t]
  }

  lemma {:induction false} HolderAfterOthers(h: Hash, holder: map<Lock, TxId>, t: TxId, a: Attempt, n: nat, l: Lock)
    requires n <= |ScopesOf(a)|
    requires forall i :: 0 <= i < n ==> LockOf(h, ScopesOf(a)[i]) != l
    ensures l in HolderAfter(h, holder, t, a, n) <==> l in holder
    ensures l in holder ==> HolderAfter(h, holder, t, a, n)[l] == holder[l]
  {
    if n > 0 { HolderAfterOthers(h, holder, t, a, n - 1, l); }
  }

  lemma {:induction false} HolderAfterFree(h: Hash, holder: map<Lock, TxId>, t: TxId, a: Attempt, n: nat, l: Lock)
    requires n <= |ScopesOf(a)| && l !in holder
    ensures l in HolderAfter(h, holder, t, a, n) ==> HolderAfter(h, holder, t, a, n)[l] == t
  {
    if n > 0 { HolderAfterFree(h, holder, t, a, n - 1, l); }
  }

  /** The state in which the transaction has its first n locks. */
  function Holding(h: Hash, s: State, t: TxId, a: Attempt, n: nat): State
    requires n <= |ScopesOf(a)|
  {
    State(s.committed, s.txs[t := Tx(a, n, false)], HolderAfter(h, s.holder, t, a, n))
  }

  lemma TakeNext(h: Hash, p: Policy, s: State, t: TxId, a: Attempt, n: nat)
    requires n < |ScopesOf(a)| && LockOf(h, ScopesOf(a)[n]) !in s.holder
    ensures Enabled(h, Holding(h, s, t, a, n), Acquire(t))
    ensures Apply(h, p, Holding(h, s, t, a, n), Acquire(t)) == Holding(h, s, t, a, n + 1)
  {
    HolderAfterFree(h, s.holder, t, a, n, LockOf(h, ScopesOf(a)[n]));
    assert s.txs[t := Tx(a, n, false)][t := Tx(a, n + 1, false)] == s.txs[t := Tx(a, n + 1, false)];
  }

  /** From any reachable state a new transaction can take its first n locks if nobody else holds them. */
  lemma {:induction false} TakeFirst(h: Hash, p: Policy, s: State, t: TxId, a: Attempt, n: nat)
    requires Reachable(h, p, s) && t !in s.txs && n <= |ScopesOf(a)|
    requires forall i :: 0 <= i < n ==> LockOf(h, ScopesOf(a)[i]) !in s.holder
    ensures Reachable(h, p, Holding(h, s, t, a, n))
  {
    if n == 0 {
      ReachStep(h, p, s, Begin(t, a));
    } else {
      TakeFirst(h, p, s, t, a, n - 1);
      TakeNext(h, p, s, t, a, n - 1);
      ReachStep(h, p, Holding(h, s, t, a, n - 1), Acquire(t));
    }
  }

  /** Two identifier scopes whose locks get in the way of neither l nor m. */
  lemma TwoGates(h: Hash, l: Lock, m: Lock) returns (g1: Scope, g2: Scope)
    requires !SingleGate(h) && l != m
    ensures g1.ByIdentifier? && Attainable(g1) && g2.ByIdentifier? && Attainable(g2)
    ensures LockOf(h, g1) != m && LockOf(h, g2) != l && LockOf(h, g1) != LockOf(h, g2)
  {
    var a, b :| Gate(h, a) != Gate(h, b);
    LowerIdempotent(a.identifier);
    LowerIdempotent(b.identifier);
    g1, g2 := ByIdentifier(Lower(a.identifier)), ByIdentifier(Lower(b.identifier));
    if LockOf(h, g1) == m || LockOf(h, g2) == l { g1, g2 := g2, g1; }
  }

  lemma ScopesOfLocksBefore(h: Hash, l: Lock, m: Lock) returns (s1: Scope, s2: Scope)
    requires LocksBefore(h, l, m)
    ensures Attainable(s1) && Attainable(s2) && Level(s1) < Level(s2)
    ensures LockOf(h, s1) == l && LockOf(h, s2) == m
  {
    var a, i, j :| LocksBeforeAt(h, l, m, a, i, j);
    LevelsIncrease(a, i, j);
    s1, s2 := ScopesOf(a)[i], ScopesOf(a)[j];
  }

  /** The two crossing attempts: a takes its lock l and stops before m, b takes m and stops before l. */
  lemma CrossingAttempts(h: Hash, l: Lock, m: Lock) returns (a: Attempt, i: nat, b: Attempt, j: nat)
    requires !SingleGate(h) && l != m && LocksBefore(h, l, m) && LocksBefore(h, m, l)
    ensures 0 < i < |ScopesOf(a)| && LockOf(h, ScopesOf(a)[i - 1]) == l && LockOf(h, ScopesOf(a)[i]) == m
    ensures 0 < j < |ScopesOf(b)| && LockOf(h, ScopesOf(b)[j - 1]) == m && LockOf(h, ScopesOf(b)[j]) == l
    ensures forall x, y :: 0 <= x < i && 0 <= y < j ==> LockOf(h, ScopesOf(a)[x]) != LockOf(h, ScopesOf(b)[y])
  {
    var g1, g2 := TwoGates(h, l, m);
    var a1, a2 := ScopesOfLocksBefore(h, l, m);
    var b1, b2 := ScopesOfLocksBefore(h, m, l);
    AttemptWithScopes(g1, a1, a2);
    AttemptWithScopes(g2, b1, b2);
    a, b := AttemptWith(g1, a1, a2), AttemptWith(g2, b1, b2);
    i := if a1.ByIdentifier? then 1 else 2;
    j := if b1.ByIdentifier? then 1 else 2;
  }

  /** Once both have taken their first locks, each waits for the other's last one. */
  lemma CrossedHolders(h: Hash, a: Attempt, i: nat, b: Attempt, j: nat)
    requires 0 < i < |ScopesOf(a)| && 0 < j < |ScopesOf(b)|
    requires LockOf(h, ScopesOf(a)[i]) == LockOf(h, ScopesOf(b)[j - 1])
    requires LockOf(h, ScopesOf(b)[j]) == LockOf(h, ScopesOf(a)[i - 1])
    requires forall x, y :: 0 <= x < i && 0 <= y < j ==> LockOf(h, ScopesOf(a)[x]) != LockOf(h, ScopesOf(b)[y])
    ensures var holder := HolderAfter(h, HolderAfter(h, map[], 0, a, i), 1, b, j);
            var l, m := LockOf(h, ScopesOf(a)[i - 1]), LockOf(h, ScopesOf(b)[j - 1]);
            l in holder && holder[l] == 0 && m in holder && holder[m] == 1
    ensures forall y :: 0 <= y < j ==> LockOf(h, ScopesOf(b)[y]) !in HolderAfter(h, map[], 0, a, i)
  {
    var first := HolderAfter(h, map[], 0, a, i);
    forall y | 0 <= y < j ensures LockOf(h, ScopesOf(b)[y]) !in first {
      HolderAfterOthers(h, map[], 0, a, i, LockOf(h, ScopesOf(b)[y]));
    }
    HolderAfterOthers(h, first, 1, b, j, LockOf(h, ScopesOf(a)[i - 1]));
  }

  /** A hash that lets two locks be taken in both orders reaches a deadlock of two transactions. */
  lemma BadHashDeadlocks(h: Hash, p: Policy) returns (s: State)
    requires !SingleGate(h) && !OrderConsistent(h)
    ensures Reachable(h, p, s) && Deadlocked(h, s, {0, 1})
  {
    var l, m := InvertedPair(h);
    var a, i, b, j := CrossingAttempts(h, l, m);
    CrossedHolders(h, a, i, b, j);
    s := CrossingRun(h, p, a, i, b, j);
    CrossedWaits(h, s, a, i, b, j, l, m);
  }

  lemma InvertedPair(h: Hash) returns (l: Lock, m: Lock)
    requires !OrderConsistent(h)
    ensures l != m && LocksBefore(h, l, m) && LocksBefore(h, m, l)
  {
    l, m :| l != m && LocksBefore(h, l, m) && LocksBefore(h, m, l);
  }

  lemma CrossedWaits(h: Hash, s: State, a: Attempt, i: nat, b: Attempt, j: nat, l: Lock, m: Lock)
    requires i < |ScopesOf(a)| && j < |ScopesOf(b)|
    requires s.txs == map[0 := Tx(a, i, false), 1 := Tx(b, j, false)]
    requires LockOf(h, ScopesOf(a)[i]) == m && LockOf(h, ScopesOf(b)[j]) == l
    requires l in s.holder && s.holder[l] == 0 && m in s.holder && s.holder[m] == 1
    ensures Deadlocked(h, s, {0, 1})
  {
    assert NextLock(h, s.txs[0]) == m && NextLock(h, s.txs[1]) == l;
  }

  lemma CrossingRun(h: Hash, p: Policy, a: Attempt, i: nat, b: Attempt, j: nat) returns (s: State)
    requires i <= |ScopesOf(a)| && j <= |ScopesOf(b)|
    requires forall y :: 0 <= y < j ==> LockOf(h, ScopesOf(b)[y]) !in HolderAfter(h, map[], 0, a, i)
    ensures Reachable(h, p, s)
    ensures s.txs == map[0 := Tx(a, i, false), 1 := Tx(b, j, false)]
    ensures s.holder == HolderAfter(h, HolderAfter(h, map[], 0, a, i), 1, b, j)
  {
    ReachInit(h, p);
    TakeFirst(h, p, Init(), 0, a, i);
    var s1 := State([], Init().txs[0 := Tx(a, i, false)], HolderAfter(h, map[], 0, a, i));
    TakeFirst(h, p, s1, 1, b, j);
    s := State([], s1.txs[1 := Tx(b, j, false)], HolderAfter(h, s1.holder, 1, b, j));
  }

  // ------------------------------------------------------------------ main results

  lemma GoodHashIsDeadlockFree(h: Hash, p: Policy)
    requires SingleGate(h) || OrderConsistent(h)
    ensures DeadlockFree(h, p)
  {
    forall s, D | Reachable(h, p, s) ensures !Deadlocked(h, s, D) {
      ReachableInv(h, p, s);
      GoodHashHasNoDeadlock(h, s, D);
    }
  }

  /** Deadlock is impossible on every run exactly for the hashes of the two harmless kinds. */
  lemma DeadlockFreeExactly(h: Hash, p: Policy)
    ensures DeadlockFree(h, p) <==> SingleGate(h) || OrderConsistent(h)
  {
    if SingleGate(h) || OrderConsistent(h) {
      GoodHashIsDeadlockFree(h, p);
    } else {
      var s := BadHashDeadlocks(h, p);
      assert Reachable(h, p, s) && Deadlocked(h, s, {0, 1});
    }
  }

  ghost predicate InjectiveOnKeys(h: Hash) {
    forall s, s' :: LockOf(h, s) == LockOf(h, s') ==> s == s'
  }

  /** A hash without collisions is harmless: sorted acquisition then rules deadlock out. */
  lemma CollisionFreeHashNeverDeadlocks(h: Hash, p: Policy)
    requires InjectiveOnKeys(h)
    ensures DeadlockFree(h, p)
  {
    forall l, m | l != m && LocksBefore(h, l, m) ensures !LocksBefore(h, m, l) {
      if LocksBefore(h, m, l) {
        var a1, a2 := ScopesOfLocksBefore(h, l, m);
        var b1, b2 := ScopesOfLocksBefore(h, m, l);
        assert false;
      }
    }
    DeadlockFreeExactly(h, p);
  }

  /** Without a deadlock some open transaction can take a step other than aborting. */
  lemma SomeTransactionCanStep(h: Hash, p: Policy, s: State) returns (step: Step)
    requires DeadlockFree(h, p) && Reachable(h, p, s) && s.txs != map[]
    ensures Enabled(h, s, step) && !step.Abort? && !step.Begin?
  {
    assert s.txs.Keys != {};
    assert !Deadlocked(h, s, s.txs.Keys);
    ReachableInv(h, p, s);
    forall t | t in s.txs && Blocked(h, s, t) ensures s.holder[NextLock(h, s.txs[t])] in s.txs.Keys {
      assert TakenByOwner(h, s, NextLock(h, s.txs[t]));
    }
    var t :| t in s.txs && !Blocked(h, s, t);
    var x := s.txs[t];
    step := if Acquiring(x) then Acquire(t) else if x.inserted then Commit(t) else Record(t);
  }

  function LengthHash(): Hash {
    (t: string) => |t|
  }

  lemma LengthHashInverts()
    ensures !OrderConsistent(LengthHash()) && !SingleGate(LengthHash())
  {
    var h := LengthHash();
    var a, b := Attempt("abcdef", "", "255.255.255.255", 0), Attempt("abcdefg", "", "10.255.255.255", 0);
    assert ScopesOf(a) == [ByIdentifier(Lower("abcdef")), ByIp("255.255.255.255")];
    assert ScopesOf(b) == [ByIdentifier(Lower("abcdefg")), ByIp("10.255.255.255")];
    assert Gate(h, a) == 30 && Gate(h, b) == 31;
    assert LocksBeforeAt(h, 30, 31, a, 0, 1) && LocksBeforeAt(h, 31, 30, b, 0, 1);
    assert LocksBefore(h, 30, 31) && LocksBefore(h, 31, 30);
  }

  /** Hashing keys to their length is harmful: an identifier of length 6 collides with an ip of length 14. */
  lemma LengthHashDeadlocks(p: Policy)
    ensures !DeadlockFree(LengthHash(), p)
  {
    LengthHashInverts();
    DeadlockFreeExactly(LengthHash(), p);
  }
}
