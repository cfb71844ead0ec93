/**
 * Concurrent requests and confirmations.  A request takes the user's advisory lock,
 * supersedes the unused tokens it sees, inserts its own and commits; until then its
 * writes are visible to nobody and the superseded rows stay locked.  A confirmation looks
 * its token up outside any transaction and later consumes it, or counts a wrong guess,
 * in one atomic step.
 */
module TokenProtocol {
  import opened Common
  import Runs
  import opened OneTimeTokens

  datatype Request =
    | Waiting(user: string)
    | Locked(user: string)
    | Superseded(user: string, now: int, ids: set<TokenId>)
    | Inserted(user: string, now: int, ids: set<TokenId>, id: TokenId, row: Token)

  datatype Confirm =
    | Missed(id: TokenId, user: string, now: int, code: string)
    | Matched(id: TokenId, user: string, now: int, value: string, code: string)

  /** What a consumed token did: the new password, or the address now verified; with the code presented and the request's time. */
  datatype Effect = Effect(id: TokenId, user: string, value: string, code: string, at: int)

  /** A wrong guess that was counted. */
  datatype Miss = Miss(id: TokenId, user: string, code: string, at: int)

  /** superseded, effects and misses are history; issued holds every id the database has generated. */
  datatype State = State(
    rows: Table, users: set<string>, requests: map<nat, Request>, holder: map<string, nat>,
    confirms: map<nat, Confirm>, issued: set<TokenId>, superseded: set<TokenId>, effects: seq<Effect>,
    misses: seq<Miss>)

  datatype Step =
    | SignUp(user: string, first: Option<Token>, id: TokenId)
    | Begin(r: nat, user: string)
    | TakeLock(r: nat)
    | Supersede(r: nat, now: int)
    | Insert(r: nat, id: TokenId, hash: string, ttl: int)
    | CommitRequest(r: nat)
    | AbortRequest(r: nat)
    | Read(q: nat, user: string, id: TokenId, code: string, value: string, now: int)
    | CommitConfirm(q: nat)
    | DropConfirm(q: nat)

  type Hash = (string, string) -> string

  function Init(): State {
    State(map[], {}, map[], map[], map[], {}, {}, [], [])
  }

  /** The rows a request has updated but not committed. */
  function RowLocks(x: Request): set<TokenId> {
    if x.Superseded? || x.Inserted? then x.ids else {}
  }

  predicate RowLocked(s: State, id: TokenId) {
    exists r :: r in s.requests && id in RowLocks(s.requests[r])
  }

  /** Would inserting for this request hit the one-unused-row-per-user index? */
  ghost predicate InsertConflict(s: State, r: nat)
    requires r in s.requests && s.requests[r].Superseded?
  {
    var x := s.requests[r];
    || (exists id :: id in s.rows && s.rows[id].user == x.user && s.rows[id].usedAt.None? && id !in x.ids)
    || (exists r' :: r' in s.requests && r' != r && s.requests[r'].Inserted? && s.requests[r'].user == x.user)
  }

  function EndRequest(s: State, r: nat): State
    requires r in s.requests
  {
    s.(requests := s.requests - {r},
       holder := map u | u in s.holder && s.holder[u] != r :: s.holder[u])
  }

  ghost predicate Enabled(max: int, s: State, step: Step) {
    match step
    case SignUp(user, first, id) =>
      && user !in s.users
      && (first.Some? ==> id !in s.issued && first.value.user == user && first.value.usedAt.None? && first.value.attempts == 0)
    case Begin(r, user) => r !in s.requests && user in s.users
    case TakeLock(r) => r in s.requests && s.requests[r].Waiting? && s.requests[r].user !in s.holder
    case Supersede(r, _) => r in s.requests && s.requests[r].Locked?
    case Insert(r, id, _, _) => r in s.requests && s.requests[r].Superseded? && id !in s.issued
    case CommitRequest(r) => r in s.requests && s.requests[r].Inserted?
    case AbortRequest(r) => r in s.requests
    case Read(q, user, id, _, _, now) => q !in s.confirms && IsNewestActive(s.rows, id, user, now, max)
    case CommitConfirm(q) => q in s.confirms && !RowLocked(s, s.confirms[q].id)
    case DropConfirm(q) => q in s.confirms
  }

  ghost function Apply(hash: Hash, max: int, s: State, step: Step): State
    requires Enabled(max, s, step)
  {
    match step
    case SignUp(user, first, id) =>
      if first.Some?
      then s.(users := s.users + {user}, rows := s.rows[id := first.value], issued := s.issued + {id})
      else s.(users := s.users + {user})
    case Begin(r, user) => s.(requests := s.requests[r := Waiting(user)])
    case TakeLock(r) =>
      var user := s.requests[r].user;
      s.(requests := s.requests[r := Locked(user)], holder := s.holder[user := r])
    case Supersede(r, now) =>
      var user := s.requests[r].user;
      s.(requests := s.requests[r := Superseded(user, now, UnusedOf(s.rows, user))])
    case Insert(r, id, h, ttl) =>
      var x := s.requests[r];
      // A unique-index violation throws, which rolls the transaction back.
      if InsertConflict(s, r) then EndRequest(s, r)
      else s.(requests := s.requests[r := Inserted(x.user, x.now, x.ids, id, NewToken(x.user, h, x.now, ttl))],
              issued := s.issued + {id})
    case CommitRequest(r) =>
      var x := s.requests[r];
      EndRequest(s, r).(rows := Issued(s.rows, x), superseded := s.superseded + x.ids)
    case AbortRequest(r) => EndRequest(s, r)
    case Read(q, user, id, code, value, now) =>
      if s.rows[id].hash == hash(user, code)
      then s.(confirms := s.confirms[q := Matched(id, user, now, value, code)])
      else s.(confirms := s.confirms[q := Missed(id, user, now, code)])
    case CommitConfirm(q) => CommitConfirmed(max, s, q)
    case DropConfirm(q) => s.(confirms := s.confirms - {q})
  }

  /** The consuming transaction changes the account only when the conditional update found its row. */
  function CommitConfirmed(max: int, s: State, q: nat): State
    requires q in s.confirms
  {
    var x := s.confirms[q];
    var s' := s.(confirms := s.confirms - {q});
    match x
    case Missed(id, user, now, code) =>
      var counts := id in s.rows && s.rows[id].usedAt.None? && now < s.rows[id].expiresAt && s.rows[id].attempts < max;
      s'.(rows := CountWrongGuess(s.rows, id, now, max),
          misses := if counts then s.misses + [Miss(id, user, code, now)] else s.misses)
    case Matched(id, user, now, value, code) =>
      if id in s.rows && Open(s.rows[id], now, max)
      then s'.(rows := Consume(s.rows, id, now, max), effects := s.effects + [Effect(id, user, value, code, now)])
      else s'
  }

  ghost predicate Next(hash: Hash, max: int, s: State, s': State) {
    exists step :: Enabled(max, s, step) && s' == Apply(hash, max, s, step)
  }

  ghost function Steps(hash: Hash, max: int): (State, State) -> bool {
    (s, s') => Next(hash, max, s, s')
  }

  ghost predicate IsRun(hash: Hash, max: int, run: seq<State>) {
    Runs.IsRun(Init(), Steps(hash, max), run)
  }

  // ------------------------------------------------------------------ the invariant

  /** The advisory lock of a user belongs to the one request that is past waiting. */
  ghost predicate LocksOk(s: State) {
    && (forall r :: r in s.requests ==> s.requests[r].user in s.users)
    && (forall r :: r in s.requests && !s.requests[r].Waiting? ==>
          s.requests[r].user in s.holder && s.holder[s.requests[r].user] == r)
    && (forall u :: u in s.holder ==> s.holder[u] in s.requests && s.requests[s.holder[u]].user == u)
  }

  /** A request that has superseded still sees exactly the unused rows of its user. */
  ghost predicate RequestOk(s: State, r: nat)
    requires r in s.requests
  {
    var x := s.requests[r];
    && (x.Superseded? || x.Inserted? ==> x.ids == UnusedOf(s.rows, x.user))
    && (x.Inserted? ==> x.id !in s.rows && x.id in s.issued && x.row.user == x.user && x.row.usedAt.None? && x.row.attempts == 0)
  }

  ghost predicate RequestsOk(s: State) {
    && (forall r :: r in s.requests ==> RequestOk(s, r))
    && (forall r, r' :: r in s.requests && r' in s.requests && r != r' && s.requests[r].Inserted? && s.requests[r'].Inserted? ==>
          s.requests[r].id != s.requests[r'].id)
  }

  ghost predicate TableOk(max: int, s: State) {
    && OneUnusedPerUser(s.rows)
    && s.rows.Keys <= s.issued
    && (forall id :: id in s.rows ==> s.rows[id].user in s.users)
    && (forall id :: id in s.rows ==> s.rows[id].attempts == 0 || s.rows[id].attempts <= max)
  }

  /** A matched confirmation names a token of the account it is about to change. */
  ghost predicate ConfirmsOk(s: State) {
    forall q :: q in s.confirms && s.confirms[q].Matched? ==>
      s.confirms[q].id in s.rows && s.rows[s.confirms[q].id].user == s.confirms[q].user
  }

  ghost predicate Acted(effects: seq<Effect>, id: TokenId) {
    exists k :: 0 <= k < |effects| && effects[k].id == id
  }

  /** A token is used exactly when it has acted or was superseded, and never both. */
  ghost predicate UseOk(s: State, id: TokenId)
    requires id in s.rows
  {
    && (s.rows[id].usedAt.Some? <==> Acted(s.effects, id) || id in s.superseded)
    && !(Acted(s.effects, id) && id in s.superseded)
  }

  ghost predicate HistoryOk(s: State) {
    && s.superseded <= s.rows.Keys
    && (forall k :: 0 <= k < |s.effects| ==> s.effects[k].id in s.rows && s.effects[k].user == s.rows[s.effects[k].id].user)
    && (forall j, k :: 0 <= j < k < |s.effects| ==> s.effects[j].id != s.effects[k].id)
    && (forall id :: id in s.rows ==> UseOk(s, id))
  }

  ghost predicate Inv(max: int, s: State) {
    && LocksOk(s)
    && RequestsOk(s)
    && TableOk(max, s)
    && ConfirmsOk(s)
    && HistoryOk(s)
  }

  // ------------------------------------------------------------------ each kind of step keeps it

  /** The index can never refuse an insert made under the lock. */
  lemma LockPreventsConflict(max: int, s: State, r: nat)
    requires Inv(max, s) && r in s.requests && s.requests[r].Superseded?
    ensures !InsertConflict(s, r)
  {
    assert RequestOk(s, r);
  }

  /** Steps that touch neither the rows nor the history. */
  lemma FrameHistory(max: int, s: State, s': State)
    requires TableOk(max, s) && HistoryOk(s)
    requires s'.rows == s.rows && s'.superseded == s.superseded && s'.effects == s.effects
    requires s.users <= s'.users && s.issued <= s'.issued
    ensures TableOk(max, s') && HistoryOk(s')
  {
    forall id | id in s'.rows ensures UseOk(s', id) {
      assert UseOk(s, id);
    }
  }

  /** A request enters a phase other than Inserted. */
  lemma SetRequestOk(s: State, r: nat, x: Request, holder: map<string, nat>)
    requires RequestsOk(s) && !x.Inserted? && (x.Superseded? ==> x.ids == UnusedOf(s.rows, x.user))
    ensures RequestsOk(s.(requests := s.requests[r := x], holder := holder))
  {
    var s' := s.(requests := s.requests[r := x], holder := holder);
    forall r' | r' in s'.requests ensures RequestOk(s', r') {
      if r' != r { assert RequestOk(s, r'); }
    }
  }

  lemma EndRequestOk(s: State, r: nat)
    requires LocksOk(s) && RequestsOk(s) && r in s.requests
    ensures LocksOk(EndRequest(s, r)) && RequestsOk(EndRequest(s, r))
  {
    var s' := EndRequest(s, r);
    forall r' | r' in s'.requests ensures RequestOk(s', r') {
      assert RequestOk(s, r');
    }
  }

  lemma InsertOk(s: State, r: nat, id: TokenId, row: Token, s': State)
    requires LocksOk(s) && RequestsOk(s) && r in s.requests && s.requests[r].Superseded?
    requires id !in s.issued && s.rows.Keys <= s.issued
    requires row.user == s.requests[r].user && row.usedAt.None? && row.attempts == 0
    requires var x := s.requests[r];
             s' == s.(requests := s.requests[r := Inserted(x.user, x.now, x.ids, id, row)], issued := s.issued + {id})
    ensures LocksOk(s') && RequestsOk(s')
  {
    assert RequestOk(s, r);
    forall r' | r' in s'.requests ensures RequestOk(s', r') {
      assert RequestOk(s, r');
    }
    forall r' | r' in s.requests && s.requests[r'].Inserted? ensures s.requests[r'].id != id {
      assert RequestOk(s, r');
    }
  }

  /** What a request does before it commits touches only the requests and the advisory locks. */
  lemma RequestStepFrame(hash: Hash, max: int, s: State, step: Step)
    requires Enabled(max, s, step)
    requires step.Begin? || step.TakeLock? || step.Supersede? || step.Insert? || step.AbortRequest?
    ensures var s' := Apply(hash, max, s, step);
            s' == s.(requests := s'.requests, holder := s'.holder, issued := s'.issued) && s.issued <= s'.issued
  {
  }

  lemma RequestStepKeepsInv(hash: Hash, max: int, s: State, step: Step)
    requires Inv(max, s) && Enabled(max, s, step)
    requires step.Begin? || step.TakeLock? || step.Supersede? || step.Insert? || step.AbortRequest?
    ensures Inv(max, Apply(hash, max, s, step))
  {
    var s' := Apply(hash, max, s, step);
    RequestStepFrame(hash, max, s, step);
    FrameHistory(max, s, s');
    match step {
      case Begin(r, user) => SetRequestOk(s, r, Waiting(user), s.holder);
      case TakeLock(r) => SetRequestOk(s, r, Locked(s.requests[r].user), s'.holder);
      case Supersede(r, now) => SetRequestOk(s, r, s'.requests[r], s.holder);
      case Insert(r, id, h, ttl) =>
        LockPreventsConflict(max, s, r);
        InsertOk(s, r, id, NewToken(s.requests[r].user, h, s.requests[r].now, ttl), s');
      case AbortRequest(r) => EndRequestOk(s, r);
    }
  }

  /** Rows of other users do not matter to a request. */
  lemma OtherRowsKeepRequests(s: State, s': State)
    requires RequestsOk(s) && s'.requests == s.requests && s.issued <= s'.issued
    requires forall r :: r in s.requests ==> UnusedOf(s'.rows, s.requests[r].user) == UnusedOf(s.rows, s.requests[r].user)
    requires forall r :: r in s.requests && s.requests[r].Inserted? ==> s.requests[r].id !in s'.rows
    ensures RequestsOk(s')
  {
    forall r | r in s'.requests ensures RequestOk(s', r) {
      assert RequestOk(s, r);
    }
  }

  lemma SignUpKeepsInv(hash: Hash, max: int, s: State, step: Step)
    requires Inv(max, s) && Enabled(max, s, step) && step.SignUp?
    ensures Inv(max, Apply(hash, max, s, step))
  {
    var s' := Apply(hash, max, s, step);
    forall r | r in s.requests
      ensures UnusedOf(s'.rows, s.requests[r].user) == UnusedOf(s.rows, s.requests[r].user)
      ensures s.requests[r].Inserted? ==> s.requests[r].id !in s'.rows
    {
      assert RequestOk(s, r);
    }
    OtherRowsKeepRequests(s, s');
    SignUpKeepsHistory(hash, max, s, step);
  }

  lemma SignUpKeepsHistory(hash: Hash, max: int, s: State, step: Step)
    requires Inv(max, s) && Enabled(max, s, step) && step.SignUp?
    ensures TableOk(max, Apply(hash, max, s, step)) && HistoryOk(Apply(hash, max, s, step))
  {
    var s' := Apply(hash, max, s, step);
    forall id | id in s'.rows ensures UseOk(s', id) {
      if id in s.rows { assert UseOk(s, id); }
    }
  }

  function Issued(rows: Table, x: Request): Table
    requires x.Inserted?
  {
    Use(rows, x.ids, x.now)[x.id := x.row]
  }

  /** Superseding and inserting leaves the user one unused token and everybody else theirs. */
  lemma IssuedUnused(rows: Table, x: Request, user: string)
    requires x.Inserted? && x.ids == UnusedOf(rows, x.user)
    requires x.id !in rows && x.row.user == x.user && x.row.usedAt.None?
    ensures UnusedOf(Issued(rows, x), user) == if user == x.user then {x.id} else UnusedOf(rows, user)
  {
  }

  lemma CommitRequestKeepsTable(max: int, s: State, s': State, x: Request)
    requires TableOk(max, s) && x.Inserted? && x.ids == UnusedOf(s.rows, x.user) && x.user in s.users
    requires x.id !in s.rows && x.id in s.issued && x.row.user == x.user && x.row.usedAt.None? && x.row.attempts == 0
    requires s'.rows == Issued(s.rows, x) && s'.users == s.users && s'.issued == s.issued
    ensures TableOk(max, s')
  {
  }

  lemma CommitRequestKeepsHistory(s: State, s': State, x: Request)
    requires HistoryOk(s) && x.Inserted? && x.ids == UnusedOf(s.rows, x.user)
    requires x.id !in s.rows && x.row.usedAt.None?
    requires s'.rows == Issued(s.rows, x) && s'.superseded == s.superseded + x.ids && s'.effects == s.effects
    ensures HistoryOk(s')
  {
    forall id | id in s'.rows ensures UseOk(s', id) {
      if id in s.rows { assert UseOk(s, id); }
    }
  }

  lemma CommitRequestKeepsRequests(s: State, s': State, r: nat)
    requires LocksOk(s) && RequestsOk(s) && r in s.requests && s.requests[r].Inserted?
    requires s' == EndRequest(s, r).(rows := Issued(s.rows, s.requests[r]), superseded := s'.superseded)
    ensures LocksOk(s') && RequestsOk(s')
  {
    EndRequestOk(s, r);
    assert RequestOk(s, r);
    forall r' | r' in s'.requests ensures RequestOk(s', r') {
      assert RequestOk(s, r');
      IssuedUnused(s.rows, s.requests[r], s.requests[r'].user);
    }
  }

  lemma CommitRequestKeepsInv(hash: Hash, max: int, s: State, r: nat)
    requires Inv(max, s) && Enabled(max, s, CommitRequest(r))
    ensures Inv(max, Apply(hash, max, s, CommitRequest(r)))
    ensures UnusedOf(Apply(hash, max, s, CommitRequest(r)).rows, s.requests[r].user) == {s.requests[r].id}
  {
    var s' := Apply(hash, max, s, CommitRequest(r));
    var x := s.requests[r];
    assert RequestOk(s, r);
    IssuedUnused(s.rows, x, x.user);
    CommitRequestKeepsTable(max, s, s', x);
    CommitRequestKeepsHistory(s, s', x);
    CommitRequestKeepsRequests(s, s', r);
  }

  lemma CommitConfirmKeepsRequests(max: int, s: State, q: nat)
    requires Inv(max, s) && q in s.confirms && !RowLocked(s, s.confirms[q].id)
    ensures forall r :: r in s.requests ==> RequestOk(CommitConfirmed(max, s, q), r)
  {
    var s' := CommitConfirmed(max, s, q);
    forall r | r in s.requests ensures RequestOk(s', r) {
      assert RequestOk(s, r);
      var x := s.requests[r];
      if x.Superseded? || x.Inserted? {
        assert s.confirms[q].id !in RowLocks(x);
        assert UnusedOf(s'.rows, x.user) == UnusedOf(s.rows, x.user);
      }
    }
  }

  lemma ActedAppend(effects: seq<Effect>, e: Effect, id: TokenId)
    ensures Acted(effects + [e], id) <==> Acted(effects, id) || e.id == id
  {
    var all := effects + [e];
    if Acted(effects, id) {
      var k :| 0 <= k < |effects| && effects[k].id == id;
      assert all[k].id == id;
    }
    assert all[|effects|] == e;
  }

  lemma CommitConfirmKeepsHistory(max: int, s: State, q: nat)
    requires Inv(max, s) && q in s.confirms
    ensures TableOk(max, CommitConfirmed(max, s, q)) && HistoryOk(CommitConfirmed(max, s, q))
  {
    var s' := CommitConfirmed(max, s, q);
    var x := s.confirms[q];
    forall id | id in s'.rows ensures UseOk(s', id) {
      assert UseOk(s, id);
      if s'.effects != s.effects {
        assert UseOk(s, x.id);
        ActedAppend(s.effects, s'.effects[|s.effects|], id);
      }
    }
    if s'.effects != s.effects {
      assert UseOk(s, x.id);
      forall k | 0 <= k < |s.effects| ensures s.effects[k].id != x.id {
        assert s.effects[k].id == x.id ==> Acted(s.effects, x.id);
      }
    }
  }

  lemma ConfirmsKeepInv(max: int, s: State, s': State)
    requires Inv(max, s) && s' == s.(confirms := s'.confirms) && ConfirmsOk(s')
    ensures Inv(max, s')
  {
    FrameHistory(max, s, s');
    forall r | r in s'.requests ensures RequestOk(s', r) {
      assert RequestOk(s, r);
    }
  }

  lemma ConfirmStepKeepsInv(hash: Hash, max: int, s: State, step: Step)
    requires Inv(max, s) && Enabled(max, s, step) && (step.Read? || step.DropConfirm?)
    ensures Inv(max, Apply(hash, max, s, step))
  {
    ConfirmsKeepInv(max, s, Apply(hash, max, s, step));
  }

  lemma CommitConfirmKeepsInv(max: int, s: State, q: nat)
    requires Inv(max, s) && q in s.confirms && !RowLocked(s, s.confirms[q].id)
    ensures Inv(max, CommitConfirmed(max, s, q))
  {
    CommitConfirmKeepsRequests(max, s, q);
    CommitConfirmKeepsHistory(max, s, q);
  }

  lemma StepKeepsInv(hash: Hash, max: int, s: State, step: Step)
    requires Inv(max, s) && Enabled(max, s, step)
    ensures Inv(max, Apply(hash, max, s, step))
  {
    match step {
      case SignUp(_, _, _) => SignUpKeepsInv(hash, max, s, step);
      case CommitRequest(r) => CommitRequestKeepsInv(hash, max, s, r);
      case CommitConfirm(q) => CommitConfirmKeepsInv(max, s, q);
      case Read(_, _, _, _, _, _) => ConfirmStepKeepsInv(hash, max, s, step);
      case DropConfirm(_) => ConfirmStepKeepsInv(hash, max, s, step);
      case _ => RequestStepKeepsInv(hash, max, s, step);
    }
  }

  lemma InitInv(max: int)
    ensures Inv(max, Init())
  {
  }

  lemma NextKeepsInv(hash: Hash, max: int, s: State, s': State)
    requires Inv(max, s) && Next(hash, max, s, s')
    ensures Inv(max, s')
  {
    var step :| Enabled(max, s, step) && s' == Apply(hash, max, s, step);
    StepKeepsInv(hash, max, s, step);
  }

  lemma InvHolds(hash: Hash, max: int, run: seq<State>, i: nat)
    requires IsRun(hash, max, run) && i < |run|
    ensures Inv(max, run[i])
  {
    InitInv(max);
    forall s, s' | Inv(max, s) && Next(hash, max, s, s') ensures Inv(max, s') { NextKeepsInv(hash, max, s, s'); }
    Runs.Invariant(Init(), Steps(hash, max), s => Inv(max, s), run, i);
  }

  // ------------------------------------------------------------------ the statements behind the steps

  /** The confirming use case's transaction on the store is the commit step, and acts exactly when the step does. */
  method ConfirmTransaction(table: TokenTable, max: int, ghost s: State, ghost q: nat, x: Confirm) returns (acted: bool)
    requires q in s.confirms && s.confirms[q] == x && table.rows == s.rows
    modifies table
    ensures table.rows == CommitConfirmed(max, s, q).rows
    ensures acted <==> CommitConfirmed(max, s, q).effects != s.effects
  {
    acted := false;
    match x
    case Missed(id, user, now, code) => table.IncrementAttempts(id, now, max);
    case Matched(id, user, now, value, code) => acted := table.MarkUsed(id, now, max);
  }

  /** The requesting use case's two statements leave the table of the committed request. */
  method RequestTransaction(table: TokenTable, max: int, ghost s: State, ghost r: nat, user: string, now: int,
                            id: TokenId, hash: string, ttl: int)
    requires Inv(max, s) && table.rows == s.rows && r in s.requests && s.requests[r].Inserted?
    requires var x := s.requests[r]; x.user == user && x.now == now && x.id == id && x.row == NewToken(user, hash, now, ttl)
    modifies table
    ensures table.rows == Issued(s.rows, s.requests[r])
  {
    assert RequestOk(s, r);
    table.Issue(user, id, hash, now, ttl);
  }

  // ------------------------------------------------------------------ main results

  /** On every run: the index never refuses an insert, and holds of the committed rows. */
  lemma IndexIsNeverViolated(hash: Hash, max: int, run: seq<State>, i: nat, r: nat)
    requires IsRun(hash, max, run) && i < |run|
    ensures OneUnusedPerUser(run[i].rows)
    ensures r in run[i].requests && run[i].requests[r].Superseded? ==> !InsertConflict(run[i], r)
  {
    InvHolds(hash, max, run, i);
    if r in run[i].requests && run[i].requests[r].Superseded? { LockPreventsConflict(max, run[i], r); }
  }

  /** When a request commits, its token is the user's only unused one, whatever else was in flight. */
  lemma NewestIsTheOnlyUnused(hash: Hash, max: int, run: seq<State>, i: nat, r: nat)
    requires IsRun(hash, max, run) && i + 1 < |run| && Enabled(max, run[i], CommitRequest(r))
    requires run[i + 1] == Apply(hash, max, run[i], CommitRequest(r))
    ensures UnusedOf(run[i + 1].rows, run[i].requests[r].user) == {run[i].requests[r].id}
  {
    InvHolds(hash, max, run, i);
    CommitRequestKeepsInv(hash, max, run[i], r);
  }

  /** Each token changes an account at most once, and always the account it was issued for. */
  lemma TokensActOnce(hash: Hash, max: int, run: seq<State>, i: nat, k: nat)
    requires IsRun(hash, max, run) && i < |run| && k < |run[i].effects|
    ensures forall j :: 0 <= j < |run[i].effects| && j != k ==> run[i].effects[j].id != run[i].effects[k].id
    ensures run[i].effects[k].id in run[i].rows && run[i].rows[run[i].effects[k].id].user == run[i].effects[k].user
  {
    InvHolds(hash, max, run, i);
  }

  /**
   * The tokens that changed an account are exactly the used ones that were not
   * superseded, and no counter of wrong guesses passes the maximum.
   */
  lemma UseIsAccountedFor(hash: Hash, max: int, run: seq<State>, i: nat, id: TokenId)
    requires IsRun(hash, max, run) && i < |run| && id in run[i].rows
    ensures Acted(run[i].effects, id) <==> run[i].rows[id].usedAt.Some? && id !in run[i].superseded
    ensures run[i].rows[id].attempts == 0 || run[i].rows[id].attempts <= max
  {
    InvHolds(hash, max, run, i);
    assert UseOk(run[i], id);
  }

  /** Rows are kept, use is final, wrong guesses only add up. */
  ghost predicate TokenEvolves(x: Token, y: Token) {
    && y.user == x.user && y.hash == x.hash && y.expiresAt == x.expiresAt && y.createdAt == x.createdAt
    && x.attempts <= y.attempts
    && (x.usedAt.Some? ==> y.usedAt.Some?)
  }

  /** A token that acts between two states was unused and not exhausted in the first. */
  ghost predicate OpenUntilActed(max: int, s: State, s': State) {
    && s.superseded <= s'.superseded
    && s.effects <= s'.effects
    && (forall id :: id in s.rows ==> id in s'.rows && TokenEvolves(s.rows[id], s'.rows[id]))
    && (forall id :: id in s.rows && Acted(s'.effects, id) && !Acted(s.effects, id) ==>
          s.rows[id].usedAt.None? && s.rows[id].attempts < max)
  }

  lemma ConfirmOpens(max: int, s: State, q: nat)
    requires Inv(max, s) && q in s.confirms
    ensures OpenUntilActed(max, s, CommitConfirmed(max, s, q))
  {
    var s' := CommitConfirmed(max, s, q);
    forall id | id in s.rows && Acted(s'.effects, id) && !Acted(s.effects, id)
      ensures s.rows[id].usedAt.None? && s.rows[id].attempts < max
    {
      if s'.effects != s.effects { ActedAppend(s.effects, s'.effects[|s.effects|], id); }
    }
  }

  lemma RequestOpens(max: int, s: State, s': State, x: Request)
    requires x.Inserted? && s'.rows == Issued(s.rows, x) && x.id !in s.rows
    requires s'.effects == s.effects && s.superseded <= s'.superseded
    ensures OpenUntilActed(max, s, s')
  {
  }

  lemma InsertOpens(max: int, s: State, s': State)
    requires s'.effects == s.effects && s'.superseded == s.superseded
    requires forall id :: id in s.rows ==> id in s'.rows && s'.rows[id] == s.rows[id]
    ensures OpenUntilActed(max, s, s')
  {
  }

  lemma OtherStepFrame(hash: Hash, max: int, s: State, step: Step)
    requires s.rows.Keys <= s.issued && Enabled(max, s, step) && !step.CommitConfirm? && !step.CommitRequest?
    ensures var s' := Apply(hash, max, s, step);
            && s'.effects == s.effects && s'.superseded == s.superseded
            && forall id :: id in s.rows ==> id in s'.rows && s'.rows[id] == s.rows[id]
  {
  }

  lemma StepOpens(hash: Hash, max: int, s: State, step: Step)
    requires Inv(max, s) && Enabled(max, s, step)
    ensures OpenUntilActed(max, s, Apply(hash, max, s, step))
  {
    if step.CommitConfirm? {
      ConfirmOpens(max, s, step.q);
    } else if step.CommitRequest? {
      assert RequestOk(s, step.r);
      RequestOpens(max, s, Apply(hash, max, s, step), s.requests[step.r]);
    } else {
      OtherStepFrame(hash, max, s, step);
      InsertOpens(max, s, Apply(hash, max, s, step));
    }
  }

  lemma NextOpens(hash: Hash, max: int, s: State, s': State)
    requires Inv(max, s) && Next(hash, max, s, s')
    ensures OpenUntilActed(max, s, s')
  {
    var step :| Enabled(max, s, step) && s' == Apply(hash, max, s, step);
    StepOpens(hash, max, s, step);
  }

  lemma OpensTransitive(max: int, a: State, b: State, c: State)
    requires OpenUntilActed(max, a, b) && OpenUntilActed(max, b, c)
    ensures OpenUntilActed(max, a, c)
  {
  }

  lemma RunOpens(hash: Hash, max: int, run: seq<State>, i: nat, j: nat)
    requires IsRun(hash, max, run) && i <= j < |run|
    ensures OpenUntilActed(max, run[i], run[j])
  {
    InitInv(max);
    forall s, s' | Inv(max, s) && Next(hash, max, s, s') ensures Inv(max, s') && OpenUntilActed(max, s, s') {
      NextKeepsInv(hash, max, s, s');
      NextOpens(hash, max, s, s');
    }
    forall s ensures OpenUntilActed(max, s, s) { InsertOpens(max, s, s); }
    forall a, b, c | OpenUntilActed(max, a, b) && OpenUntilActed(max, b, c) ensures OpenUntilActed(max, a, c) {
      OpensTransitive(max, a, b, c);
    }
    Runs.Related(Init(), Steps(hash, max), s => Inv(max, s), (s, s') => OpenUntilActed(max, s, s'), run, i, j);
  }

  /** The confirmation presented a code that hashes to the token's stored hash, before the token expired. */
  ghost predicate Presented(hash: Hash, rows: Table, id: TokenId, user: string, code: string, at: int) {
    id in rows && rows[id].hash == hash(user, code) && at < rows[id].expiresAt
  }

  ghost predicate AllPresented(hash: Hash, s: State) {
    && (forall q :: q in s.confirms && s.confirms[q].Matched? ==>
          Presented(hash, s.rows, s.confirms[q].id, s.confirms[q].user, s.confirms[q].code, s.confirms[q].now))
    && (forall e :: e in s.effects ==> Presented(hash, s.rows, e.id, e.user, e.code, e.at))
  }

  /** A confirmation was pending before, or comes from the lookup just made. */
  lemma ConfirmOrigin(hash: Hash, max: int, s: State, step: Step, q: nat)
    requires Enabled(max, s, step) && q in Apply(hash, max, s, step).confirms
    ensures var s' := Apply(hash, max, s, step);
            || (q in s.confirms && s'.confirms[q] == s.confirms[q])
            || (s'.rows == s.rows && (var x := s'.confirms[q]; x.Matched? ==> Presented(hash, s.rows, x.id, x.user, x.code, x.now)))
  {
  }

  /** An effect was there before, or comes from a confirmation that matched. */
  lemma EffectOrigin(hash: Hash, max: int, s: State, step: Step, e: Effect)
    requires Enabled(max, s, step) && e in Apply(hash, max, s, step).effects
    ensures e in s.effects ||
            (step.CommitConfirm? && (var x := s.confirms[step.q]; x.Matched? && e.id == x.id && e.user == x.user && e.code == x.code && e.at == x.now))
  {
  }

  lemma StepKeepsPresented(hash: Hash, max: int, s: State, step: Step)
    requires AllPresented(hash, s) && Enabled(max, s, step)
    requires OpenUntilActed(max, s, Apply(hash, max, s, step))
    ensures AllPresented(hash, Apply(hash, max, s, step))
  {
    var s' := Apply(hash, max, s, step);
    forall q | q in s'.confirms && s'.confirms[q].Matched?
      ensures Presented(hash, s'.rows, s'.confirms[q].id, s'.confirms[q].user, s'.confirms[q].code, s'.confirms[q].now)
    {
      ConfirmOrigin(hash, max, s, step, q);
    }
    forall e | e in s'.effects ensures Presented(hash, s'.rows, e.id, e.user, e.code, e.at) {
      EffectOrigin(hash, max, s, step, e);
    }
  }

  lemma NextKeepsPresented(hash: Hash, max: int, s: State, s': State)
    requires Inv(max, s) && AllPresented(hash, s) && Next(hash, max, s, s')
    ensures Inv(max, s') && AllPresented(hash, s')
  {
    NextKeepsInv(hash, max, s, s');
    var step :| Enabled(max, s, step) && s' == Apply(hash, max, s, step);
    StepOpens(hash, max, s, step);
    StepKeepsPresented(hash, max, s, step);
  }

  /** On every run, whoever changed an account had presented the very token that was consumed for it, before it expired. */
  lemma EffectsAreEarned(hash: Hash, max: int, run: seq<State>, i: nat, k: nat)
    requires IsRun(hash, max, run) && i < |run| && k < |run[i].effects|
    ensures var e := run[i].effects[k]; Presented(hash, run[i].rows, e.id, e.user, e.code, e.at)
  {
    InitInv(max);
    forall s, s' | Inv(max, s) && AllPresented(hash, s) && Next(hash, max, s, s')
      ensures Inv(max, s') && AllPresented(hash, s')
    {
      NextKeepsPresented(hash, max, s, s');
    }
    Runs.Invariant(Init(), Steps(hash, max), s => Inv(max, s) && AllPresented(hash, s), run, i);
    assert run[i].effects[k] in run[i].effects;
  }

  /** A token that is used, superseded or exhausted in some state never acts after it, even if read before. */
  lemma ClosedTokenNeverActs(hash: Hash, max: int, run: seq<State>, i: nat, j: nat, id: TokenId)
    requires IsRun(hash, max, run) && i <= j < |run| && id in run[i].rows
    requires id in run[i].superseded || run[i].rows[id].usedAt.Some? || run[i].rows[id].attempts >= max
    ensures Acted(run[j].effects, id) <==> Acted(run[i].effects, id)
    ensures id in run[i].superseded ==> !Acted(run[j].effects, id)
  {
    RunOpens(hash, max, run, i, j);
    InvHolds(hash, max, run, i);
    assert UseOk(run[i], id);
    if Acted(run[i].effects, id) {
      var k :| 0 <= k < |run[i].effects| && run[i].effects[k].id == id;
      assert run[j].effects[k].id == id;
    }
  }
}
