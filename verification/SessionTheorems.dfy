/** What every interleaving of sign-ins, refreshes and revocations guarantees about sessions. */
module SessionTheorems {
  import opened Common
  import Runs
  import opened Sessions
  import opened SessionProtocol

  /** The session store carries out exactly the transaction that the protocol's commit step describes. */
  method RunTransaction(table: SessionTable, q: Pending, now: int)
    requires NewIds(q) !! table.rows.Keys
    requires q.Rotating? ==> q.oldId != q.newId
    modifies table
    ensures table.rows == CommitRows(old(table.rows), q, now)
  {
    match q
    case Opening(id, row) => table.Insert(id, row);
    case Rotating(oldId, newId, row, _, _) => var _ := table.CommitRotation(oldId, newId, row, now);
    case RevokingFamily(user, family) => table.RevokeByTokenFamily(user, family, now);
    case RevokingOne(id, user) => var _ := table.RevokeByUserId(id, user, now);
    case RevokingAll(user) => table.RevokeAllByUserId(user, now);
    case SettingPassword(user) => table.RevokeAllByUserId(user, now);
    case Touching(id, at) => table.Touch(id, at);
  }

  /** The ids a request drew are new to the store, and a sign-in's own request sees nothing of them. */
  ghost predicate DrawnIsNew(req: Request, seen: Table, rows: Table) {
    Drawn(req) !! rows.Keys && Drawn(req) !! seen.Keys
  }

  /**
   * A use case run on the store, from what it has seen to its transaction, does what the
   * protocol's read and commit steps do for its request.
   */
  method RunRequest(table: SessionTable, hash: Hash, seen: Table, req: Request, now: int)
    requires DrawnIsNew(req, seen, table.rows)
    requires req.SignIn? || req.Refresh? || req.Authenticate? ==> req.now == now
    modifies table
    ensures var q := ReadPhase(hash, seen, req);
            table.rows == if q.Some? then CommitRows(old(table.rows), q.value, now) else old(table.rows)
  {
    match req
    case SignIn(id, family, user, device, tokenHash, meta, at, ttl) =>
      table.SignIn(id, user, device, tokenHash, family, meta, at, ttl);
    case Refresh(token, claims, meta, at, ttl, newId, newHash) =>
      var _ := table.Refresh(hash, seen, token, claims, meta, at, ttl, newId, newHash);
    case RevokeSession(id, user) => var _ := table.RevokeSession(seen, id, user, now);
    case RevokeAllSessions(user) => table.RevokeAllByUserId(user, now);
    case ChangePassword(user) => table.RevokeAllByUserId(user, now);
    case ConfirmReset(user) => table.RevokeAllByUserId(user, now);
    case Authenticate(users, token, claims, at, threshold) =>
      var _ := table.Authenticate(seen, users, token, claims, at, threshold);
  }

  // ------------------------------------------------------------------ what a transaction leaves alone

  /** Is this row what the transaction is about? */
  predicate Aimed(q: Pending, id: string, x: Session) {
    match q
    case Opening(_, _) => false
    case Rotating(oldId, _, _, _, _) => id == oldId
    case RevokingFamily(user, family) => x.user == user && x.family == family
    case RevokingOne(target, user) => id == target && x.user == user
    case RevokingAll(user) => x.user == user
    case SettingPassword(user) => x.user == user
    case Touching(target, _) => id == target
  }

  /** A transaction changes only unrevoked rows it is aimed at, and of those only what it is for. */
  lemma CommitFrame(rows: Table, q: Pending, now: int, id: string)
    requires id in rows && NewIds(q) !! rows.Keys
    ensures id in CommitRows(rows, q, now)
    ensures var x, y := rows[id], CommitRows(rows, q, now)[id];
            if !Aimed(q, id, x) || x.revokedAt.Some? then y == x
            else if q.Rotating? then y == x.(revokedAt := Some(now), replacedBy := Some(q.newId))
            else if q.Touching? then
              y == x.(lastUsedAt := y.lastUsedAt) && y.lastUsedAt.Some? && y.lastUsedAt.value >= q.at
              && (y.lastUsedAt.value == q.at || y.lastUsedAt == x.lastUsedAt)
            else y == x.(revokedAt := Some(now))
  {
  }

  /** A transaction inserts at most its own new row, and a rotation only next to the unrevoked row it replaces. */
  lemma CommitInserts(rows: Table, q: Pending, now: int, id: string)
    requires id !in rows && NewIds(q) !! rows.Keys
    ensures id in CommitRows(rows, q, now) <==>
            || (q.Opening? && id == q.id)
            || (q.Rotating? && id == q.newId && q.oldId in rows && rows[q.oldId].revokedAt.None?)
    ensures id in CommitRows(rows, q, now) ==> CommitRows(rows, q, now)[id] == q.row
  {
  }

  /** The step commits a transaction that ends sessions, and this session is its aim. */
  ghost predicate EndedBy(hash: Hash, s: State, s': State, id: string, r: nat, now: int) {
    && r in s.pending && id in s.rows && s' == Apply(hash, s, Commit(r, now))
    && Aimed(s.pending[r], id, s.rows[id]) && !s.pending[r].Touching?
    && id in s'.rows && s'.rows[id].revokedAt == Some(now)
  }

  ghost predicate Ended(hash: Hash, s: State, s': State, id: string) {
    exists r, now :: EndedBy(hash, s, s', id, r, now)
  }

  lemma CommitEnds(hash: Hash, s: State, r: nat, now: int, id: string)
    requires r in s.pending && NewIds(s.pending[r]) !! s.rows.Keys && id in s.rows && s.rows[id].revokedAt.None?
    ensures var s' := Apply(hash, s, Commit(r, now));
            id in s'.rows && (s'.rows[id].revokedAt.Some? ==> EndedBy(hash, s, s', id, r, now))
  {
    CommitFrame(s.rows, s.pending[r], now, id);
  }

  lemma PendingIdsAreNew(s: State, r: nat)
    requires Inv(s) && r in s.pending
    ensures NewIds(s.pending[r]) !! s.rows.Keys
  {
    var ch :| InvWith(s, ch);
    assert PendingOk(s.rows, ch, s.pending[r]);
  }

  lemma StepEnds(hash: Hash, s: State, s': State, id: string)
    requires Inv(s) && Next(hash, s, s') && id in s.rows && s.rows[id].revokedAt.None?
    ensures id in s'.rows && (s'.rows[id].revokedAt.Some? ==> Ended(hash, s, s', id))
  {
    var step :| Enabled(s, step) && s' == Apply(hash, s, step);
    if step.Commit? {
      PendingIdsAreNew(s, step.r);
      CommitEnds(hash, s, step.r, step.now, id);
    }
  }

  lemma RunStepEnds(hash: Hash, run: seq<State>, k: nat, id: string)
    requires IsRun(hash, run) && k + 1 < |run| && id in run[k].rows && run[k].rows[id].revokedAt.None?
    ensures id in run[k + 1].rows && (run[k + 1].rows[id].revokedAt.Some? ==> Ended(hash, run[k], run[k + 1], id))
  {
    InvHolds(hash, run, k);
    assert Steps(hash)(run[k + 1 - 1], run[k + 1]);
    StepEnds(hash, run[k], run[k + 1], id);
  }

  /**
   * On every run a session is revoked only by a committed transaction aimed at it, at its
   * family or at its user; nobody else's sign-out, rotation or password change ends it.
   */
  lemma {:induction false} RevokedOnlyByAim(hash: Hash, run: seq<State>, i: nat, j: nat, id: string) returns (k: nat)
    requires IsRun(hash, run) && i <= j < |run| && id in run[i].rows && run[i].rows[id].revokedAt.None?
    requires id in run[j].rows && run[j].rows[id].revokedAt.Some?
    ensures i <= k < j && Ended(hash, run[k], run[k + 1], id)
    decreases j - i
  {
    RunStepEnds(hash, run, i, id);
    if run[i + 1].rows[id].revokedAt.Some? {
      k := i;
    } else {
      k := RevokedOnlyByAim(hash, run, i + 1, j, id);
    }
  }

  // ------------------------------------------------------------------ one chain per family

  /** In every reachable state the sessions of a family are exactly the elements of one chain. */
  lemma FamilyIsOneChain(hash: Hash, run: seq<State>, i: nat, family: string) returns (c: seq<string>)
    requires IsRun(hash, run) && i < |run|
    requires exists id :: id in run[i].rows && run[i].rows[id].family == family
    ensures IsChain(run[i].rows, family, c)
    ensures forall id :: id in c <==> id in run[i].rows && run[i].rows[id].family == family
  {
    InvHolds(hash, run, i);
    var ch :| InvWith(run[i], ch);
    var rows := run[i].rows;
    var x :| x in rows && rows[x].family == family;
    ReplacedAreRevoked(rows, ch, x);
    c := ch[family];
    forall id | id in rows && rows[id].family == family ensures id in c {
      ReplacedAreRevoked(rows, ch, id);
    }
  }

  lemma FamilyHasOneUser(rows: Table, ch: Chains, a: string, b: string)
    requires Chained(rows, ch) && a in rows && b in rows && rows[a].family == rows[b].family
    ensures SameOwner(rows[a], rows[b])
  {
    ReplacedAreRevoked(rows, ch, a);
    ReplacedAreRevoked(rows, ch, b);
  }

  /** A family never has two sessions that are not revoked, and all its sessions belong to one user and one device. */
  lemma AtMostOneLiveSession(hash: Hash, run: seq<State>, i: nat, a: string, b: string)
    requires IsRun(hash, run) && i < |run|
    requires a in run[i].rows && b in run[i].rows && run[i].rows[a].family == run[i].rows[b].family
    ensures SameOwner(run[i].rows[a], run[i].rows[b])
    ensures run[i].rows[a].revokedAt.None? && run[i].rows[b].revokedAt.None? ==> a == b
  {
    InvHolds(hash, run, i);
    var ch :| InvWith(run[i], ch);
    ReplacedAreRevoked(run[i].rows, ch, a);
    ReplacedAreRevoked(run[i].rows, ch, b);
  }

  /** The listing shows at most one session for each sign-in, however often it was refreshed. */
  lemma ListingHasOnePerFamily(hash: Hash, run: seq<State>, i: nat, user: string, now: int, a: string, b: string)
    requires IsRun(hash, run) && i < |run|
    requires a in run[i].rows && run[i].rows[a].user == user && run[i].rows[a].revokedAt.None? && run[i].rows[a].expiresAt > now
    requires b in run[i].rows && run[i].rows[b].user == user && run[i].rows[b].revokedAt.None? && run[i].rows[b].expiresAt > now
    ensures a != b ==> run[i].rows[a].family != run[i].rows[b].family
  {
    if run[i].rows[a].family == run[i].rows[b].family { AtMostOneLiveSession(hash, run, i, a, b); }
  }

  // ------------------------------------------------------------------ histories

  /** Rows are never deleted, and every write to a row respects Evolves, over any stretch of a run. */
  lemma RowsEvolve(hash: Hash, run: seq<State>, i: nat, j: nat)
    requires IsRun(hash, run) && i <= j < |run|
    ensures TableEvolves(run[i].rows, run[j].rows)
  {
    InitInv();
    forall s, s' | Inv(s) && Next(hash, s, s') ensures Inv(s') && TableEvolves(s.rows, s'.rows) {
      NextKeepsInv(hash, s, s');
    }
    Runs.Related(Init(), Steps(hash), s => Inv(s), (s: State, s': State) => TableEvolves(s.rows, s'.rows), run, i, j);
  }

  /** A session is rotated at most once: its replacement, once written, is final, and so is its revocation. */
  lemma RotatedAtMostOnce(hash: Hash, run: seq<State>, i: nat, j: nat, id: string)
    requires IsRun(hash, run) && i <= j < |run|
    requires id in run[i].rows && run[i].rows[id].replacedBy.Some?
    ensures id in run[j].rows && run[j].rows[id].replacedBy == run[i].rows[id].replacedBy
    ensures run[j].rows[id].revokedAt.Some? && !Replaceable(run[j].rows, id)
  {
    InvHolds(hash, run, i);
    var ch :| InvWith(run[i], ch);
    ReplacedAreRevoked(run[i].rows, ch, id);
    RowsEvolve(hash, run, i, j);
    assert Evolves(run[i].rows[id], run[j].rows[id]);
  }

  /** A refresh token whose session is revoked is recognised as reused at every later time of the run. */
  lemma ReplayIsAlwaysDetected(hash: Hash, run: seq<State>, i: nat, j: nat, token: string, claims: Claims, now: int)
    requires IsRun(hash, run) && i <= j < |run| && token != ""
    requires claims.session in run[i].rows
    requires var x := run[i].rows[claims.session];
             x.revokedAt.Some? && x.tokenHash == hash(token) && claims.user == x.user && claims.family == Some(x.family)
    ensures DecideRefresh(hash, run[j].rows, token, claims, now) == ReuseDetected(claims.user, claims.family.value)
  {
    RowsEvolve(hash, run, i, j);
    assert Evolves(run[i].rows[claims.session], run[j].rows[claims.session]);
  }

  /**
   * The life of a refresh token on every run: whoever holds it is granted a refresh as long
   * as its session is neither revoked nor expired, and is caught once it is revoked.
   */
  lemma TokenWorksWhileLive(hash: Hash, run: seq<State>, i: nat, j: nat, id: string, token: string, now: int)
    requires IsRun(hash, run) && i <= j < |run| && token != ""
    requires id in run[i].rows && run[i].rows[id].tokenHash == hash(token)
    ensures id in run[j].rows
    ensures var x, y := run[i].rows[id], run[j].rows[id];
            var d := DecideRefresh(hash, run[j].rows, token, Claims(id, x.user, Some(x.family)), now);
            && (d.Rotate? <==> y.revokedAt.None? && now < x.expiresAt)
            && (d.SessionExpired? <==> y.revokedAt.None? && x.expiresAt <= now)
            && (d == ReuseDetected(x.user, x.family) <==> y.revokedAt.Some?)
  {
    RowsEvolve(hash, run, i, j);
    assert Evolves(run[i].rows[id], run[j].rows[id]);
  }

  // ------------------------------------------------------------------ rotations are earned

  /** The request presented the refresh token of the session it is about to replace, before that session expired. */
  ghost predicate Presented(hash: Hash, rows: Table, q: Pending) {
    q.Rotating? ==> && q.oldId in rows && q.token != ""
                    && rows[q.oldId].tokenHash == hash(q.token) && q.readAt < rows[q.oldId].expiresAt
  }

  ghost predicate AllPresented(hash: Hash, s: State) {
    forall r :: r in s.pending ==> Presented(hash, s.rows, s.pending[r])
  }

  lemma ReadPresents(hash: Hash, rows: Table, req: Request)
    ensures var q := ReadPhase(hash, rows, req); q.Some? ==> Presented(hash, rows, q.value)
  {
  }

  lemma StillPresented(hash: Hash, rows: Table, rows': Table, q: Pending)
    requires Presented(hash, rows, q) && TableEvolves(rows, rows')
    ensures Presented(hash, rows', q)
  {
  }

  /** A pending transaction was pending before, or comes from the read just made. */
  lemma PendingOrigin(hash: Hash, s: State, step: Step, r: nat)
    requires Enabled(s, step) && r in Apply(hash, s, step).pending
    ensures var q := Apply(hash, s, step).pending[r];
            || (r in s.pending && q == s.pending[r])
            || (step.Read? && ReadPhase(hash, s.rows, step.req) == Some(q) && Apply(hash, s, step).rows == s.rows)
  {
  }

  lemma StepKeepsPresented(hash: Hash, s: State, step: Step)
    requires AllPresented(hash, s) && Enabled(s, step) && TableEvolves(s.rows, Apply(hash, s, step).rows)
    ensures AllPresented(hash, Apply(hash, s, step))
  {
    var s' := Apply(hash, s, step);
    forall r | r in s'.pending ensures Presented(hash, s'.rows, s'.pending[r]) {
      PendingOrigin(hash, s, step, r);
      if r in s.pending && s'.pending[r] == s.pending[r] {
        StillPresented(hash, s.rows, s'.rows, s.pending[r]);
      } else {
        ReadPresents(hash, s.rows, step.req);
      }
    }
  }

  lemma NextKeepsPresented(hash: Hash, s: State, s': State)
    requires AllPresented(hash, s) && Next(hash, s, s') && TableEvolves(s.rows, s'.rows)
    ensures AllPresented(hash, s')
  {
    var step :| Enabled(s, step) && s' == Apply(hash, s, step);
    StepKeepsPresented(hash, s, step);
  }

  /**
   * On every run, a transaction that rotates a session was requested by someone who held
   * that session's refresh token before it expired, however long the transaction took.
   */
  lemma RotationsAreEarned(hash: Hash, run: seq<State>, i: nat, r: nat)
    requires IsRun(hash, run) && i < |run| && r in run[i].pending
    ensures Presented(hash, run[i].rows, run[i].pending[r])
  {
    InitInv();
    forall s, s' | Inv(s) && AllPresented(hash, s) && Next(hash, s, s') ensures Inv(s') && AllPresented(hash, s') {
      NextKeepsInv(hash, s, s');
      NextKeepsPresented(hash, s, s');
    }
    Runs.Invariant(Init(), Steps(hash), s => Inv(s) && AllPresented(hash, s), run, i);
  }

  // ------------------------------------------------------------------ revocation is final

  /** The family exists and all of its sessions are revoked. */
  ghost predicate Dead(rows: Table, family: string) {
    && (exists id :: id in rows && rows[id].family == family)
    && (forall id :: id in rows && rows[id].family == family ==> rows[id].revokedAt.Some?)
  }

  /** A commit inserts a row only into a new family or next to an unrevoked session of the same family. */
  lemma InsertedRow(rows: Table, ch: Chains, q: Pending, now: int, id: string)
    requires PendingOk(rows, ch, q) && id !in rows && id in CommitRows(rows, q, now)
    ensures var family := CommitRows(rows, q, now)[id].family;
            family !in ch || exists x :: x in rows && rows[x].family == family && rows[x].revokedAt.None?
  {
    if q.Rotating? { assert Replaceable(rows, q.oldId); }
  }

  /** No commit revives a dead family, whatever the transaction's request had read. */
  lemma CommitKeepsDead(rows: Table, ch: Chains, q: Pending, now: int, family: string)
    requires Chained(rows, ch) && PendingOk(rows, ch, q) && Dead(rows, family)
    ensures Dead(CommitRows(rows, q, now), family)
  {
    var rows' := CommitRows(rows, q, now);
    CommitKeepsRows(rows, ch, q, now);
    var x :| x in rows && rows[x].family == family;
    assert OnItsChain(ch, x, rows[x]);
    DeadByRow(rows, rows', ch, family, x, q, now);
  }

  lemma DeadByRow(rows: Table, rows': Table, ch: Chains, family: string, x: string, q: Pending, now: int)
    requires PendingOk(rows, ch, q) && rows' == CommitRows(rows, q, now) && TableEvolves(rows, rows')
    requires Dead(rows, family) && family in ch && x in rows && rows[x].family == family
    ensures Dead(rows', family)
  {
    assert Evolves(rows[x], rows'[x]);
    forall id | id in rows' && rows'[id].family == family ensures rows'[id].revokedAt.Some? {
      if id in rows {
        assert Evolves(rows[id], rows'[id]);
      } else {
        InsertedRow(rows, ch, q, now, id);
      }
    }
  }

  lemma NextKeepsDead(hash: Hash, s: State, s': State, family: string)
    requires Inv(s) && Next(hash, s, s') && Dead(s.rows, family)
    ensures Dead(s'.rows, family)
  {
    var ch :| InvWith(s, ch);
    var step :| Enabled(s, step) && s' == Apply(hash, s, step);
    if step.Commit? { CommitKeepsDead(s.rows, ch, s.pending[step.r], step.now, family); }
  }

  /** Once every session of a family is revoked, that stays so. */
  lemma DeadFamilyStaysDead(hash: Hash, run: seq<State>, i: nat, j: nat, family: string)
    requires IsRun(hash, run) && i <= j < |run| && Dead(run[i].rows, family)
    ensures Dead(run[j].rows, family)
  {
    InitInv();
    forall s, s' | Inv(s) && Next(hash, s, s')
      ensures Inv(s') && (Dead(s.rows, family) ==> Dead(s'.rows, family))
    {
      NextKeepsInv(hash, s, s');
      if Dead(s.rows, family) { NextKeepsDead(hash, s, s', family); }
    }
    Runs.Related(Init(), Steps(hash), s => Inv(s),
                 (s: State, s': State) => Dead(s.rows, family) ==> Dead(s'.rows, family), run, i, j);
  }

  /** Reuse detection revokes the whole family, including sessions created after the reused token was read. */
  lemma FamilyRevocationKills(rows: Table, ch: Chains, user: string, family: string, now: int)
    requires Chained(rows, ch) && HasSession(rows, user, family)
    ensures Dead(RevokeFamily(rows, user, family, now), family)
  {
    var x :| x in rows && rows[x].user == user && rows[x].family == family;
    var rows' := RevokeFamily(rows, user, family, now);
    assert rows'[x].family == family;
    forall id | id in rows' && rows'[id].family == family ensures rows'[id].revokedAt.Some? {
      FamilyHasOneUser(rows, ch, x, id);
    }
  }

  /** Revoking by user kills every family the user has at that moment. */
  lemma UserRevocationKills(rows: Table, ch: Chains, user: string, family: string, now: int)
    requires Chained(rows, ch) && HasSession(rows, user, family)
    ensures Dead(RevokeAll(rows, user, now), family)
  {
    var x :| x in rows && rows[x].user == user && rows[x].family == family;
    var rows' := RevokeAll(rows, user, now);
    assert rows'[x].family == family;
    forall id | id in rows' && rows'[id].family == family ensures rows'[id].revokedAt.Some? {
      FamilyHasOneUser(rows, ch, x, id);
    }
  }

  /** The families a pending transaction is about to end. */
  ghost predicate Ends(rows: Table, q: Pending, family: string) {
    || (q.RevokingFamily? && q.family == family)
    || ((q.RevokingAll? || q.SettingPassword?) && HasSession(rows, q.user, family))
  }

  lemma EndingCommitKills(s: State, r: nat, now: int, family: string)
    requires Inv(s) && r in s.pending && Ends(s.rows, s.pending[r], family)
    ensures Dead(CommitRows(s.rows, s.pending[r], now), family)
  {
    var ch, q :| InvWith(s, ch) && q == s.pending[r];
    assert PendingOk(s.rows, ch, q);
    if q.RevokingFamily? {
      FamilyRevocationKills(s.rows, ch, q.user, family, now);
    } else {
      UserRevocationKills(s.rows, ch, q.user, family, now);
    }
  }

  /** A session of a dead family can be neither refreshed nor used. */
  lemma DeadSessionIsRefused(hash: Hash, rows: Table, family: string, token: string, claims: Claims, users: set<string>,
                             access: string, now: int, threshold: int)
    requires Dead(rows, family) && claims.session in rows && rows[claims.session].family == family
    ensures rows[claims.session].revokedAt.Some?
    ensures !DecideRefresh(hash, rows, token, claims, now).Rotate?
    ensures !DecideAccess(rows, users, access, claims, now, threshold).Granted?
  {
  }

  /**
   * Revocation is final.  Once reuse detection, revoke-all, a password change or a reset has
   * committed, no session of an ended family is unrevoked, can be refreshed or grants
   * access in any later state, even through a refresh that read its session earlier.
   */
  lemma RevocationIsFinal(hash: Hash, run: seq<State>, i: nat, j: nat, r: nat, now: int, family: string,
                          token: string, claims: Claims, users: set<string>, access: string, later: int, threshold: int)
    requires IsRun(hash, run) && i < j < |run|
    requires r in run[i].pending && Ends(run[i].rows, run[i].pending[r], family)
    requires run[i + 1].rows == CommitRows(run[i].rows, run[i].pending[r], now)
    requires claims.session in run[j].rows && run[j].rows[claims.session].family == family
    ensures run[j].rows[claims.session].revokedAt.Some?
    ensures !DecideRefresh(hash, run[j].rows, token, claims, later).Rotate?
    ensures !DecideAccess(run[j].rows, users, access, claims, later, threshold).Granted?
  {
    InvHolds(hash, run, i);
    EndingCommitKills(run[i], r, now, family);
    DeadFamilyStaysDead(hash, run, i + 1, j, family);
    DeadSessionIsRefused(hash, run[j].rows, family, token, claims, users, access, later, threshold);
  }
}
