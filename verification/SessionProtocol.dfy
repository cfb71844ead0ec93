/**
 * Concurrent requests over the sessions table.  A request reads the table outside any
 * transaction, may generate fresh ids, and later runs one transaction, which is one
 * atomic step; between the two any number of other requests may read and commit.
 */
module SessionProtocol {
  import opened Common
  import Runs
  import opened Sessions

  /** What a request has decided to do in its transaction, from the rows it read. */
  datatype Pending =
    | Opening(id: string, row: Session)
    | Rotating(oldId: string, newId: string, row: Session, token: string, readAt: int)
    | RevokingFamily(user: string, family: string)
    | RevokingOne(id: string, user: string)
    | RevokingAll(user: string)
    | SettingPassword(user: string)
    | Touching(id: string, at: int)

  /** Changing the password and confirming a reset both end all of the user's sessions. */
  datatype Request =
    | SignIn(id: string, family: string, user: string, device: string, tokenHash: string, meta: Meta, now: int, ttl: int)
    | Refresh(token: string, claims: Claims, meta: Meta, now: int, ttl: int, newId: string, newHash: string)
    | RevokeSession(id: string, user: string)
    | RevokeAllSessions(user: string)
    | ChangePassword(user: string)
    | ConfirmReset(user: string)
    | Authenticate(users: set<string>, token: string, claims: Claims, now: int, threshold: int)

  datatype State = State(rows: Table, issued: set<string>, pending: map<nat, Pending>)

  datatype Step = Read(r: nat, req: Request) | Commit(r: nat, now: int) | Drop(r: nat)

  type Hash = string -> string

  function Init(): State {
    State(map[], {}, map[])
  }

  /** The ids the request draws from the generator. */
  function Drawn(req: Request): set<string> {
    match req
    case SignIn(id, family, _, _, _, _, _, _) => {id, family}
    case Refresh(_, _, _, _, _, newId, _) => {newId}
    case _ => {}
  }

  /** The read phase: what transaction, if any, the request goes on to. */
  function ReadPhase(hash: Hash, rows: Table, req: Request): Option<Pending> {
    match req
    case SignIn(id, family, user, device, tokenHash, meta, now, ttl) =>
      Some(Opening(id, CreateForSignIn(user, device, tokenHash, family, meta, now, ttl)))
    case Refresh(token, claims, meta, now, ttl, newId, newHash) =>
      (match DecideRefresh(hash, rows, token, claims, now)
       case Rotate(session) =>
         Some(Rotating(claims.session, newId, CreateForRotation(session, newHash, meta, now, ttl), token, now))
       case ReuseDetected(user, family) => Some(RevokingFamily(user, family))
       case _ => None)
    case RevokeSession(id, user) => if DecideRevoke(rows, id, user) then Some(RevokingOne(id, user)) else None
    case RevokeAllSessions(user) => Some(RevokingAll(user))
    case ChangePassword(user) => Some(SettingPassword(user))
    case ConfirmReset(user) => Some(SettingPassword(user))
    case Authenticate(users, token, claims, now, threshold) =>
      if DecideAccess(rows, users, token, claims, now, threshold) == Granted(true) then Some(Touching(claims.session, now)) else None
  }

  /** The transaction's effect on the sessions table. */
  function CommitRows(rows: Table, q: Pending, now: int): Table {
    match q
    case Opening(id, row) => rows[id := row]
    case Rotating(oldId, newId, row, _, _) => Rotation(rows, oldId, newId, row, now)
    case RevokingFamily(user, family) => RevokeFamily(rows, user, family, now)
    case RevokingOne(id, user) => RevokeOne(rows, id, user, now)
    case RevokingAll(user) => RevokeAll(rows, user, now)
    case SettingPassword(user) => RevokeAll(rows, user, now)
    case Touching(id, at) => UpdateLastUsed(rows, id, at)
  }

  predicate Enabled(s: State, step: Step) {
    match step
    case Read(r, req) =>
      && r !in s.pending
      && Drawn(req) !! s.issued
      && (req.SignIn? ==> req.id != req.family)
    case Commit(r, _) => r in s.pending
    case Drop(r) => r in s.pending
  }

  function Apply(hash: Hash, s: State, step: Step): State
    requires Enabled(s, step)
  {
    match step
    case Read(r, req) =>
      var q := ReadPhase(hash, s.rows, req);
      s.(issued := s.issued + Drawn(req), pending := if q.Some? then s.pending[r := q.value] else s.pending)
    case Commit(r, now) =>
      var q := s.pending[r];
      s.(rows := CommitRows(s.rows, q, now), pending := s.pending - {r})
    case Drop(r) => s.(pending := s.pending - {r})
  }

  ghost predicate Next(hash: Hash, s: State, s': State) {
    exists step :: Enabled(s, step) && s' == Apply(hash, s, step)
  }

  ghost function Steps(hash: Hash): (State, State) -> bool {
    (s, s') => Next(hash, s, s')
  }

  ghost predicate IsRun(hash: Hash, run: seq<State>) {
    Runs.IsRun(Init(), Steps(hash), run)
  }

  // ------------------------------------------------------------------ families are chains

  predicate SameOwner(x: Session, y: Session) {
    x.user == y.user && x.device == y.device
  }

  /**
   * c lists sessions of one family, one user and one device, without repetition, each but
   * the last revoked and replaced by the next one, and the last not replaced.
   */
  ghost predicate IsChain(rows: Table, family: string, c: seq<string>) {
    && |c| > 0
    && (forall i, j :: 0 <= i < j < |c| ==> c[i] != c[j])
    && (forall i :: 0 <= i < |c| ==>
          && c[i] in rows && rows[c[i]].family == family && c[0] in rows
          && rows[c[i]].user == rows[c[0]].user && rows[c[i]].device == rows[c[0]].device)
    && (forall i :: 0 <= i < |c| - 1 ==>
          rows[c[i]].replacedBy == Some(c[i + 1]) && rows[c[i]].revokedAt.Some?)
    && rows[c[|c| - 1]].replacedBy == None
  }

  type Chains = map<string, seq<string>>

  ghost predicate OnItsChain(ch: Chains, id: string, x: Session) {
    x.family in ch && id in ch[x.family]
  }

  /** Every session lies on the chain of its family. */
  ghost predicate Chained(rows: Table, ch: Chains) {
    && (forall f :: f in ch ==> IsChain(rows, f, ch[f]))
    && (forall id :: id in rows ==> OnItsChain(ch, id, rows[id]))
  }

  function NewIds(q: Pending): set<string> {
    match q
    case Opening(id, row) => {id, row.family}
    case Rotating(_, newId, _, _, _) => {newId}
    case _ => {}
  }

  ghost predicate HasSession(rows: Table, user: string, family: string) {
    exists id :: id in rows && rows[id].user == user && rows[id].family == family
  }

  /** What stays true of a pending transaction however stale its read has become. */
  ghost predicate PendingOk(rows: Table, ch: Chains, q: Pending) {
    && NewIds(q) !! rows.Keys
    && NewIds(q) !! ch.Keys
    && match q
       case Opening(id, row) => row.replacedBy == None && id != row.family
       case Rotating(oldId, newId, row, _, _) =>
         && oldId in rows && row.replacedBy == None
         && row.family == rows[oldId].family && SameOwner(row, rows[oldId])
       case RevokingFamily(user, family) => HasSession(rows, user, family)
       case _ => true
  }

  ghost predicate InvWith(s: State, ch: Chains) {
    && Chained(s.rows, ch)
    && s.rows.Keys <= s.issued && ch.Keys <= s.issued
    && (forall r :: r in s.pending ==> NewIds(s.pending[r]) <= s.issued && PendingOk(s.rows, ch, s.pending[r]))
    && (forall r, r' :: r in s.pending && r' in s.pending && r != r' ==>
          NewIds(s.pending[r]) !! NewIds(s.pending[r']))
  }

  // ------------------------------------------------------------------ how a row may evolve

  /** Ids, owner, family and secrets are fixed; revocation and replacement are written once. */
  ghost predicate Evolves(x: Session, y: Session) {
    && y.user == x.user && y.family == x.family && y.tokenHash == x.tokenHash && y.expiresAt == x.expiresAt
    && y.device == x.device && y.ip == x.ip && y.userAgent == x.userAgent && y.createdAt == x.createdAt
    && (x.revokedAt.Some? ==> y.revokedAt == x.revokedAt && y.replacedBy == x.replacedBy && y.lastUsedAt == x.lastUsedAt)
    && (x.replacedBy.Some? ==> y.replacedBy == x.replacedBy)
    && (x.lastUsedAt.Some? ==> y.lastUsedAt.Some? && x.lastUsedAt.value <= y.lastUsedAt.value)
  }

  ghost predicate TableEvolves(rows: Table, rows': Table) {
    forall id :: id in rows ==> id in rows' && Evolves(rows[id], rows'[id])
  }

  lemma CommitEvolves(rows: Table, q: Pending, now: int)
    requires NewIds(q) !! rows.Keys
    requires forall id :: id in rows && rows[id].replacedBy.Some? ==> rows[id].revokedAt.Some?
    ensures TableEvolves(rows, CommitRows(rows, q, now))
  {
  }

  /** A commit that only revokes or touches: nothing is inserted and no link changes. */
  lemma ChainedFrame(rows: Table, rows': Table, ch: Chains)
    requires Chained(rows, ch) && rows'.Keys == rows.Keys && TableEvolves(rows, rows')
    requires forall id :: id in rows ==> rows'[id].replacedBy == rows[id].replacedBy
    ensures Chained(rows', ch)
  {
    forall f | f in ch ensures IsChain(rows', f, ch[f]) {
      assert IsChain(rows, f, ch[f]);
    }
    forall id | id in rows' ensures OnItsChain(ch, id, rows'[id]) {
      assert OnItsChain(ch, id, rows[id]);
    }
  }

  lemma InsertKeepsChain(rows: Table, f: string, c: seq<string>, id: string, row: Session)
    requires IsChain(rows, f, c) && id !in rows
    ensures IsChain(rows[id := row], f, c)
  {
  }

  lemma ChainedOpen(rows: Table, ch: Chains, id: string, row: Session)
    requires Chained(rows, ch) && id !in rows && row.family !in ch && row.replacedBy == None
    ensures Chained(rows[id := row], ch[row.family := [id]])
  {
    var rows', ch' := rows[id := row], ch[row.family := [id]];
    forall f | f in ch' ensures IsChain(rows', f, ch'[f]) {
      if f != row.family { InsertKeepsChain(rows, f, ch[f], id, row); }
    }
    forall x | x in rows' ensures OnItsChain(ch', x, rows'[x]) {
      if x != id { assert OnItsChain(ch, x, rows[x]); }
    }
  }

  lemma ReplacedAreRevoked(rows: Table, ch: Chains, id: string)
    requires Chained(rows, ch) && id in rows
    ensures rows[id].replacedBy.Some? ==> rows[id].revokedAt.Some?
    ensures OnItsChain(ch, id, rows[id]) && IsChain(rows, rows[id].family, ch[rows[id].family])
    ensures rows[id].revokedAt.None? ==> var c := ch[rows[id].family]; c[|c| - 1] == id
  {
    assert OnItsChain(ch, id, rows[id]);
    var c := ch[rows[id].family];
    assert IsChain(rows, rows[id].family, c);
    var i :| 0 <= i < |c| && c[i] == id;
  }

  lemma UnrevokedIsLast(rows: Table, ch: Chains, id: string)
    requires Chained(rows, ch) && id in rows && rows[id].revokedAt.None?
    ensures rows[id].family in ch && |ch[rows[id].family]| > 0
    ensures ch[rows[id].family][|ch[rows[id].family]| - 1] == id
  {
    ReplacedAreRevoked(rows, ch, id);
  }

  lemma ExtendedChain(rows: Table, f: string, c: seq<string>, newId: string, row: Session, now: int)
    requires IsChain(rows, f, c) && newId !in rows && Replaceable(rows, c[|c| - 1])
    requires row.replacedBy == None && row.family == f && SameOwner(row, rows[c[|c| - 1]])
    ensures IsChain(Rotation(rows, c[|c| - 1], newId, row, now), f, c + [newId])
  {
  }

  lemma OtherChain(rows: Table, rows': Table, f: string, c: seq<string>, oldId: string, newId: string)
    requires IsChain(rows, f, c) && newId !in rows && oldId in rows && rows[oldId].family != f
    requires forall id :: id in rows && id != oldId ==> id in rows' && rows'[id] == rows[id]
    ensures IsChain(rows', f, c)
  {
  }

  lemma ChainAfterRotation(rows: Table, f: string, c: seq<string>, oldId: string, newId: string, row: Session, now: int)
    requires IsChain(rows, f, c) && Replaceable(rows, oldId) && newId !in rows
    requires row.replacedBy == None && row.family == rows[oldId].family && SameOwner(row, rows[oldId])
    requires f == row.family ==> c[|c| - 1] == oldId
    ensures IsChain(Rotation(rows, oldId, newId, row, now), f, if f == row.family then c + [newId] else c)
  {
    if f == row.family {
      ExtendedChain(rows, f, c, newId, row, now);
    } else {
      OtherChain(rows, Rotation(rows, oldId, newId, row, now), f, c, oldId, newId);
    }
  }

  lemma OnChainAfterRotation(ch: Chains, ch': Chains, id: string, x: Session, family: string, newId: string)
    requires family in ch && ch' == ch[family := ch[family] + [newId]]
    requires (id == newId && x.family == family) || OnItsChain(ch, id, x)
    ensures OnItsChain(ch', id, x)
  {
    if id == newId && x.family == family { assert ch'[family][|ch[family]|] == newId; }
  }

  /** Rotation extends the chain at its end: only the last session can still be unrevoked. */
  lemma ChainedRotate(rows: Table, ch: Chains, oldId: string, newId: string, row: Session, now: int)
    requires Chained(rows, ch) && Replaceable(rows, oldId) && newId !in rows
    requires row.replacedBy == None && row.family == rows[oldId].family && SameOwner(row, rows[oldId])
    ensures row.family in ch
    ensures Chained(Rotation(rows, oldId, newId, row, now), ch[row.family := ch[row.family] + [newId]])
  {
    UnrevokedIsLast(rows, ch, oldId);
    var rows' := Rotation(rows, oldId, newId, row, now);
    var ch' := ch[row.family := ch[row.family] + [newId]];
    forall f | f in ch' ensures IsChain(rows', f, ch'[f]) {
      ChainAfterRotation(rows, f, ch[f], oldId, newId, row, now);
    }
    forall id | id in rows' ensures OnItsChain(ch', id, rows'[id]) {
      assert id != newId ==> OnItsChain(ch, id, rows[id]);
      OnChainAfterRotation(ch, ch', id, rows'[id], row.family, newId);
    }
  }

  // ------------------------------------------------------------------ the invariant is kept

  function ChainsAfter(rows: Table, ch: Chains, q: Pending): Chains {
    match q
    case Opening(id, row) => ch[row.family := [id]]
    case Rotating(oldId, newId, row, _, _) =>
      if Replaceable(rows, oldId) && row.family in ch then ch[row.family := ch[row.family] + [newId]] else ch
    case _ => ch
  }

  lemma RevocationKeepsLinks(rows: Table, q: Pending, now: int)
    requires !q.Opening? && !q.Rotating?
    ensures CommitRows(rows, q, now).Keys == rows.Keys
    ensures forall id :: id in rows ==> CommitRows(rows, q, now)[id].replacedBy == rows[id].replacedBy
  {
  }

  lemma CommitKeepsRows(rows: Table, ch: Chains, q: Pending, now: int)
    requires Chained(rows, ch) && PendingOk(rows, ch, q)
    ensures TableEvolves(rows, CommitRows(rows, q, now))
  {
    forall id | id in rows ensures rows[id].replacedBy.Some? ==> rows[id].revokedAt.Some? {
      ReplacedAreRevoked(rows, ch, id);
    }
    CommitEvolves(rows, q, now);
  }

  lemma CommitKeepsChains(rows: Table, ch: Chains, q: Pending, now: int)
    requires Chained(rows, ch) && PendingOk(rows, ch, q)
    ensures Chained(CommitRows(rows, q, now), ChainsAfter(rows, ch, q))
  {
    CommitKeepsRows(rows, ch, q, now);
    if q.Opening? {
      ChainedOpen(rows, ch, q.id, q.row);
    } else if q.Rotating? {
      if Replaceable(rows, q.oldId) { ChainedRotate(rows, ch, q.oldId, q.newId, q.row, now); }
    } else {
      RevocationKeepsLinks(rows, q, now);
      ChainedFrame(rows, CommitRows(rows, q, now), ch);
    }
  }

  lemma CommitInsertsOnlyNewIds(rows: Table, ch: Chains, q: Pending, now: int)
    ensures CommitRows(rows, q, now).Keys <= rows.Keys + NewIds(q)
    ensures ChainsAfter(rows, ch, q).Keys <= ch.Keys + NewIds(q)
  {
  }

  lemma PendingStaysOk(rows: Table, ch: Chains, rows': Table, ch': Chains, q: Pending, taken: set<string>)
    requires PendingOk(rows, ch, q) && TableEvolves(rows, rows')
    requires rows'.Keys <= rows.Keys + taken && ch'.Keys <= ch.Keys + taken && NewIds(q) !! taken
    ensures PendingOk(rows', ch', q)
  {
    if q.RevokingFamily? {
      var id :| id in rows && rows[id].user == q.user && rows[id].family == q.family;
      assert id in rows' && rows'[id].user == q.user && rows'[id].family == q.family;
    }
  }

  lemma RefreshReadOk(hash: Hash, rows: Table, token: string, claims: Claims, now: int)
    ensures match DecideRefresh(hash, rows, token, claims, now)
            case Rotate(session) => claims.session in rows && session == rows[claims.session]
            case ReuseDetected(user, family) => HasSession(rows, user, family)
            case _ => true
  {
    if claims.session in rows { var x := rows[claims.session]; assert HasSession(rows, x.user, x.family); }
  }

  lemma ReadPhaseOk(hash: Hash, rows: Table, ch: Chains, req: Request)
    requires Drawn(req) !! rows.Keys && Drawn(req) !! ch.Keys
    requires req.SignIn? ==> req.id != req.family
    ensures var q := ReadPhase(hash, rows, req);
            q.Some? ==> PendingOk(rows, ch, q.value) && NewIds(q.value) <= Drawn(req)
  {
    if req.Refresh? { RefreshReadOk(hash, rows, req.token, req.claims, req.now); }
  }

  lemma CommitKeepsInv(hash: Hash, s: State, r: nat, now: int, ch: Chains)
    requires InvWith(s, ch) && r in s.pending
    ensures InvWith(Apply(hash, s, Commit(r, now)), ChainsAfter(s.rows, ch, s.pending[r]))
    ensures TableEvolves(s.rows, Apply(hash, s, Commit(r, now)).rows)
  {
    var q := s.pending[r];
    var rows', ch' := CommitRows(s.rows, q, now), ChainsAfter(s.rows, ch, q);
    CommitKeepsRows(s.rows, ch, q, now);
    CommitKeepsChains(s.rows, ch, q, now);
    CommitInsertsOnlyNewIds(s.rows, ch, q, now);
    forall r' | r' in s.pending && r' != r ensures PendingOk(rows', ch', s.pending[r']) {
      PendingStaysOk(s.rows, ch, rows', ch', s.pending[r'], NewIds(q));
    }
  }

  lemma IssuingKeepsInv(s: State, drawn: set<string>, ch: Chains)
    requires InvWith(s, ch)
    ensures InvWith(s.(issued := s.issued + drawn), ch)
  {
  }

  lemma PendingKeepsInv(s: State, r: nat, q: Pending, ch: Chains, before: set<string>)
    requires InvWith(s, ch) && r !in s.pending && PendingOk(s.rows, ch, q) && NewIds(q) <= s.issued
    requires NewIds(q) !! before && forall r' :: r' in s.pending ==> NewIds(s.pending[r']) <= before
    ensures InvWith(s.(pending := s.pending[r := q]), ch)
  {
  }

  lemma ReadKeepsInv(hash: Hash, s: State, r: nat, req: Request, ch: Chains)
    requires InvWith(s, ch) && Enabled(s, Read(r, req))
    ensures InvWith(Apply(hash, s, Read(r, req)), ch)
  {
    ReadPhaseOk(hash, s.rows, ch, req);
    IssuingKeepsInv(s, Drawn(req), ch);
    var q := ReadPhase(hash, s.rows, req);
    if q.Some? { PendingKeepsInv(s.(issued := s.issued + Drawn(req)), r, q.value, ch, s.issued); }
  }

  lemma DropKeepsInv(hash: Hash, s: State, r: nat, ch: Chains)
    requires InvWith(s, ch) && r in s.pending
    ensures InvWith(Apply(hash, s, Drop(r)), ch)
  {
  }

  lemma UnchangedEvolves(rows: Table)
    ensures TableEvolves(rows, rows)
  {
  }

  ghost predicate Inv(s: State) {
    exists ch :: InvWith(s, ch)
  }

  lemma StepKeepsInv(hash: Hash, s: State, step: Step)
    requires Inv(s) && Enabled(s, step)
    ensures Inv(Apply(hash, s, step)) && TableEvolves(s.rows, Apply(hash, s, step).rows)
  {
    var ch :| InvWith(s, ch);
    match step {
      case Read(r, req) =>
        ReadKeepsInv(hash, s, r, req, ch);
        UnchangedEvolves(s.rows);
      case Commit(r, now) =>
        CommitKeepsInv(hash, s, r, now, ch);
      case Drop(r) =>
        DropKeepsInv(hash, s, r, ch);
        UnchangedEvolves(s.rows);
    }
  }

  lemma NextKeepsInv(hash: Hash, s: State, s': State)
    requires Inv(s) && Next(hash, s, s')
    ensures Inv(s') && TableEvolves(s.rows, s'.rows)
  {
    var step :| Enabled(s, step) && s' == Apply(hash, s, step);
    StepKeepsInv(hash, s, step);
  }

  lemma InitInv()
    ensures Inv(Init())
  {
    assert InvWith(Init(), map[]);
  }

  /** In every reachable state the rows of each family form one chain, and pending reads are still sound. */
  lemma InvHolds(hash: Hash, run: seq<State>, i: nat)
    requires IsRun(hash, run) && i < |run|
    ensures Inv(run[i])
  {
    InitInv();
    forall s, s' | Inv(s) && Next(hash, s, s') ensures Inv(s') { NextKeepsInv(hash, s, s'); }
    Runs.Invariant(Init(), Steps(hash), s => Inv(s), run, i);
  }
}
