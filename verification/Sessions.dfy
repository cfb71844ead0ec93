/**
 * The sessions table, the factories that build its rows, the decisions the use cases take
 * on a row they have read, and the SQL statements that change the table.
 */
module Sessions {
  import opened Common

  datatype Session = Session(
    user: string, device: Option<string>, tokenHash: string, ip: Option<string>, userAgent: Option<string>,
    createdAt: int, lastUsedAt: Option<int>, expiresAt: int, revokedAt: Option<int>,
    family: string, replacedBy: Option<string>)

  type Table = map<string, Session>

  datatype Meta = Meta(ip: Option<string>, userAgent: Option<string>)

  datatype Claims = Claims(session: string, user: string, family: Option<string>)

  function OrElse<T>(a: Option<T>, b: Option<T>): Option<T> {
    if a.Some? then a else b
  }

  // ------------------------------------------------------------------ factories

  /** A sign-in opens a new family; the INSERT stamps created_at and last_used_at. */
  function CreateForSignIn(user: string, device: string, tokenHash: string, family: string,
                           meta: Meta, now: int, ttl: int): Session
  {
    Session(user, Some(device), tokenHash, meta.ip, meta.userAgent, now, Some(now), now + ttl, None, family, None)
  }

  /** A rotation inherits user, device and family, and whatever the request did not supply. */
  function CreateForRotation(previous: Session, tokenHash: string, meta: Meta, now: int, ttl: int): Session {
    Session(previous.user, previous.device, tokenHash, OrElse(meta.ip, previous.ip),
            OrElse(meta.userAgent, previous.userAgent), now, Some(now), now + ttl, None, previous.family, None)
  }

  // ------------------------------------------------------------------ decisions on what was read

  datatype RefreshDecision =
    | EmptyToken | SessionNotFound | SubjectMismatch | FamilyMismatch
    | ReuseDetected(user: string, family: string)
    | SessionRevoked | SessionExpired | HashMismatch
    | Rotate(session: Session)
    | AlreadyRotated

  /** The refresh use case up to its transaction, in the order of its checks. */
  function DecideRefresh(hash: string -> string, rows: Table, token: string, claims: Claims, now: int): RefreshDecision {
    if token == "" then EmptyToken
    else if claims.session !in rows then SessionNotFound
    else
      var session := rows[claims.session];
      if session.user != claims.user then SubjectMismatch
      else if claims.family != Some(session.family) then FamilyMismatch
      else if session.revokedAt.Some? then
        if session.tokenHash == hash(token) then ReuseDetected(session.user, session.family) else SessionRevoked
      else if session.expiresAt <= now then SessionExpired
      else if session.tokenHash != hash(token) then HashMismatch
      else Rotate(session)
  }

  /** Which answer a refresh gets, said of the row it finds. */
  lemma RefreshDecidedExactly(hash: string -> string, rows: Table, token: string, claims: Claims, now: int)
    ensures var d := DecideRefresh(hash, rows, token, claims, now);
            && (d.EmptyToken? <==> token == "")
            && (d.SessionNotFound? <==> token != "" && claims.session !in rows)
            && (token != "" && claims.session in rows ==>
                  var x := rows[claims.session];
                  var mine := x.user == claims.user && claims.family == Some(x.family);
                  && (d.SubjectMismatch? <==> x.user != claims.user)
                  && (d.FamilyMismatch? <==> x.user == claims.user && claims.family != Some(x.family))
                  && (d == ReuseDetected(x.user, x.family) <==> mine && x.revokedAt.Some? && x.tokenHash == hash(token))
                  && (d.SessionRevoked? <==> mine && x.revokedAt.Some? && x.tokenHash != hash(token))
                  && (d.SessionExpired? <==> mine && x.revokedAt.None? && x.expiresAt <= now)
                  && (d.HashMismatch? <==> mine && x.revokedAt.None? && now < x.expiresAt && x.tokenHash != hash(token))
                  && (d == Rotate(x) <==> mine && x.revokedAt.None? && now < x.expiresAt && x.tokenHash == hash(token)))
  {
  }

  datatype AccessDecision =
    | MissingToken | AccessNotFound | AccessMismatch | AccessRevoked | AccessExpired | UserNotFound
    | Granted(touch: bool)

  /** Access-token authentication; a granted request may also refresh last_used_at. */
  function DecideAccess(rows: Table, users: set<string>, token: string, claims: Claims, now: int, threshold: int): AccessDecision {
    if token == "" then MissingToken
    else if claims.session !in rows then AccessNotFound
    else
      var session := rows[claims.session];
      if session.user != claims.user then AccessMismatch
      else if session.revokedAt.Some? then AccessRevoked
      else if session.expiresAt <= now then AccessExpired
      else if claims.user !in users then UserNotFound
      else Granted(session.lastUsedAt.None? || session.lastUsedAt.value + threshold <= now)
  }

  /** Which answer an access token gets, said of the row it finds. */
  lemma AccessDecidedExactly(rows: Table, users: set<string>, token: string, claims: Claims, now: int, threshold: int)
    ensures var d := DecideAccess(rows, users, token, claims, now, threshold);
            && (d.MissingToken? <==> token == "")
            && (d.AccessNotFound? <==> token != "" && claims.session !in rows)
            && (token != "" && claims.session in rows ==>
                  var x := rows[claims.session];
                  && (d.AccessMismatch? <==> x.user != claims.user)
                  && (d.AccessRevoked? <==> x.user == claims.user && x.revokedAt.Some?)
                  && (d.AccessExpired? <==> x.user == claims.user && x.revokedAt.None? && x.expiresAt <= now)
                  && (d.UserNotFound? <==> x.user == claims.user && x.revokedAt.None? && now < x.expiresAt && x.user !in users)
                  && (d.Granted? <==> x.user == claims.user && x.revokedAt.None? && now < x.expiresAt && x.user in users)
                  && (d.Granted? ==> (d.touch <==> x.lastUsedAt.None? || x.lastUsedAt.value <= now - threshold)))
  {
  }

  datatype RevokeDecision = Missing | Forbidden | Done

  /** Does revoking one session go on to its UPDATE? */
  predicate DecideRevoke(rows: Table, id: string, user: string) {
    id in rows && rows[id].user == user && rows[id].revokedAt.None?
  }

  // ------------------------------------------------------------------ SQL statements as functions

  /** SET revoked_at = now WHERE revoked_at IS NULL, on one row. */
  function Revoked(x: Session, now: int): Session {
    if x.revokedAt.None? then x.(revokedAt := Some(now)) else x
  }

  function RevokeFamily(rows: Table, user: string, family: string, now: int): Table {
    map id | id in rows ::
      if rows[id].user == user && rows[id].family == family then Revoked(rows[id], now) else rows[id]
  }

  function RevokeAll(rows: Table, user: string, now: int): Table {
    map id | id in rows :: if rows[id].user == user then Revoked(rows[id], now) else rows[id]
  }

  function RevokeOne(rows: Table, id: string, user: string, now: int): Table {
    if id in rows && rows[id].user == user then rows[id := Revoked(rows[id], now)] else rows
  }

  function UpdateLastUsed(rows: Table, id: string, at: int): Table {
    if id in rows && rows[id].revokedAt.None? then
      var last := rows[id].lastUsedAt;
      rows[id := rows[id].(lastUsedAt := Some(if last.Some? && last.value > at then last.value else at))]
    else rows
  }

  predicate Replaceable(rows: Table, id: string) {
    id in rows && rows[id].revokedAt.None?
  }

  /** The rotation transaction: insert the replacement and revoke the old row, or roll everything back. */
  function Rotation(rows: Table, oldId: string, newId: string, row: Session, now: int): Table {
    if Replaceable(rows, oldId)
    then rows[newId := row][oldId := rows[oldId].(revokedAt := Some(now), replacedBy := Some(newId))]
    else rows
  }

  // ------------------------------------------------------------------ the table

  class SessionTable {
    var rows: Table

    constructor ()
      ensures rows == map[]
    {
      rows := map[];
    }

    method Insert(id: string, row: Session)
      requires id !in rows
      modifies this
      ensures rows == old(rows)[id := row]
    {
      rows := rows[id := row];
    }

    /** One row after another, as the UPDATE visits them. */
    method RevokeByTokenFamily(user: string, family: string, now: int)
      modifies this
      ensures rows == RevokeFamily(old(rows), user, family, now)
      ensures rows.Keys == old(rows).Keys
      ensures forall id :: id in old(rows) ==>
                var x := old(rows)[id];
                rows[id] == if x.user == user && x.family == family && x.revokedAt.None? then x.(revokedAt := Some(now)) else x
    {
      var todo := rows.Keys;
      while todo != {}
        invariant todo <= rows.Keys == old(rows).Keys
        invariant forall id :: id in todo ==> rows[id] == old(rows)[id]
        invariant forall id :: id in rows && id !in todo ==> rows[id] == RevokeFamily(old(rows), user, family, now)[id]
        decreases todo
      {
        var id :| id in todo;
        if rows[id].user == user && rows[id].family == family && rows[id].revokedAt.None? {
          rows := rows[id := rows[id].(revokedAt := Some(now))];
        }
        todo := todo - {id};
      }
    }

    method RevokeAllByUserId(user: string, now: int)
      modifies this
      ensures rows == RevokeAll(old(rows), user, now)
      ensures rows.Keys == old(rows).Keys
      ensures forall id :: id in old(rows) ==>
                var x := old(rows)[id];
                rows[id] == if x.user == user && x.revokedAt.None? then x.(revokedAt := Some(now)) else x
    {
      var todo := rows.Keys;
      while todo != {}
        invariant todo <= rows.Keys == old(rows).Keys
        invariant forall id :: id in todo ==> rows[id] == old(rows)[id]
        invariant forall id :: id in rows && id !in todo ==> rows[id] == RevokeAll(old(rows), user, now)[id]
        decreases todo
      {
        var id :| id in todo;
        if rows[id].user == user && rows[id].revokedAt.None? {
          rows := rows[id := rows[id].(revokedAt := Some(now))];
        }
        todo := todo - {id};
      }
    }

    method RevokeByUserId(id: string, user: string, now: int) returns (revoked: bool)
      modifies this
      ensures rows == RevokeOne(old(rows), id, user, now)
      ensures revoked <==> id in old(rows) && old(rows)[id].user == user && old(rows)[id].revokedAt.None?
      ensures rows == if revoked then old(rows)[id := old(rows)[id].(revokedAt := Some(now))] else old(rows)
    {
      revoked := id in rows && rows[id].user == user && rows[id].revokedAt.None?;
      if revoked {
        rows := rows[id := rows[id].(revokedAt := Some(now))];
      }
    }

    method RevokeAndReplace(id: string, replacement: string, now: int) returns (replaced: bool)
      modifies this
      ensures replaced <==> id in old(rows) && old(rows)[id].revokedAt.None?
      ensures rows == if replaced
                      then old(rows)[id := old(rows)[id].(revokedAt := Some(now), replacedBy := Some(replacement))]
                      else old(rows)
    {
      replaced := id in rows && rows[id].revokedAt.None?;
      if replaced {
        rows := rows[id := rows[id].(revokedAt := Some(now), replacedBy := Some(replacement))];
      }
    }

    method Touch(id: string, at: int)
      modifies this
      ensures rows == UpdateLastUsed(old(rows), id, at)
      ensures !(id in old(rows) && old(rows)[id].revokedAt.None?) ==> rows == old(rows)
      ensures id in old(rows) && old(rows)[id].revokedAt.None? ==>
                var x := old(rows)[id];
                rows == old(rows)[id := x.(lastUsedAt := if x.lastUsedAt.Some? && at < x.lastUsedAt.value then x.lastUsedAt else Some(at))]
    {
      if id in rows && rows[id].revokedAt.None? {
        var last := at;
        if rows[id].lastUsedAt.Some? && rows[id].lastUsedAt.value > at { last := rows[id].lastUsedAt.value; }
        rows := rows[id := rows[id].(lastUsedAt := Some(last))];
      }
    }

    /** The refresh transaction.  A lost race throws before the commit, which undoes the insert. */
    method CommitRotation(oldId: string, newId: string, row: Session, now: int) returns (rotated: bool)
      requires newId !in rows && oldId != newId
      modifies this
      ensures rows == Rotation(old(rows), oldId, newId, row, now)
      ensures rotated <==> oldId in old(rows) && old(rows)[oldId].revokedAt.None?
      ensures !rotated ==> rows == old(rows)
      ensures rotated ==>
                rows == old(rows)[newId := row][oldId := old(rows)[oldId].(revokedAt := Some(now), replacedBy := Some(newId))]
    {
      var before := rows;
      Insert(newId, row);
      rotated := RevokeAndReplace(oldId, newId, now);
      if !rotated { rows := before; }
    }

    /** The transaction of a sign-in: one new row, which opens a family of its own. */
    method SignIn(id: string, user: string, device: string, tokenHash: string, family: string, meta: Meta, now: int, ttl: int)
      requires id !in rows
      modifies this
      ensures rows.Keys == old(rows).Keys + {id} && rows - {id} == old(rows)
      ensures var x := rows[id];
              && x.user == user && x.device == Some(device) && x.tokenHash == tokenHash && x.family == family
              && x.ip == meta.ip && x.userAgent == meta.userAgent
              && x.createdAt == now && x.lastUsedAt == Some(now) && x.expiresAt == now + ttl
              && x.revokedAt == None && x.replacedBy == None
    {
      Insert(id, CreateForSignIn(user, device, tokenHash, family, meta, now, ttl));
    }

    /** Access-token authentication on the table it has seen, which may move last_used_at forward. */
    method Authenticate(seen: Table, users: set<string>, token: string, claims: Claims, now: int, threshold: int)
      returns (decision: AccessDecision)
      modifies this
      ensures decision == DecideAccess(seen, users, token, claims, now, threshold)
      ensures rows == if decision == Granted(true) then UpdateLastUsed(old(rows), claims.session, now) else old(rows)
      ensures decision.Granted? <==>
              && token != "" && claims.session in seen && seen[claims.session].user == claims.user && claims.user in users
              && seen[claims.session].revokedAt.None? && now < seen[claims.session].expiresAt
      ensures decision.Granted? && seen == old(rows) && threshold >= 0 ==>
                rows[claims.session].lastUsedAt.Some? && now <= rows[claims.session].lastUsedAt.value + threshold
    {
      if token == "" { return MissingToken; }
      if claims.session !in seen { return AccessNotFound; }
      var session := seen[claims.session];
      if session.user != claims.user { return AccessMismatch; }
      if session.revokedAt.Some? { return AccessRevoked; }
      if session.expiresAt <= now { return AccessExpired; }
      if claims.user !in users { return UserNotFound; }
      var touch := session.lastUsedAt.None? || session.lastUsedAt.value + threshold <= now;
      if touch { Touch(claims.session, now); }
      decision := Granted(touch);
    }

    /** Revoking one session: a session of another user is refused, an already revoked one is left alone. */
    method RevokeSession(seen: Table, id: string, user: string, now: int) returns (decision: RevokeDecision)
      modifies this
      ensures decision.Missing? <==> id !in seen
      ensures decision.Forbidden? <==> id in seen && seen[id].user != user
      ensures rows == if DecideRevoke(seen, id, user) then RevokeOne(old(rows), id, user, now) else old(rows)
      ensures decision.Done? && seen == old(rows) ==>
                && id in rows && rows[id].revokedAt.Some? && rows - {id} == old(rows) - {id}
                && (old(rows)[id].revokedAt.Some? ==> rows == old(rows))
    {
      if id !in seen { return Missing; }
      if seen[id].user != user { return Forbidden; }
      if seen[id].revokedAt.Some? { return Done; }
      var _ := RevokeByUserId(id, user, now);
      decision := Done;
    }

    /**
     * The whole refresh use case.  It decides on the table it has seen; its transaction
     * meets the table as it is by then, and a rotation that lost its race changes nothing.
     */
    method Refresh(hash: string -> string, seen: Table, token: string, claims: Claims, meta: Meta, now: int, ttl: int,
                   newId: string, newHash: string) returns (decision: RefreshDecision)
      requires newId !in seen && newId !in rows
      modifies this
      ensures var decided := DecideRefresh(hash, seen, token, claims, now);
              decision == if decided.Rotate? && !Replaceable(old(rows), claims.session) then AlreadyRotated else decided
      ensures decision.Rotate? <==>
              && token != "" && claims.session in seen && seen[claims.session].tokenHash == hash(token)
              && seen[claims.session].user == claims.user && claims.family == Some(seen[claims.session].family)
              && seen[claims.session].revokedAt.None? && now < seen[claims.session].expiresAt
              && claims.session in old(rows) && old(rows)[claims.session].revokedAt.None?
      ensures decision.ReuseDetected? ==> rows == RevokeFamily(old(rows), decision.user, decision.family, now)
      ensures decision.Rotate? ==>
                rows == Rotation(old(rows), claims.session, newId, CreateForRotation(decision.session, newHash, meta, now, ttl), now)
      ensures decision.Rotate? ==>
                && decision.session == seen[claims.session] && newId in rows
                && var x, previous := rows[newId], seen[claims.session];
                   && x.user == previous.user && x.device == previous.device && x.family == previous.family
                   && x.tokenHash == newHash
                   && x.createdAt == now && x.lastUsedAt == Some(now) && x.expiresAt == now + ttl
                   && x.revokedAt == None && x.replacedBy == None
                   && x.ip == (if meta.ip.Some? then meta.ip else previous.ip)
                   && x.userAgent == (if meta.userAgent.Some? then meta.userAgent else previous.userAgent)
      ensures decision.Rotate? ==>
                && claims.session in old(rows) && claims.session in rows
                && rows[claims.session] == old(rows)[claims.session].(revokedAt := Some(now), replacedBy := Some(newId))
                && rows - {newId, claims.session} == old(rows) - {newId, claims.session}
      ensures !decision.ReuseDetected? && !decision.Rotate? ==> rows == old(rows)
      ensures decision.Rotate? ==>
                forall next: string, later: int :: next != "" && newHash == hash(next) ==>
                  (DecideRefresh(hash, rows, next, Claims(newId, claims.user, claims.family), later).Rotate? <==> later < now + ttl)
    {
      if token == "" { return EmptyToken; }
      if claims.session !in seen { return SessionNotFound; }
      var session := seen[claims.session];
      if session.user != claims.user { return SubjectMismatch; }
      if claims.family.None? || claims.family.value != session.family { return FamilyMismatch; }
      if session.revokedAt.Some? {
        if session.tokenHash == hash(token) {
          RevokeByTokenFamily(session.user, session.family, now);
          return ReuseDetected(session.user, session.family);
        }
        return SessionRevoked;
      }
      if session.expiresAt <= now { return SessionExpired; }
      if session.tokenHash != hash(token) { return HashMismatch; }
      var rotated := CommitRotation(claims.session, newId, CreateForRotation(session, newHash, meta, now, ttl), now);
      decision := if rotated then Rotate(session) else AlreadyRotated;
    }
  }
}
