/**
 * One-time tokens: password resets and email verification codes.  Both tables have the
 * same columns and the same five statements; only what a consumed token does differs.
 */
module OneTimeTokens {
  import opened Common

  type TokenId = nat

  datatype Token = Token(user: string, hash: string, createdAt: int, expiresAt: int, usedAt: Option<int>, attempts: nat)

  type Table = map<TokenId, Token>

  function NewToken(user: string, hash: string, now: int, ttl: int): Token {
    Token(user, hash, now, now + ttl, None, 0)
  }

  /** The condition shared by the lookup, the consuming update and the wrong-guess update. */
  predicate Open(t: Token, now: int, max: int) {
    t.usedAt.None? && t.expiresAt > now && t.attempts < max
  }

  predicate ActiveFor(rows: Table, id: TokenId, user: string, now: int, max: int) {
    id in rows && rows[id].user == user && Open(rows[id], now, max)
  }

  /** ORDER BY created_at DESC LIMIT 1 over the active rows. */
  ghost predicate IsNewestActive(rows: Table, id: TokenId, user: string, now: int, max: int) {
    && ActiveFor(rows, id, user, now, max)
    && forall x :: ActiveFor(rows, x, user, now, max) ==> rows[x].createdAt <= rows[id].createdAt
  }

  function UnusedOf(rows: Table, user: string): set<TokenId> {
    set id | id in rows && rows[id].user == user && rows[id].usedAt.None?
  }

  function Use(rows: Table, ids: set<TokenId>, now: int): Table {
    map id | id in rows :: if id in ids then rows[id].(usedAt := Some(now)) else rows[id]
  }

  function Consume(rows: Table, id: TokenId, now: int, max: int): Table {
    if id in rows && Open(rows[id], now, max) then rows[id := rows[id].(usedAt := Some(now))] else rows
  }

  function CountWrongGuess(rows: Table, id: TokenId, now: int, max: int): Table {
    if id in rows && Open(rows[id], now, max) then rows[id := rows[id].(attempts := rows[id].attempts + 1)] else rows
  }

  /** The partial unique index: at most one unused row per user. */
  ghost predicate OneUnusedPerUser(rows: Table) {
    forall a, b :: a in rows && b in rows && a != b && rows[a].usedAt.None? && rows[b].usedAt.None? ==>
      rows[a].user != rows[b].user
  }

  class TokenTable {
    var rows: Table

    constructor ()
      ensures rows == map[]
    {
      rows := map[];
    }

    method FindActiveByUserId(user: string, now: int, max: int) returns (found: Option<TokenId>)
      ensures found.None? <==> forall id :: !ActiveFor(rows, id, user, now, max)
      ensures found.Some? ==> IsNewestActive(rows, found.value, user, now, max)
      ensures found.Some? ==>
                && found.value in rows
                && var x := rows[found.value];
                   && x.user == user && x.usedAt.None? && now < x.expiresAt && x.attempts < max
                   && forall id :: id in rows && rows[id].user == user ==>
                        || rows[id].usedAt.Some? || rows[id].expiresAt <= now || rows[id].attempts >= max
                        || rows[id].createdAt <= x.createdAt
      ensures found.None? ==>
                forall id :: id in rows && rows[id].user == user ==>
                  rows[id].usedAt.Some? || rows[id].expiresAt <= now || rows[id].attempts >= max
    {
      found := None;
      var todo := rows.Keys;
      while todo != {}
        invariant todo <= rows.Keys
        invariant found.None? ==> forall id :: ActiveFor(rows, id, user, now, max) ==> id in todo
        invariant found.Some? ==>
                    && ActiveFor(rows, found.value, user, now, max)
                    && forall id :: ActiveFor(rows, id, user, now, max) && id !in todo ==>
                         rows[id].createdAt <= rows[found.value].createdAt
        decreases todo
      {
        var id :| id in todo;
        if rows[id].user == user && Open(rows[id], now, max) {
          if found.None? || rows[found.value].createdAt < rows[id].createdAt { found := Some(id); }
        }
        todo := todo - {id};
      }
      forall id | id in rows && rows[id].user == user
        ensures || rows[id].usedAt.Some? || rows[id].expiresAt <= now || rows[id].attempts >= max
                || (found.Some? && rows[id].createdAt <= rows[found.value].createdAt)
      {
        if ActiveFor(rows, id, user, now, max) { assert found.Some?; }
      }
    }

    method MarkActiveUsedByUserId(user: string, now: int)
      modifies this
      ensures rows == Use(old(rows), UnusedOf(old(rows), user), now)
      ensures rows.Keys == old(rows).Keys
      ensures forall id :: id in old(rows) ==>
                var x := old(rows)[id];
                rows[id] == if x.user == user && x.usedAt.None? then x.(usedAt := Some(now)) else x
    {
      var todo := rows.Keys;
      while todo != {}
        invariant todo <= rows.Keys == old(rows).Keys
        invariant forall id :: id in todo ==> rows[id] == old(rows)[id]
        invariant forall id :: id in rows && id !in todo ==>
                    rows[id] == Use(old(rows), UnusedOf(old(rows), user), now)[id]
        decreases todo
      {
        var id :| id in todo;
        if rows[id].user == user && rows[id].usedAt.None? {
          rows := rows[id := rows[id].(usedAt := Some(now))];
        }
        todo := todo - {id};
      }
    }

    method MarkUsed(id: TokenId, now: int, max: int) returns (used: bool)
      modifies this
      ensures rows == Consume(old(rows), id, now, max)
      ensures used <==>
              id in old(rows) && old(rows)[id].usedAt.None? && now < old(rows)[id].expiresAt && old(rows)[id].attempts < max
      ensures rows == if used then old(rows)[id := old(rows)[id].(usedAt := Some(now))] else old(rows)
    {
      used := id in rows && rows[id].usedAt.None? && rows[id].expiresAt > now && rows[id].attempts < max;
      if used { rows := rows[id := rows[id].(usedAt := Some(now))]; }
    }

    method IncrementAttempts(id: TokenId, now: int, max: int)
      modifies this
      ensures rows == CountWrongGuess(old(rows), id, now, max)
      ensures rows ==
              if id in old(rows) && old(rows)[id].usedAt.None? && now < old(rows)[id].expiresAt && old(rows)[id].attempts < max
              then old(rows)[id := old(rows)[id].(attempts := old(rows)[id].attempts + 1)]
              else old(rows)
    {
      if id in rows && rows[id].usedAt.None? && rows[id].expiresAt > now && rows[id].attempts < max {
        rows := rows[id := rows[id].(attempts := rows[id].attempts + 1)];
      }
    }

    /** A request transaction run alone: supersede, then insert; the newest token is the user's only unused one. */
    method Issue(user: string, id: TokenId, hash: string, now: int, ttl: int)
      requires id !in rows
      modifies this
      ensures rows == Use(old(rows), UnusedOf(old(rows), user), now)[id := NewToken(user, hash, now, ttl)]
      ensures UnusedOf(rows, user) == {id}
      ensures rows[id] == Token(user, hash, now, now + ttl, None, 0)
      ensures forall x :: x in old(rows) ==>
                x in rows && rows[x] == if old(rows)[x].user == user && old(rows)[x].usedAt.None?
                                        then old(rows)[x].(usedAt := Some(now)) else old(rows)[x]
      ensures OneUnusedPerUser(old(rows)) ==> OneUnusedPerUser(rows)
    {
      MarkActiveUsedByUserId(user, now);
      rows := rows[id := NewToken(user, hash, now, ttl)];
    }
  }
}
