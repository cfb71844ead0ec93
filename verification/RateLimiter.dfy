/**
 * The three-scope sliding-window limiter: the counting query, the conditional insert
 * and the advisory locks that make the two binding.
 *
 * An attempt belongs to one identifier scope and, when the columns are not NULL, to one
 * ip scope and one user scope.  NULL is written as the empty string, as the SQL
 * parameters do (`NULLIF($2, '')`).
 */
module RateLimiter {

  // ------------------------------------------------------------------ attempts and scopes

  datatype Attempt = Attempt(identifier: string, user: string, ip: string, at: int)

  datatype Policy = Policy(window: nat, perIdentifier: nat, perUser: nat, perIp: nat)

  datatype Scope = ByIdentifier(text: string) | ByIp(text: string) | ByUser(text: string)

  function LowerChar(c: char): char {
    if 'A' <= c <= 'Z' then (c as int + 32) as char else c
  }

  function Lower(s: string): string {
    seq(|s|, i requires 0 <= i < |s| => LowerChar(s[i]))
  }

  /** Equal but for the case of ASCII letters. */
  predicate SameUpToCase(a: string, b: string) {
    && |a| == |b|
    && forall i :: 0 <= i < |a| ==>
         || a[i] == b[i]
         || ('A' <= a[i] <= 'Z' && b[i] as int == a[i] as int + 32)
         || ('A' <= b[i] <= 'Z' && a[i] as int == b[i] as int + 32)
  }

  /** Two identifiers are one to the limiter exactly when they differ in case at most. */
  lemma CaseDoesNotMatter(a: string, b: string)
    ensures Lower(a) == Lower(b) <==> SameUpToCase(a, b)
  {
    if Lower(a) == Lower(b) {
      assert |Lower(a)| == |a| && |Lower(b)| == |b|;
      forall i | 0 <= i < |a|
        ensures || a[i] == b[i] || ('A' <= a[i] <= 'Z' && b[i] as int == a[i] as int + 32)
                || ('A' <= b[i] <= 'Z' && a[i] as int == b[i] as int + 32)
      {
        assert Lower(a)[i] == Lower(b)[i];
      }
    }
  }

  /** Does the row fall in the scope?  A NULL column never equals anything. */
  predicate Matches(a: Attempt, s: Scope) {
    match s
    case ByIdentifier(t) => Lower(a.identifier) == t
    case ByIp(t) => t != "" && a.ip == t
    case ByUser(t) => t != "" && a.user == t
  }

  /** A limit of zero means unlimited. */
  function LimitOf(p: Policy, s: Scope): nat {
    match s
    case ByIdentifier(_) => p.perIdentifier
    case ByIp(_) => p.perIp
    case ByUser(_) => p.perUser
  }

  /** The scopes of an attempt, in the order in which their locks are taken. */
  function ScopesOf(a: Attempt): (r: seq<Scope>)
    ensures 1 <= |r| <= 3
  {
    [ByIdentifier(Lower(a.identifier))]
    + (if a.ip == "" then [] else [ByIp(a.ip)])
    + (if a.user == "" then [] else [ByUser(a.user)])
  }

  /** An attempt locks exactly the scopes whose counts its row can change. */
  lemma ScopesAreTheMatchingOnes(a: Attempt, s: Scope)
    ensures s in ScopesOf(a) <==> Matches(a, s)
  {
    var r := ScopesOf(a);
    assert r[0] == ByIdentifier(Lower(a.identifier));
    assert a.ip != "" ==> r[1] == ByIp(a.ip);
    assert a.user != "" ==> r[|r| - 1] == ByUser(a.user);
  }

  // ------------------------------------------------------------------ lock keys and their order

  function KeyText(s: Scope): string {
    match s
    case ByIdentifier(t) => "auth:sign-in:identifier:" + t
    case ByIp(t) => "auth:sign-in:ip:" + t
    case ByUser(t) => "auth:sign-in:user:" + t
  }

  /** Different scopes have different keys. */
  lemma KeysAreDistinct(s: Scope, s': Scope)
    ensures KeyText(s) == KeyText(s') <==> s == s'
  {
    var x, y := KeyText(s), KeyText(s');
    if s.ByIdentifier? && s'.ByIdentifier? {
      assert x[24..] == s.text && y[24..] == s'.text;
    } else if s.ByIp? && s'.ByIp? {
      assert x[16..] == s.text && y[16..] == s'.text;
    } else if s.ByUser? && s'.ByUser? {
      assert x[18..] == s.text && y[18..] == s'.text;
    } else {
      assert x[13] != y[13] || x[14] != y[14];
    }
  }

  /** Strict lexicographic order on text: the first difference decides. */
  ghost predicate TextLess(a: string, b: string) {
    exists i :: 0 <= i <= |a| && i < |b| && a[..i] == b[..i] && (i == |a| || a[i] < b[i])
  }

  /** ORDER BY lock_key always yields the order of ScopesOf, and DISTINCT removes nothing. */
  lemma LockKeysAreSorted(a: Attempt, i: nat, j: nat)
    requires i < j < |ScopesOf(a)|
    ensures TextLess(KeyText(ScopesOf(a)[i]), KeyText(ScopesOf(a)[j]))
    ensures KeyText(ScopesOf(a)[i]) != KeyText(ScopesOf(a)[j])
  {
    var x, y := KeyText(ScopesOf(a)[i]), KeyText(ScopesOf(a)[j]);
    var common := if ScopesOf(a)[j].ByUser? then 13 else 14;
    assert x[..common] == y[..common] && x[common] < y[common];
  }

  // ------------------------------------------------------------------ the counting queries

  /** COUNT(*) FILTER (scope) WHERE attempted_at >= since. */
  function CountSince(rows: seq<Attempt>, s: Scope, since: int): nat {
    if rows == [] then 0
    else
      var last := rows[|rows| - 1];
      CountSince(rows[..|rows| - 1], s, since) + (if Matches(last, s) && last.at >= since then 1 else 0)
  }

  /** How many attempts of the scope lie in the closed interval [lo, lo + width]. */
  function CountWithin(rows: seq<Attempt>, s: Scope, lo: int, width: nat): nat {
    if rows == [] then 0
    else
      var last := rows[|rows| - 1];
      CountWithin(rows[..|rows| - 1], s, lo, width) + (if Matches(last, s) && lo <= last.at <= lo + width then 1 else 0)
  }

  /** The WHERE clause of the conditional insert. */
  predicate Admits(p: Policy, rows: seq<Attempt>, a: Attempt) {
    var since := a.at - p.window;
    && (p.perIdentifier == 0 || CountSince(rows, ByIdentifier(Lower(a.identifier)), since) < p.perIdentifier)
    && (p.perUser == 0 || a.user == "" || CountSince(rows, ByUser(a.user), since) < p.perUser)
    && (p.perIp == 0 || a.ip == "" || CountSince(rows, ByIp(a.ip), since) < p.perIp)
  }

  /** The policy helper used by the non-binding pre-check. */
  predicate IsRateLimitExceeded(count: nat, limit: nat) {
    limit > 0 && count >= limit
  }

  lemma {:induction false} NullScopeCountsNothing(rows: seq<Attempt>, s: Scope, since: int)
    requires !s.ByIdentifier? && s.text == ""
    ensures CountSince(rows, s, since) == 0
  {
    if rows != [] { NullScopeCountsNothing(rows[..|rows| - 1], s, since); }
  }

  /** The pre-check of sign-in turns an attempt away exactly when the binding insert would, on the same rows. */
  lemma PreCheckAgreesWithInsert(p: Policy, rows: seq<Attempt>, a: Attempt)
    ensures var since := a.at - p.window;
            (|| IsRateLimitExceeded(CountSince(rows, ByIdentifier(Lower(a.identifier)), since), p.perIdentifier)
             || IsRateLimitExceeded(CountSince(rows, ByUser(a.user), since), p.perUser)
             || IsRateLimitExceeded(CountSince(rows, ByIp(a.ip), since), p.perIp))
            <==> !Admits(p, rows, a)
  {
    if a.user == "" { NullScopeCountsNothing(rows, ByUser(a.user), a.at - p.window); }
    if a.ip == "" { NullScopeCountsNothing(rows, ByIp(a.ip), a.at - p.window); }
  }

  lemma AdmitsEveryScope(p: Policy, rows: seq<Attempt>, a: Attempt)
    ensures Admits(p, rows, a) <==>
            forall s :: s in ScopesOf(a) && LimitOf(p, s) > 0 ==> CountSince(rows, s, a.at - p.window) < LimitOf(p, s)
  {
    forall s ensures s in ScopesOf(a) <==> Matches(a, s) { ScopesAreTheMatchingOnes(a, s); }
    assert Matches(a, ByIdentifier(Lower(a.identifier)));
    assert a.user != "" ==> Matches(a, ByUser(a.user));
    assert a.ip != "" ==> Matches(a, ByIp(a.ip));
  }

  lemma {:induction false} WithinIsSince(rows: seq<Attempt>, s: Scope, since: int, lo: int, width: nat)
    requires since <= lo
    ensures CountWithin(rows, s, lo, width) <= CountSince(rows, s, since)
  {
    if rows != [] { WithinIsSince(rows[..|rows| - 1], s, since, lo, width); }
  }

  lemma CountSinceAppend(rows: seq<Attempt>, a: Attempt, s: Scope, since: int)
    ensures CountSince(rows + [a], s, since) ==
            CountSince(rows, s, since) + (if Matches(a, s) && a.at >= since then 1 else 0)
  {
    assert (rows + [a])[..|rows|] == rows;
  }

  lemma CountWithinAppend(rows: seq<Attempt>, a: Attempt, s: Scope, lo: int, width: nat)
    ensures CountWithin(rows + [a], s, lo, width) ==
            CountWithin(rows, s, lo, width) + (if Matches(a, s) && lo <= a.at <= lo + width then 1 else 0)
  {
    assert (rows + [a])[..|rows|] == rows;
  }

  // ------------------------------------------------------------------ the counts as numbers of rows

  predicate Within(a: Attempt, s: Scope, lo: int, width: nat) {
    Matches(a, s) && lo <= a.at <= lo + width
  }

  predicate Since(a: Attempt, s: Scope, since: int) {
    Matches(a, s) && since <= a.at
  }

  /** The positions at which the test holds. */
  ghost function Positions(rows: seq<Attempt>, test: Attempt -> bool): set<int> {
    set i | 0 <= i < |rows| && test(rows[i])
  }

  lemma PositionsSnoc(rows: seq<Attempt>, test: Attempt -> bool)
    requires rows != []
    ensures var n := |rows| - 1;
            |Positions(rows, test)| == |Positions(rows[..n], test)| + (if test(rows[n]) then 1 else 0)
  {
    var n := |rows| - 1;
    var before, last := Positions(rows[..n], test), if test(rows[n]) then {n} else {};
    assert n !in before;
    assert Positions(rows, test) == before + last;
  }

  lemma {:induction false} SinceIsPositions(rows: seq<Attempt>, s: Scope, since: int)
    ensures CountSince(rows, s, since) == |Positions(rows, a => Since(a, s, since))|
  {
    if rows != [] {
      SinceIsPositions(rows[..|rows| - 1], s, since);
      PositionsSnoc(rows, a => Since(a, s, since));
    }
  }

  lemma {:induction false} WithinIsPositions(rows: seq<Attempt>, s: Scope, lo: int, width: nat)
    ensures CountWithin(rows, s, lo, width) == |Positions(rows, a => Within(a, s, lo, width))|
  {
    if rows != [] {
      WithinIsPositions(rows[..|rows| - 1], s, lo, width);
      PositionsSnoc(rows, a => Within(a, s, lo, width));
    }
  }

  lemma SinceIsCardinality(rows: seq<Attempt>, s: Scope, since: int)
    ensures CountSince(rows, s, since) == |set i | 0 <= i < |rows| && Matches(rows[i], s) && since <= rows[i].at|
  {
    SinceIsPositions(rows, s, since);
    assert Positions(rows, a => Since(a, s, since)) == set i | 0 <= i < |rows| && Matches(rows[i], s) && since <= rows[i].at;
  }

  lemma WithinIsCardinality(rows: seq<Attempt>, s: Scope, lo: int, width: nat)
    ensures CountWithin(rows, s, lo, width) == |set i | 0 <= i < |rows| && Matches(rows[i], s) && lo <= rows[i].at <= lo + width|
  {
    WithinIsPositions(rows, s, lo, width);
    assert Positions(rows, a => Within(a, s, lo, width))
           == set i | 0 <= i < |rows| && Matches(rows[i], s) && lo <= rows[i].at <= lo + width;
  }

  lemma IdentifierHits(rows: seq<Attempt>, name: string, since: int)
    ensures CountSince(rows, ByIdentifier(Lower(name)), since) ==
            |set i | 0 <= i < |rows| && SameUpToCase(rows[i].identifier, name) && since <= rows[i].at|
  {
    var s := ByIdentifier(Lower(name));
    SinceIsCardinality(rows, s, since);
    forall i | 0 <= i < |rows| ensures Matches(rows[i], s) <==> SameUpToCase(rows[i].identifier, name) {
      CaseDoesNotMatter(rows[i].identifier, name);
    }
    assert (set i | 0 <= i < |rows| && Matches(rows[i], s) && since <= rows[i].at)
           == (set i | 0 <= i < |rows| && SameUpToCase(rows[i].identifier, name) && since <= rows[i].at);
  }

  lemma UserHits(rows: seq<Attempt>, user: string, since: int)
    requires user != ""
    ensures CountSince(rows, ByUser(user), since) == |set i | 0 <= i < |rows| && rows[i].user == user && since <= rows[i].at|
  {
    SinceIsCardinality(rows, ByUser(user), since);
    assert (set i | 0 <= i < |rows| && Matches(rows[i], ByUser(user)) && since <= rows[i].at)
           == (set i | 0 <= i < |rows| && rows[i].user == user && since <= rows[i].at);
  }

  lemma IpHits(rows: seq<Attempt>, ip: string, since: int)
    requires ip != ""
    ensures CountSince(rows, ByIp(ip), since) == |set i | 0 <= i < |rows| && rows[i].ip == ip && since <= rows[i].at|
  {
    SinceIsCardinality(rows, ByIp(ip), since);
    assert (set i | 0 <= i < |rows| && Matches(rows[i], ByIp(ip)) && since <= rows[i].at)
           == (set i | 0 <= i < |rows| && rows[i].ip == ip && since <= rows[i].at);
  }

  /** Admission, said of the rows themselves: each limited column has fewer recent rows than its limit. */
  lemma AdmittedExactly(p: Policy, rows: seq<Attempt>, a: Attempt)
    ensures var since := a.at - p.window;
            Admits(p, rows, a) <==>
            && (p.perIdentifier > 0 ==>
                  |set i | 0 <= i < |rows| && SameUpToCase(rows[i].identifier, a.identifier) && since <= rows[i].at| < p.perIdentifier)
            && (p.perUser > 0 && a.user != "" ==>
                  |set i | 0 <= i < |rows| && rows[i].user == a.user && since <= rows[i].at| < p.perUser)
            && (p.perIp > 0 && a.ip != "" ==>
                  |set i | 0 <= i < |rows| && rows[i].ip == a.ip && since <= rows[i].at| < p.perIp)
  {
    var since := a.at - p.window;
    IdentifierHits(rows, a.identifier, since);
    if a.user != "" { UserHits(rows, a.user, since); }
    if a.ip != "" { IpHits(rows, a.ip, since); }
  }

  /** No closed interval of one window length holds more attempts of a limited scope than the limit. */
  ghost predicate WindowBound(p: Policy, rows: seq<Attempt>) {
    forall s: Scope, lo: int :: LimitOf(p, s) > 0 ==> CountWithin(rows, s, lo, p.window) <= LimitOf(p, s)
  }

  /** Whatever the timestamp order, appending an admitted attempt keeps every window under its limit. */
  lemma AdmittedKeepsWindowBound(p: Policy, rows: seq<Attempt>, a: Attempt)
    requires WindowBound(p, rows) && Admits(p, rows, a)
    ensures WindowBound(p, rows + [a])
  {
    forall s: Scope, lo: int | LimitOf(p, s) > 0
      ensures CountWithin(rows + [a], s, lo, p.window) <= LimitOf(p, s)
    {
      CountWithinAppend(rows, a, s, lo, p.window);
      if Matches(a, s) && lo <= a.at <= lo + p.window {
        ScopesAreTheMatchingOnes(a, s);
        AdmitsEveryScope(p, rows, a);
        WithinIsSince(rows, s, a.at - p.window, lo, p.window);
      }
    }
  }

  // ------------------------------------------------------------------ the attempts table

  class AttemptTable {
    var rows: seq<Attempt>

    constructor ()
      ensures rows == []
    {
      rows := [];
    }

    /** One scan computes the three counters; the row is inserted only when all three are under their limits. */
    method TryRecord(p: Policy, a: Attempt) returns (recorded: bool)
      modifies this
      ensures recorded == Admits(p, old(rows), a)
      ensures rows == if recorded then old(rows) + [a] else old(rows)
      ensures WindowBound(p, old(rows)) ==> WindowBound(p, rows)
    {
      var since := a.at - p.window;
      var byIdentifier, byUser, byIp := 0, 0, 0;
      for i := 0 to |rows|
        invariant rows == old(rows)
        invariant byIdentifier == CountSince(rows[..i], ByIdentifier(Lower(a.identifier)), since)
        invariant byUser == CountSince(rows[..i], ByUser(a.user), since)
        invariant byIp == CountSince(rows[..i], ByIp(a.ip), since)
      {
        assert rows[..i + 1][..i] == rows[..i];
        if rows[i].at >= since {
          if Lower(rows[i].identifier) == Lower(a.identifier) { byIdentifier := byIdentifier + 1; }
          if a.user != "" && rows[i].user == a.user { byUser := byUser + 1; }
          if a.ip != "" && rows[i].ip == a.ip { byIp := byIp + 1; }
        }
      }
      assert rows[..|rows|] == rows;
      recorded := && (p.perIdentifier == 0 || byIdentifier < p.perIdentifier)
                  && (p.perUser == 0 || a.user == "" || byUser < p.perUser)
                  && (p.perIp == 0 || a.ip == "" || byIp < p.perIp);
      if recorded {
        if WindowBound(p, rows) { AdmittedKeepsWindowBound(p, rows, a); }
        rows := rows + [a];
      }
    }
  }
}
