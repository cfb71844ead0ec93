/** The email_outbox table: its rows, its CHECK constraint and the statements that change it. */
module Outbox {
  import opened Common

  type JobId = string
  type Lease = nat

  datatype Status = Pending | Processing | Sent | Dead

  datatype Row = Row(
    toEmail: string, template: string, payload: string, status: Status, attempts: nat, nextAttemptAt: int,
    lockedUntil: Option<int>, lease: Option<Lease>, lastError: Option<string>, createdAt: int, updatedAt: int)

  type Table = map<JobId, Row>

  const EMPTY_PAYLOAD := "{}"

  predicate Terminal(r: Row) {
    r.status == Sent || r.status == Dead
  }

  /** email_outbox_processing_lease_check. */
  predicate LeaseCheck(r: Row) {
    || (r.status == Processing && r.lease.Some? && r.lockedUntil.Some?)
    || (r.status != Processing && r.lease.None?)
  }

  function NewRow(toEmail: string, template: string, payload: string, now: int): Row {
    Row(toEmail, template, payload, Pending, 0, now, None, None, None, now, now)
  }

  /** The WHERE clause of the claim. */
  predicate Eligible(r: Row, now: int, maxAttempts: int) {
    && (r.status == Pending || r.status == Processing)
    && r.nextAttemptAt <= now
    && r.attempts < maxAttempts
    && (r.lockedUntil.None? || r.lockedUntil.value <= now)
  }

  function Claimed(r: Row, lease: Lease, now: int, until: int): Row {
    r.(status := Processing, lockedUntil := Some(until), lease := Some(lease), attempts := r.attempts + 1,
       updatedAt := now, lastError := None)
  }

  /** The guard shared by the three result updates. */
  predicate Holds(rows: Table, id: JobId, lease: Lease) {
    id in rows && rows[id].lease == Some(lease) && rows[id].status == Processing
  }

  function SentRow(r: Row, now: int): Row {
    r.(status := Sent, payload := EMPTY_PAYLOAD, lockedUntil := None, lease := None, lastError := Some(""), updatedAt := now)
  }

  function DeadRow(r: Row, now: int, error: string): Row {
    r.(status := Dead, payload := EMPTY_PAYLOAD, lockedUntil := None, lease := None, lastError := Some(error), updatedAt := now)
  }

  function RescheduledRow(r: Row, nextAt: int, error: string, now: int): Row {
    r.(status := Pending, nextAttemptAt := nextAt, lockedUntil := None, lease := None, lastError := Some(error), updatedAt := now)
  }

  /** ORDER BY next_attempt_at ASC, created_at ASC. */
  predicate Before(x: Row, y: Row) {
    x.nextAttemptAt < y.nextAttemptAt || (x.nextAttemptAt == y.nextAttemptAt && x.createdAt < y.createdAt)
  }

  /** The row is a candidate; rows locked by other transactions are skipped. */
  predicate Candidate(rows: Table, id: JobId, now: int, maxAttempts: int, skipped: set<JobId>) {
    id in rows && id !in skipped && Eligible(rows[id], now, maxAttempts)
  }

  /** What a worker keeps of a claimed row. */
  datatype Entry = Entry(id: JobId, lease: Lease, attempts: nat, toEmail: string, template: string, payload: string)

  function EntryOf(id: JobId, lease: Lease, r: Row): Entry {
    Entry(id, lease, r.attempts, r.toEmail, r.template, r.payload)
  }

  /** The entry shows the job's address, template and payload, and the number of the attempt it is about. */
  predicate EntryFor(rows: Table, e: Entry) {
    && e.id in rows
    && e.toEmail == rows[e.id].toEmail && e.template == rows[e.id].template && e.payload == rows[e.id].payload
    && e.attempts == rows[e.id].attempts + 1
  }

  /** The row is leased until the deadline for one more attempt; what is to be sent, and when it was due, stays. */
  predicate RowClaimed(rows: Table, rows': Table, e: Entry, now: int, until: int) {
    && e.id in rows && e.id in rows'
    && var x, y := rows[e.id], rows'[e.id];
       && y.status == Processing && y.lease == Some(e.lease) && y.lockedUntil == Some(until)
       && y.attempts == x.attempts + 1 && y.updatedAt == now && y.lastError == None
       && y.toEmail == x.toEmail && y.template == x.template && y.payload == x.payload
       && y.nextAttemptAt == x.nextAttemptAt && y.createdAt == x.createdAt
  }

  /** Distinct rows under consecutive leases. */
  ghost predicate Listed(rows: Table, batch: seq<Entry>, base: Lease) {
    && (forall k :: 0 <= k < |batch| ==> EntryFor(rows, batch[k]))
    && (forall k :: 0 <= k < |batch| ==> batch[k].lease == base + k)
    && (forall j, k :: 0 <= j < k < |batch| ==> batch[j].id != batch[k].id)
  }

  /** Distinct eligible rows under consecutive leases. */
  ghost predicate Claimable(rows: Table, batch: seq<Entry>, now: int, maxAttempts: int, base: Lease) {
    && Listed(rows, batch, base)
    && (forall k :: 0 <= k < |batch| ==> Eligible(rows[batch[k].id], now, maxAttempts))
  }

  ghost predicate InBatch(batch: seq<Entry>, id: JobId) {
    exists e :: e in batch && e.id == id
  }

  /** Exactly the rows of the batch are claimed, everything else is as before. */
  ghost predicate BatchClaimed(rows: Table, rows': Table, batch: seq<Entry>, now: int, until: int) {
    && rows'.Keys == rows.Keys
    && (forall e :: e in batch ==> RowClaimed(rows, rows', e, now, until))
    && (forall id :: id in rows && !InBatch(batch, id) ==> rows'[id] == rows[id])
  }

  /** The table after the claims of a batch, one by one. */
  function ClaimTable(rows: Table, batch: seq<Entry>, now: int, until: int): Table {
    if batch == [] then rows
    else
      var e, before := batch[|batch| - 1], ClaimTable(rows, batch[..|batch| - 1], now, until);
      if e.id in before then before[e.id := Claimed(before[e.id], e.lease, now, until)] else before
  }

  lemma ClaimTableSnoc(rows: Table, batch: seq<Entry>, e: Entry, now: int, until: int)
    requires e.id in ClaimTable(rows, batch, now, until)
    ensures var before := ClaimTable(rows, batch, now, until);
            ClaimTable(rows, batch + [e], now, until) == before[e.id := Claimed(before[e.id], e.lease, now, until)]
  {
    assert (batch + [e])[..|batch|] == batch;
  }

  lemma {:induction false} ClaimTableOther(rows: Table, batch: seq<Entry>, now: int, until: int, id: JobId)
    requires !InBatch(batch, id)
    ensures id in ClaimTable(rows, batch, now, until) <==> id in rows
    ensures id in rows ==> ClaimTable(rows, batch, now, until)[id] == rows[id]
  {
    if batch != [] {
      var front, e := batch[..|batch| - 1], batch[|batch| - 1];
      assert e in batch;
      assert forall x :: x in front ==> x in batch;
      ClaimTableOther(rows, front, now, until, id);
    }
  }

  lemma {:induction false} ClaimTableKeys(rows: Table, batch: seq<Entry>, now: int, until: int)
    ensures ClaimTable(rows, batch, now, until).Keys == rows.Keys
  {
    if batch != [] { ClaimTableKeys(rows, batch[..|batch| - 1], now, until); }
  }

  ghost predicate DistinctIds(batch: seq<Entry>) {
    forall j, k :: 0 <= j < k < |batch| ==> batch[j].id != batch[k].id
  }

  lemma LastIsNew(batch: seq<Entry>)
    requires batch != [] && DistinctIds(batch)
    ensures !InBatch(batch[..|batch| - 1], batch[|batch| - 1].id) && DistinctIds(batch[..|batch| - 1])
  {
  }

  lemma {:induction false} ClaimTableAt(rows: Table, batch: seq<Entry>, now: int, until: int, k: nat)
    requires DistinctIds(batch) && k < |batch| && batch[k].id in rows
    ensures batch[k].id in ClaimTable(rows, batch, now, until)
    ensures ClaimTable(rows, batch, now, until)[batch[k].id] == Claimed(rows[batch[k].id], batch[k].lease, now, until)
  {
    var n := |batch| - 1;
    LastIsNew(batch);
    if k == n {
      ClaimTableOther(rows, batch[..n], now, until, batch[n].id);
    } else {
      ClaimTableAt(rows, batch[..n], now, until, k);
    }
  }

  /** What the claims of a batch of distinct jobs do, column by column. */
  lemma ClaimTableColumns(rows: Table, batch: seq<Entry>, now: int, until: int)
    requires DistinctIds(batch) && forall k :: 0 <= k < |batch| ==> batch[k].id in rows
    ensures BatchClaimed(rows, ClaimTable(rows, batch, now, until), batch, now, until)
  {
    var rows' := ClaimTable(rows, batch, now, until);
    ClaimTableKeys(rows, batch, now, until);
    forall e | e in batch ensures RowClaimed(rows, rows', e, now, until) {
      var k :| 0 <= k < |batch| && batch[k] == e;
      ClaimTableAt(rows, batch, now, until, k);
    }
    forall id | id in rows && !InBatch(batch, id) ensures rows'[id] == rows[id] {
      ClaimTableOther(rows, batch, now, until, id);
    }
  }

  /** The batch lists the first of the jobs, as the claim leaves their rows. */
  ghost predicate Entries(rows: Table, batch: seq<Entry>, ids: seq<JobId>, base: Lease) {
    && |batch| <= |ids|
    && forall k :: 0 <= k < |batch| ==>
         batch[k].id == ids[k] && batch[k].lease == base + k && EntryFor(rows, batch[k])
  }

  ghost predicate Distinct(ids: seq<JobId>) {
    forall j, k :: 0 <= j < k < |ids| ==> ids[j] != ids[k]
  }

  lemma NextEntry(rows: Table, batch: seq<Entry>, ids: seq<JobId>, e: Entry, base: Lease)
    requires Entries(rows, batch, ids, base) && |batch| < |ids| && Distinct(ids)
    requires e.id == ids[|batch|] && e.lease == base + |batch| && EntryFor(rows, e)
    ensures Entries(rows, batch + [e], ids, base) && !InBatch(batch, e.id)
  {
  }

  lemma EntriesDistinct(rows: Table, batch: seq<Entry>, ids: seq<JobId>, base: Lease)
    requires Entries(rows, batch, ids, base) && Distinct(ids)
    ensures DistinctIds(batch) && forall k :: 0 <= k < |batch| ==> batch[k].id in rows
  {
  }

  /** The next row is still as it was, and its entry shows it. */
  lemma NextRow(rows: Table, batch: seq<Entry>, ids: seq<JobId>, now: int, until: int, base: Lease)
    requires Entries(rows, batch, ids, base) && Distinct(ids) && |batch| < |ids| && ids[|batch|] in rows
    ensures ids[|batch|] in ClaimTable(rows, batch, now, until)
    ensures var id, lease := ids[|batch|], base + |batch|;
            var row := Claimed(ClaimTable(rows, batch, now, until)[id], lease, now, until);
            var e := EntryOf(id, lease, row);
            && Entries(rows, batch + [e], ids, base)
            && ClaimTable(rows, batch + [e], now, until) == ClaimTable(rows, batch, now, until)[id := row]
  {
    var id, lease := ids[|batch|], base + |batch|;
    var e := EntryOf(id, lease, Claimed(rows[id], lease, now, until));
    NextEntry(rows, batch, ids, e, base);
    ClaimTableOther(rows, batch, now, until, id);
    ClaimTableSnoc(rows, batch, e, now, until);
  }

  lemma BatchIsCandidates(rows: Table, batch: seq<Entry>, ids: seq<JobId>, now: int, until: int, maxAttempts: int,
                          skipped: set<JobId>, base: Lease)
    requires |batch| == |ids| && Entries(rows, batch, ids, base) && Distinct(ids)
    requires forall id :: id in ids ==> Candidate(rows, id, now, maxAttempts, skipped)
    ensures Claimable(rows, batch, now, maxAttempts, base)
    ensures forall id :: InBatch(batch, id) <==> id in ids
  {
    forall k | 0 <= k < |batch| ensures Eligible(rows[batch[k].id], now, maxAttempts) {
      assert ids[k] in ids;
    }
    forall id ensures InBatch(batch, id) <==> id in ids {
      if id in ids {
        var k :| 0 <= k < |ids| && ids[k] == id;
        assert batch[k] in batch;
      }
      if InBatch(batch, id) {
        var e :| e in batch && e.id == id;
        var k :| 0 <= k < |batch| && batch[k] == e;
        assert ids[k] == id;
      }
    }
  }

  /** A best candidate of the remaining ones. */
  method FirstCandidate(rows: Table, ids: set<JobId>) returns (best: JobId)
    requires ids != {} && ids <= rows.Keys
    ensures best in ids
    ensures forall id :: id in ids ==> !Before(rows[id], rows[best])
  {
    best :| best in ids;
    var todo := ids - {best};
    while todo != {}
      invariant todo <= ids && best in ids
      invariant forall id :: id in ids && id !in todo ==> !Before(rows[id], rows[best])
      decreases todo
    {
      var id :| id in todo;
      if Before(rows[id], rows[best]) { best := id; }
      todo := todo - {id};
    }
  }

  /**
   * The candidates of a claim: eligible, unlocked, in order, at most limit of them, and
   * nothing that should have come first is left out.
   */
  method SelectCandidates(rows: Table, limit: nat, now: int, maxAttempts: int, skipped: set<JobId>)
    returns (ids: seq<JobId>)
    ensures |ids| <= limit
    ensures forall i :: 0 <= i < |ids| ==> ids[i] in rows && Candidate(rows, ids[i], now, maxAttempts, skipped)
    ensures forall i, j :: 0 <= i < j < |ids| ==>
              && ids[i] != ids[j]
              && var x, y := rows[ids[i]], rows[ids[j]];
                 x.nextAttemptAt < y.nextAttemptAt || (x.nextAttemptAt == y.nextAttemptAt && x.createdAt <= y.createdAt)
    ensures forall id :: Candidate(rows, id, now, maxAttempts, skipped) && id !in ids ==>
              && |ids| == limit
              && forall i :: 0 <= i < |ids| ==>
                   var x, y := rows[ids[i]], rows[id];
                   x.nextAttemptAt < y.nextAttemptAt || (x.nextAttemptAt == y.nextAttemptAt && x.createdAt <= y.createdAt)
  {
    ids := [];
    var left := set id | id in rows && id !in skipped && Eligible(rows[id], now, maxAttempts);
    while |ids| < limit && left != {}
      invariant |ids| <= limit && left <= rows.Keys
      invariant forall id :: Candidate(rows, id, now, maxAttempts, skipped) <==> id in left || id in ids
      invariant forall i :: 0 <= i < |ids| ==> ids[i] !in left
      invariant forall i, j :: 0 <= i < j < |ids| ==> ids[i] != ids[j] && !Before(rows[ids[j]], rows[ids[i]])
      invariant forall id, i :: id in left && 0 <= i < |ids| ==> !Before(rows[id], rows[ids[i]])
      decreases left
    {
      var best := FirstCandidate(rows, left);
      ids := ids + [best];
      left := left - {best};
    }
  }

  /** The order in which the update visits the candidates is its own. */
  method VisitOrder(ids: seq<JobId>) returns (order: seq<JobId>)
    requires Distinct(ids)
    ensures |order| == |ids| && Distinct(order) && forall id :: id in order <==> id in ids
  {
    order := [];
    var left := ids;
    while left != []
      invariant |order| + |left| == |ids|
      invariant forall id :: id in ids <==> id in order || id in left
      invariant Distinct(left) && Distinct(order)
      invariant forall i, j :: 0 <= i < |order| && 0 <= j < |left| ==> order[i] != left[j]
      decreases |left|
    {
      var k :| 0 <= k < |left|;
      var rest := left[..k] + left[k + 1..];
      forall id | id in left ensures id == left[k] || id in rest {
        var j :| 0 <= j < |left| && left[j] == id;
        assert j < k ==> rest[j] == id;
        assert j > k ==> rest[j - 1] == id;
      }
      order, left := order + [left[k]], rest;
    }
  }

  class OutboxTable {
    var rows: Table

    constructor ()
      ensures rows == map[]
    {
      rows := map[];
    }

    method Insert(id: JobId, toEmail: string, template: string, payload: string, now: int)
      requires id !in rows
      modifies this
      ensures rows == old(rows)[id := NewRow(toEmail, template, payload, now)]
      ensures var r := rows[id];
              && r.toEmail == toEmail && r.template == template && r.payload == payload
              && r.status == Pending && r.attempts == 0 && r.nextAttemptAt == now
              && r.lockedUntil == None && r.lease == None && r.lastError == None && r.createdAt == now && r.updatedAt == now
    {
      rows := rows[id := NewRow(toEmail, template, payload, now)];
    }

    /** Updates the rows one by one and returns what the worker needs of them. */
    method ClaimRows(ids: seq<JobId>, now: int, until: int, base: Lease) returns (batch: seq<Entry>)
      requires Distinct(ids) && forall k :: 0 <= k < |ids| ==> ids[k] in rows
      modifies this
      ensures |batch| == |ids| && Entries(old(rows), batch, ids, base)
      ensures rows == ClaimTable(old(rows), batch, now, until)
    {
      batch := [];
      for k := 0 to |ids|
        invariant |batch| == k && Entries(old(rows), batch, ids, base)
        invariant rows == ClaimTable(old(rows), batch, now, until)
      {
        NextRow(old(rows), batch, ids, now, until, base);
        var row := Claimed(rows[ids[k]], base + k, now, until);
        rows := rows[ids[k] := row];
        batch := batch + [EntryOf(ids[k], base + k, row)];
      }
    }

    /**
     * Claims up to limit rows under fresh leases: the first candidates in order, and all
     * of them if there are fewer than limit.
     */
    method ClaimBatch(limit: nat, now: int, until: int, maxAttempts: int, skipped: set<JobId>, base: Lease)
      returns (batch: seq<Entry>)
      modifies this
      ensures |batch| <= limit
      ensures Claimable(old(rows), batch, now, maxAttempts, base)
      ensures rows == ClaimTable(old(rows), batch, now, until)
      ensures BatchClaimed(old(rows), rows, batch, now, until)
      ensures forall e :: e in batch ==>
                && e.id in old(rows) && e.id !in skipped
                && e.toEmail == old(rows)[e.id].toEmail && e.template == old(rows)[e.id].template
                && e.payload == old(rows)[e.id].payload && e.attempts == old(rows)[e.id].attempts + 1
      ensures forall id :: Candidate(old(rows), id, now, maxAttempts, skipped) && !InBatch(batch, id) ==>
                && |batch| == limit
                && forall e :: e in batch ==>
                     var x, y := old(rows)[e.id], old(rows)[id];
                     x.nextAttemptAt < y.nextAttemptAt || (x.nextAttemptAt == y.nextAttemptAt && x.createdAt <= y.createdAt)
    {
      var ids := SelectCandidates(rows, limit, now, maxAttempts, skipped);
      var order := VisitOrder(ids);
      forall k | 0 <= k < |order| ensures order[k] in rows { assert order[k] in ids; }
      batch := ClaimRows(order, now, until, base);
      EntriesDistinct(old(rows), batch, order, base);
      ClaimTableColumns(old(rows), batch, now, until);
      BatchIsCandidates(old(rows), batch, order, now, until, maxAttempts, skipped, base);
      forall e | e in batch ensures e.id in ids && EntryFor(old(rows), e) {
        assert InBatch(batch, e.id);
        var k :| 0 <= k < |batch| && batch[k] == e;
      }
    }

    method MarkSent(id: JobId, lease: Lease, now: int) returns (persisted: bool)
      modifies this
      ensures persisted <==> id in old(rows) && old(rows)[id].lease == Some(lease) && old(rows)[id].status == Processing
      ensures rows == if persisted
                      then old(rows)[id := old(rows)[id].(status := Sent, payload := EMPTY_PAYLOAD, lockedUntil := None,
                                                          lease := None, lastError := Some(""), updatedAt := now)]
                      else old(rows)
    {
      persisted := id in rows && rows[id].lease == Some(lease) && rows[id].status == Processing;
      if persisted { rows := rows[id := SentRow(rows[id], now)]; }
    }

    method Reschedule(id: JobId, lease: Lease, nextAt: int, error: string, now: int) returns (persisted: bool)
      modifies this
      ensures persisted <==> id in old(rows) && old(rows)[id].lease == Some(lease) && old(rows)[id].status == Processing
      ensures rows == if persisted
                      then old(rows)[id := old(rows)[id].(status := Pending, nextAttemptAt := nextAt, lockedUntil := None,
                                                          lease := None, lastError := Some(error), updatedAt := now)]
                      else old(rows)
    {
      persisted := id in rows && rows[id].lease == Some(lease) && rows[id].status == Processing;
      if persisted { rows := rows[id := RescheduledRow(rows[id], nextAt, error, now)]; }
    }

    method MarkDead(id: JobId, lease: Lease, now: int, error: string) returns (persisted: bool)
      modifies this
      ensures persisted <==> id in old(rows) && old(rows)[id].lease == Some(lease) && old(rows)[id].status == Processing
      ensures rows == if persisted
                      then old(rows)[id := old(rows)[id].(status := Dead, payload := EMPTY_PAYLOAD, lockedUntil := None,
                                                          lease := None, lastError := Some(error), updatedAt := now)]
                      else old(rows)
    {
      persisted := id in rows && rows[id].lease == Some(lease) && rows[id].status == Processing;
      if persisted { rows := rows[id := DeadRow(rows[id], now, error)]; }
    }
  }
}
