/** The table of queued deliveries and the statements that update it. */
module Outbox {
  import opened Text
  import opened Entities
  import opened Ordering

  type Id = nat

  datatype Status = Pending | Delivered | DeadLetter

  datatype Row = Row(
    event: Delivery,
    status: Status,
    attempts: nat,
    nextAttemptAt: Time,
    deliveredAt: Option<Time>)

  type Rows = map<Id, Row>

  predicate IsPending(rows: Rows, id: Id) {
    id in rows && rows[id].status.Pending?
  }

  predicate Due(row: Row, now: Time) {
    row.status.Pending? && row.nextAttemptAt <= now
  }

  /** The claim order: next_attempt_at, ties broken by id. */
  predicate Before(rows: Rows, i: Id, j: Id)
    requires i in rows && j in rows
  {
    rows[i].nextAttemptAt < rows[j].nextAttemptAt
    || (rows[i].nextAttemptAt == rows[j].nextAttemptAt && i < j)
  }

  function DueIds(rows: Rows, now: Time): set<Id> {
    set i | i in rows && Due(rows[i], now)
  }

  /** The pending rows a claim would take before `id`. */
  function Ahead(rows: Rows, id: Id): set<Id>
    requires id in rows
  {
    set i | i in rows && rows[i].status.Pending? && Before(rows, i, id)
  }

  /** The rows one claim takes: due, with fewer than `limit` pending rows ahead. */
  function Claimable(rows: Rows, now: Time, limit: int): set<Id> {
    set i | i in rows && Due(rows[i], now) && |Ahead(rows, i)| < limit
  }

  function ClaimRows(rows: Rows, now: Time, limit: int, lease: nat): Rows {
    var taken := Claimable(rows, now, limit);
    map i | i in rows ::
      if i in taken then rows[i].(attempts := rows[i].attempts + 1, nextAttemptAt := now + lease)
      else rows[i]
  }

  function MarkDeliveredRows(rows: Rows, id: Id, now: Time): Rows {
    if IsPending(rows, id) then rows[id := rows[id].(status := Delivered, deliveredAt := Some(now))] else rows
  }

  function RescheduleRows(rows: Rows, id: Id, at: Time): Rows {
    if IsPending(rows, id) then rows[id := rows[id].(nextAttemptAt := at)] else rows
  }

  function DeadLetterRows(rows: Rows, id: Id): Rows {
    if IsPending(rows, id) then rows[id := rows[id].(status := DeadLetter)] else rows
  }

  predicate Replayable(rows: Rows, id: Id) {
    id in rows && rows[id].status.DeadLetter?
  }

  function ReplayRows(rows: Rows, id: Id, now: Time): Rows {
    if Replayable(rows, id) then rows[id := rows[id].(status := Pending, attempts := 0, nextAttemptAt := now)] else rows
  }

  predicate Expired(row: Row, cutoff: Time) {
    row.status.Delivered? && row.deliveredAt.Some? && row.deliveredAt.value < cutoff
  }

  function PurgeRows(rows: Rows, cutoff: Time): Rows {
    map i | i in rows && !Expired(rows[i], cutoff) :: rows[i]
  }

  /**
   A row is claimed exactly when it is pending, its time has come, and fewer than `limit` pending rows come
   before it by time and then id.
   */
  lemma ClaimedExactly(rows: Rows, now: Time, limit: int, i: Id)
    ensures i in Claimable(rows, now, limit) <==>
              && i in rows && rows[i].status == Pending && rows[i].nextAttemptAt <= now
              && |set j | j in rows && rows[j].status == Pending
                     && (rows[j].nextAttemptAt < rows[i].nextAttemptAt
                         || (rows[j].nextAttemptAt == rows[i].nextAttemptAt && j < i))| < limit
  {
    if i in rows {
      assert Ahead(rows, i) == set j | j in rows && rows[j].status == Pending
        && (rows[j].nextAttemptAt < rows[i].nextAttemptAt
            || (rows[j].nextAttemptAt == rows[i].nextAttemptAt && j < i));
    }
  }

  /** What a claim writes: one more attempt and the end of the lease, in the rows it takes. */
  lemma LeasedExactly(rows: Rows, now: Time, limit: int, lease: nat)
    ensures var rows' := ClaimRows(rows, now, limit, lease);
            && rows'.Keys == rows.Keys
            && (forall i | i in rows ::
                  rows'[i] ==
                    if i in Claimable(rows, now, limit)
                    then Row(rows[i].event, Pending, rows[i].attempts + 1, now + lease, rows[i].deliveredAt)
                    else rows[i])
  {
  }

  // ---- The size and shape of a claim ----

  /** `p` is an initial segment of the due rows in claim order. */
  ghost predicate InitialSegment(rows: Rows, now: Time, p: set<Id>) {
    && p <= DueIds(rows, now)
    && forall i, j | i in p && j in DueIds(rows, now) && j !in p :: Before(rows, i, j)
  }

  ghost predicate First(rows: Rows, s: set<Id>, m: Id)
    requires s <= rows.Keys
  {
    m in s && forall j | j in s && j != m :: Before(rows, m, j)
  }

  lemma {:induction false} FirstExists(rows: Rows, s: set<Id>)
    requires s != {} && s <= rows.Keys
    ensures exists m :: First(rows, s, m)
    decreases s
  {
    var x :| x in s;
    assert forall j :: j in s && j != x ==> j in s - {x};
    if s - {x} != {} {
      FirstExists(rows, s - {x});
      var m :| First(rows, s - {x}, m);
      if Before(rows, x, m) {
        assert First(rows, s, x);
      } else {
        assert First(rows, s, m);
      }
    } else {
      assert First(rows, s, x);
    }
  }

  lemma ExtendSegment(rows: Rows, now: Time, p: set<Id>, m: Id)
    requires InitialSegment(rows, now, p) && First(rows, DueIds(rows, now) - p, m)
    ensures InitialSegment(rows, now, p + {m})
  {
  }

  /** An initial segment is what a claim of its size takes; a full one is what a larger claim takes too. */
  lemma SegmentIsClaimable(rows: Rows, now: Time, p: set<Id>, limit: int)
    requires InitialSegment(rows, now, p)
    requires |p| == limit || (|p| <= limit && p == DueIds(rows, now))
    ensures p == Claimable(rows, now, limit)
  {
    forall i | i in p ensures |Ahead(rows, i)| < limit {
      assert Ahead(rows, i) <= p - {i};
      Subset(Ahead(rows, i), p - {i});
    }
    forall j | j in DueIds(rows, now) && j !in p ensures |Ahead(rows, j)| >= limit {
      assert p <= Ahead(rows, j);
      Subset(p, Ahead(rows, j));
    }
  }

  lemma {:induction false} SegmentOfSize(rows: Rows, now: Time, k: nat) returns (p: set<Id>)
    requires k <= |DueIds(rows, now)|
    ensures InitialSegment(rows, now, p) && |p| == k
  {
    if k == 0 {
      p := {};
    } else {
      var q := SegmentOfSize(rows, now, k - 1);
      var rest := DueIds(rows, now) - q;
      assert DueIds(rows, now) == q + rest;
      FirstExists(rows, rest);
      var m :| First(rows, rest, m);
      ExtendSegment(rows, now, q, m);
      p := q + {m};
    }
  }

  /** A claim takes exactly `limit` rows, or every due row when there are fewer. */
  lemma ClaimSize(rows: Rows, now: Time, limit: nat)
    ensures |Claimable(rows, now, limit)| == if |DueIds(rows, now)| < limit then |DueIds(rows, now)| else limit
    ensures InitialSegment(rows, now, Claimable(rows, now, limit))
  {
    var n := |DueIds(rows, now)|;
    var k := if n < limit then n else limit;
    var p := SegmentOfSize(rows, now, k);
    if n < limit {
      Subset(p, DueIds(rows, now));
    }
    SegmentIsClaimable(rows, now, p, limit);
  }

  /** A delivery as it is handed to a dispatcher. */
  datatype Claimed = Claimed(id: Id, event: Delivery, attempts: nat)

  datatype WriteResult = Written | NotFound

  /** `webhook_deliveries`, updated in place. */
  class DeliveryTable {
    var rows: Rows
    var nextId: Id
    var replayLog: seq<Id>

    ghost predicate Valid()
      reads this
    {
      forall i | i in rows :: i < nextId
    }

    constructor ()
      ensures Valid() && rows == map[] && replayLog == []
    {
      rows, nextId, replayLog := map[], 0, [];
    }

    method Enqueue(event: Delivery, now: Time) returns (id: Id)
      requires Valid()
      modifies this
      ensures Valid() && replayLog == old(replayLog)
      ensures id !in old(rows) && rows == old(rows)[id := Row(event, Pending, 0, now, None)]
    {
      id := nextId;
      rows := rows[id := Row(event, Pending, 0, now, None)];
      nextId := nextId + 1;
    }

    /** Leases up to `limit` due rows, earliest first. */
    method ClaimDueDeliveries(limit: int, lease: nat, now: Time) returns (claimed: seq<Claimed>)
      requires Valid()
      modifies this`rows
      ensures Valid()
      ensures rows == ClaimRows(old(rows), now, limit, lease)
      ensures forall i, j :: 0 <= i < j < |claimed| ==> claimed[i].id != claimed[j].id
      ensures (set c | c in claimed :: c.id) == Claimable(old(rows), now, limit)
      ensures forall c | c in claimed ::
                c.id in rows && c.event == rows[c.id].event && c.attempts == rows[c.id].attempts
    {
      claimed := [];
      if limit <= 0 {
        return;
      }
      var order := SelectDue(limit, now);
      var taken := set i | i in order;
      assert forall k :: 0 <= k < |order| ==> order[k] in taken;
      var after := map i | i in rows ::
        if i in taken then rows[i].(attempts := rows[i].attempts + 1, nextAttemptAt := now + lease) else rows[i];
      claimed := seq(|order|, k requires 0 <= k < |order| && order[k] in after =>
        Claimed(order[k], after[order[k]].event, after[order[k]].attempts));
      rows := after;
      assert (set c | c in claimed :: c.id) == taken by {
        forall i | i in order ensures i in (set c | c in claimed :: c.id) {
          var k :| 0 <= k < |order| && order[k] == i;
          assert claimed[k] in claimed && claimed[k].id == i;
        }
      }
    }

    /** The sub-select of the claim: the ids of up to `limit` due rows, earliest first. */
    method SelectDue(limit: nat, now: Time) returns (order: seq<Id>)
      ensures (set i | i in order) == Claimable(rows, now, limit)
      ensures forall i, j :: 0 <= i < j < |order| ==> order[i] != order[j]
    {
      order := [];
      ghost var picked: set<Id> := {};
      var left := DueIds(rows, now);
      while left != {} && |order| < limit
        invariant left == DueIds(rows, now) - picked && picked <= DueIds(rows, now)
        invariant |order| == |picked| <= limit
        invariant InitialSegment(rows, now, picked)
        invariant forall i :: i in order <==> i in picked
        invariant forall i, j :: 0 <= i < j < |order| ==> order[i] != order[j]
        decreases left
      {
        var m := Earliest(left);
        ExtendSegment(rows, now, picked, m);
        order := order + [m];
        left, picked := left - {m}, picked + {m};
      }
      SegmentIsClaimable(rows, now, picked, limit);
    }

    method Earliest(s: set<Id>) returns (m: Id)
      requires s != {} && s <= rows.Keys
      ensures First(rows, s, m)
    {
      FirstExists(rows, s);
      m :| m in s && forall j | j in s && j != m :: Before(rows, m, j);
    }

    method MarkDelivered(id: Id, now: Time) returns (r: WriteResult)
      requires Valid()
      modifies this`rows
      ensures Valid() && rows == MarkDeliveredRows(old(rows), id, now)
      ensures rows == if id in old(rows) && old(rows)[id].status == Pending
                      then old(rows)[id := old(rows)[id].(status := Delivered, deliveredAt := Some(now))]
                      else old(rows)
      ensures r.Written? <==> IsPending(old(rows), id)
    {
      if id !in rows || !rows[id].status.Pending? {
        return NotFound;
      }
      rows := rows[id := rows[id].(status := Delivered, deliveredAt := Some(now))];
      r := Written;
    }

    method RescheduleDelivery(id: Id, at: Time) returns (r: WriteResult)
      requires Valid()
      modifies this`rows
      ensures Valid() && rows == RescheduleRows(old(rows), id, at)
      ensures rows == if id in old(rows) && old(rows)[id].status == Pending
                      then old(rows)[id := old(rows)[id].(nextAttemptAt := at)]
                      else old(rows)
      ensures r.Written? <==> IsPending(old(rows), id)
    {
      if id !in rows || !rows[id].status.Pending? {
        return NotFound;
      }
      rows := rows[id := rows[id].(nextAttemptAt := at)];
      r := Written;
    }

    method DeadLetterDelivery(id: Id) returns (r: WriteResult)
      requires Valid()
      modifies this`rows
      ensures Valid() && rows == DeadLetterRows(old(rows), id)
      ensures rows == if id in old(rows) && old(rows)[id].status == Pending
                      then old(rows)[id := old(rows)[id].(status := DeadLetter)]
                      else old(rows)
      ensures r.Written? <==> IsPending(old(rows), id)
    {
      if id !in rows || !rows[id].status.Pending? {
        return NotFound;
      }
      rows := rows[id := rows[id].(status := DeadLetter)];
      r := Written;
    }

    /** Returns a parked row to the queue and logs the operator's action with it. */
    method ReplayDeadLetter(id: Id, now: Time) returns (r: WriteResult)
      requires Valid()
      modifies this`rows, this`replayLog
      ensures Valid() && rows == ReplayRows(old(rows), id, now)
      ensures rows == if id in old(rows) && old(rows)[id].status == DeadLetter
                      then old(rows)[id := old(rows)[id].(status := Pending, attempts := 0, nextAttemptAt := now)]
                      else old(rows)
      ensures replayLog == if Replayable(old(rows), id) then old(replayLog) + [id] else old(replayLog)
      ensures r.Written? <==> Replayable(old(rows), id)
    {
      if id !in rows || !rows[id].status.DeadLetter? {
        return NotFound;
      }
      rows := rows[id := rows[id].(status := Pending, attempts := 0, nextAttemptAt := now)];
      replayLog := replayLog + [id];
      r := Written;
    }

    /** Deletes delivered rows older than `cutoff` and counts them. */
    method PurgeDeliveredBefore(cutoff: Time) returns (gone: nat)
      requires Valid()
      modifies this`rows
      ensures Valid() && rows == PurgeRows(old(rows), cutoff)
      ensures gone == |old(rows)| - |rows|
      ensures forall i :: i in rows <==>
                i in old(rows) && !(old(rows)[i].status == Delivered && old(rows)[i].deliveredAt.Some?
                                    && old(rows)[i].deliveredAt.value < cutoff)
      ensures forall i | i in rows :: rows[i] == old(rows)[i]
    {
      var doomed := set i | i in rows && Expired(rows[i], cutoff);
      gone := |doomed|;
      rows := rows - doomed;
      assert rows.Keys == old(rows).Keys - doomed;
    }
  }
}
