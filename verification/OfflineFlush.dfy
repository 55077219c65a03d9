/**
  Flushing the store-and-forward table to the broker
  (Linux_data/offline_cache/OfflinePublishQueue.cpp, flushToMqttOnce).

  One flush loads at most FLUSH_BATCH pending rows and sends them until the sender refuses one; a
  row leaves the table once sent and gives up after MAX_SENDS refusals.
 */
module OfflineFlush {
  import opened OfflineStore

  /** What came of sending one row, and of the SQL statement that records it. */
  datatype Reply = Accepted(deleted: bool) | Refused(recorded: bool, now: int)

  /** log: every row the sender accepted, in order. */
  datatype Store = Store(rows: Table, log: Table)

  function Settle(s: Store, r: Row, reply: Reply): Store {
    match reply
    case Accepted(deleted) => Store(if deleted then Delete(s.rows, {r.id}) else s.rows, s.log + [r])
    case Refused(recorded, now) => if recorded then s.(rows := MarkFailed(s.rows, r.id, now)) else s
  }

  /** The batch loop: stops at the first refusal. */
  function Replay(s: Store, batch: Table, replies: seq<Reply>): Store
    requires |replies| >= |batch|
    decreases |batch|
  {
    if batch == [] then s
    else
      var t := Settle(s, batch[0], replies[0]);
      if replies[0].Refused? then t else Replay(t, batch[1..], replies[1..])
  }

  /** The answer of the LIMIT query over the pending rows, ties broken either way. */
  ghost predicate IsBatch(t: Table, limit: nat, batch: Table) {
    exists order :: IsOrdering(t, order) && batch == Limit(order, limit)
  }

  /** order is the query's answer, replies what the sender says to its rows. */
  datatype Flush = Flush(order: Table, replies: seq<Reply>) {
    function Batch(): Table { Limit(order, FLUSH_BATCH) }
  }

  ghost predicate FlushOk(s: Store, f: Flush) {
    IsOrdering(s.rows, f.order) && |f.replies| >= |f.Batch()|
  }

  function FlushOnce(s: Store, f: Flush): Store {
    if |f.replies| >= |f.Batch()| then Replay(s, f.Batch(), f.replies) else s
  }

  predicate Recorded(reply: Reply) {
    match reply
    case Accepted(deleted) => deleted
    case Refused(recorded, _) => recorded
  }

  // ---------- Rows that may be sent ----------

  lemma {:induction false} PendingDistinct(t: Table)
    requires DistinctIds(t)
    ensures DistinctIds(PendingOf(t))
  {
    if t != [] {
      PendingDistinct(t[1..]);
      forall r | r in PendingOf(t[1..]) ensures r.id != t[0].id { PendingMember(t[1..], r); }
    }
  }

  lemma SameRowsDistinct(a: Table, b: Table)
    requires multiset(a) == multiset(b) && DistinctIds(a)
    ensures DistinctIds(b)
  {
    forall i, j | 0 <= i < j < |b| ensures b[i].id != b[j].id {
      assert b[i] in multiset(b) && b[j] in multiset(b);
      if b[i] == b[j] {
        assert b == b[..i] + [b[i]] + b[i + 1..j] + [b[j]] + b[j + 1..];
        assert multiset(a)[b[i]] >= 2;
        TwiceImpossible(a, b[i]);
      }
    }
  }

  lemma {:induction false} TwiceImpossible(a: Table, r: Row)
    requires DistinctIds(a)
    ensures multiset(a)[r] <= 1
  {
    if a != [] {
      TwiceImpossible(a[1..], r);
      assert a == [a[0]] + a[1..];
      if r == a[0] { assert r !in a[1..]; }
    }
  }

  // ---------- Termination: the retry budget ----------

  /** Sends left before every pending row is settled. */
  function Budget(t: Table): int {
    if t == [] then 0
    else (if t[0].status == Pending then MAX_SENDS - t[0].sendCount else 0) + Budget(t[1..])
  }

  ghost predicate InBudget(t: Table) {
    forall r :: r in t && r.status == Pending ==> r.sendCount < MAX_SENDS
  }

  lemma {:induction false} BudgetBounds(t: Table)
    requires InBudget(t)
    ensures |PendingOf(t)| <= Budget(t) <= MAX_SENDS * |PendingOf(t)|
  {
    if t != [] {
      assert t[0] in t;
      BudgetBounds(t[1..]);
    }
  }

  lemma {:induction false} BudgetDelete(t: Table, r: Row)
    requires DistinctIds(t) && r in t && r.status == Pending
    ensures Budget(Delete(t, {r.id})) == Budget(t) - (MAX_SENDS - r.sendCount)
  {
    var first, rest := t[0], t[1..];
    assert t == [first] + rest;
    if first.id == r.id {
      assert first == r;
      DeleteFirst(first, rest);
    } else {
      assert r in rest;
      BudgetDelete(rest, r);
      DeleteLater(first, rest, {r.id});
    }
  }

  lemma {:induction false} BudgetMark(t: Table, r: Row, now: int)
    requires DistinctIds(t) && r in t && r.status == Pending && r.sendCount < MAX_SENDS
    ensures Budget(MarkFailed(t, r.id, now)) == Budget(t) - 1
  {
    var first, rest := t[0], t[1..];
    assert t == [first] + rest;
    if first.id == r.id {
      assert first == r;
      MarkNobody(rest, r.id, now);
    } else {
      assert r in rest;
      BudgetMark(rest, r, now);
    }
  }

  lemma {:induction false} MarkNobody(t: Table, id: nat, now: int)
    requires forall r :: r in t ==> r.id != id
    ensures MarkFailed(t, id, now) == t
  {
    if t != [] {
      assert t[0] in t;
      MarkNobody(t[1..], id, now);
    }
  }

  // ---------- What one send does to every row ----------

  function Sent(log: Table, id: nat): nat {
    if log == [] then 0 else Sent(log[..|log| - 1], id) + if log[|log| - 1].id == id then 1 else 0
  }

  ghost predicate GivenUp(t: Table, id: nat) {
    exists r :: r in t && r.id == id && r.status == Failed && r.sendCount == MAX_SENDS
  }

  ghost predicate Waiting(t: Table, id: nat) {
    exists r :: r in t && r.id == id && r.status == Pending
  }

  /** Delivered exactly once and gone, or never delivered and still waiting or given up. */
  ghost predicate Fate(s: Store, id: nat) {
    if id in Ids(s.rows) then Sent(s.log, id) == 0 && (Waiting(s.rows, id) || GivenUp(s.rows, id))
    else Sent(s.log, id) == 1
  }

  ghost predicate Steady(s: Store, watched: set<nat>) {
    DistinctIds(s.rows) && InBudget(s.rows) && forall id :: id in watched ==> Fate(s, id)
  }

  lemma SentSnoc(log: Table, r: Row, id: nat)
    ensures Sent(log + [r], id) == Sent(log, id) + if r.id == id then 1 else 0
  {
    assert (log + [r])[..|log + [r]| - 1] == log;
  }

  lemma DeliveryKeepsSteady(s: Store, r: Row, watched: set<nat>)
    requires Steady(s, watched) && r in s.rows && r.status == Pending
    ensures Steady(Settle(s, r, Accepted(true)), watched)
  {
    var t := Settle(s, r, Accepted(true));
    DeleteIds(s.rows, {r.id});
    forall q ensures q in t.rows <==> q in s.rows && q.id != r.id { DeleteMember(s.rows, {r.id}, q); }
    forall id | id in watched ensures Fate(t, id) { SentSnoc(s.log, r, id); }
  }

  lemma RefusalKeepsSteady(s: Store, r: Row, now: int, watched: set<nat>)
    requires Steady(s, watched) && r in s.rows && r.status == Pending
    ensures Steady(Settle(s, r, Refused(true, now)), watched)
  {
    var t := Settle(s, r, Refused(true, now));
    MarkFailedIds(s.rows, r.id, now);
    forall q ensures q in t.rows <==> exists p :: p in s.rows && q == if p.id == r.id then AfterFailure(p, now) else p {
      MarkFailedMember(s.rows, r.id, now, q);
    }
    forall q | q in s.rows && q.id == r.id ensures q == r {}
    forall id | id in watched ensures Fate(t, id) { RefusalFate(s, r, now, id, t); }
  }

  lemma RefusalFate(s: Store, r: Row, now: int, id: nat, t: Store)
    requires DistinctIds(s.rows) && InBudget(s.rows) && Fate(s, id) && r in s.rows && r.status == Pending
    requires t == Settle(s, r, Refused(true, now))
    ensures Fate(t, id)
  {
    MarkFailedMember(s.rows, r.id, now, AfterFailure(r, now));
    if p :| p in s.rows && p.id == id {
      var q := if p.id == r.id then AfterFailure(p, now) else p;
      MarkFailedMember(s.rows, r.id, now, q);
      assert q in t.rows && q.id == id;
      if p.id == r.id { assert p == r; }
      else if GivenUp(s.rows, id) {
        var g :| g in s.rows && g.id == id && g.status == Failed && g.sendCount == MAX_SENDS;
        assert g == p;
      }
    } else if q :| q in t.rows && q.id == id {
      MarkFailedMember(s.rows, r.id, now, q);
    }
  }

  // ---------- Settled rows ----------

  lemma FreshIsSteady(t: Table)
    requires DistinctIds(t) && forall r :: r in t && r.status == Pending ==> r.sendCount == 0
    ensures Steady(Store(t, []), Ids(PendingOf(t)))
  {
    forall r ensures r in PendingOf(t) <==> r in t && r.status == Pending { PendingMember(t, r); }
  }

  ghost predicate Settled(s: Store, id: nat) {
    || (Sent(s.log, id) == 1 && id !in Ids(s.rows))
    || (Sent(s.log, id) == 0 && GivenUp(s.rows, id))
  }

  lemma FateSettled(s: Store, id: nat)
    requires Fate(s, id) && PendingOf(s.rows) == []
    ensures Settled(s, id)
  {
    if q :| q in s.rows && q.id == id && q.status == Pending { PendingMember(s.rows, q); }
  }

  lemma ReplayOne(s: Store, r: Row, reply: Reply)
    ensures Replay(s, [r], [reply]) == Settle(s, r, reply)
  {
    assert [r][1..] == [];
  }

  /** If the DELETE after a successful send fails, the row is sent again. */
  lemma FailedDeleteSendsTwice(r: Row)
    requires r.status == Pending
    ensures var f := Flush([r], [Accepted(false)]);
            var s := FlushOnce(Store([r], []), f);
            FlushOk(Store([r], []), f) && FlushOk(s, f) && Sent(FlushOnce(s, f).log, r.id) == 2
  {
    assert PendingOf([r]) == [r];
    ReplayOne(Store([r], []), r, Accepted(false));
    ReplayOne(Store([r], [] + [r]), r, Accepted(false));
    SentSnoc([] + [r], r, r.id);
    SentSnoc([], r, r.id);
  }

  // ---------- Delivery in order ----------

  /** Everything delivered so far, in order, ranks before everything still pending. */
  ghost predicate InOrder(s: Store, pending: multiset<Row>) {
    && DistinctIds(s.rows)
    && Sorted(s.log)
    && (forall a, b :: a in s.log && b in PendingOf(s.rows) ==> Precedes(a, b))
    && multiset(s.log) + multiset(PendingOf(s.rows)) == pending
  }

  lemma SameRows(a: Table, b: Table)
    requires multiset(a) == multiset(b)
    ensures |a| == |b| && forall r :: r in a <==> r in b
  {
    assert |multiset(a)| == |a| && |multiset(b)| == |b|;
    assert forall r :: r in a <==> r in multiset(a);
  }
}
