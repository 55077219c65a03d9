/**
  The gateway's store-and-forward table and the SQL statements that change it
  (Linux_data/offline_cache/OfflineCacheDatabase.cpp).  A table is the sequence of its rows in
  insertion order; each statement is a function on it.
 */
module OfflineStore {

  const MAX_RECORDS := 5000
  const CLEANUP_BATCH := 100
  const FLUSH_BATCH := 50
  const MAX_SENDS := 5

  datatype RowStatus = Pending | Failed

  datatype Row = Row(id: nat, topic: string, payload: string, priority: int, timestampMs: int,
                     sendCount: nat, lastSendMs: int, status: RowStatus)

  type Table = seq<Row>

  function Ids(t: Table): set<nat> {
    set r | r in t :: r.id
  }

  ghost predicate DistinctIds(t: Table) {
    forall i, j :: 0 <= i < j < |t| ==> t[i].id != t[j].id
  }

  // ---------- Statements ----------

  /** DELETE ... WHERE id IN ids */
  function Delete(t: Table, ids: set<nat>): Table {
    if t == [] then []
    else (if t[0].id in ids then [] else [t[0]]) + Delete(t[1..], ids)
  }

  /** DELETE ... WHERE status = 'pending' */
  function ClearPending(t: Table): Table {
    if t == [] then []
    else (if t[0].status == Pending then [] else [t[0]]) + ClearPending(t[1..])
  }

  function AfterFailure(r: Row, now: int): Row {
    r.(sendCount := r.sendCount + 1, lastSendMs := now,
       status := if r.sendCount + 1 >= MAX_SENDS then Failed else r.status)
  }

  /** UPDATE ... SET send_count = send_count + 1 ... WHERE id = ? */
  function MarkFailed(t: Table, id: nat, now: int): Table {
    if t == [] then []
    else [if t[0].id == id then AfterFailure(t[0], now) else t[0]] + MarkFailed(t[1..], id, now)
  }

  /** SELECT ... WHERE status = 'pending' */
  function PendingOf(t: Table): Table {
    if t == [] then []
    else (if t[0].status == Pending then [t[0]] else []) + PendingOf(t[1..])
  }

  /** ORDER BY priority DESC, timestamp_ms ASC */
  predicate Precedes(a: Row, b: Row) {
    a.priority > b.priority || (a.priority == b.priority && a.timestampMs <= b.timestampMs)
  }

  ghost predicate Sorted(t: Table) {
    forall i, j :: 0 <= i < j < |t| ==> Precedes(t[i], t[j])
  }

  /** The pending rows in one of the orders the query allows: SQL leaves ties open. */
  ghost predicate IsOrdering(t: Table, order: Table) {
    multiset(order) == multiset(PendingOf(t)) && Sorted(order)
  }

  function Limit(order: Table, limit: nat): Table {
    if |order| <= limit then order else order[..limit]
  }

  function Insert(row: Row, sorted: Table): Table {
    if sorted == [] || Precedes(row, sorted[0]) then [row] + sorted
    else [sorted[0]] + Insert(row, sorted[1..])
  }

  function OrderBy(t: Table): Table {
    if t == [] then [] else Insert(t[0], OrderBy(t[1..]))
  }

  // ---------- Facts about the statements ----------

  lemma {:induction false} InsertKeepsSorted(row: Row, sorted: Table)
    requires Sorted(sorted)
    ensures Sorted(Insert(row, sorted)) && multiset(Insert(row, sorted)) == multiset(sorted) + multiset{row}
  {
    if sorted != [] {
      assert sorted == [sorted[0]] + sorted[1..];
      if !Precedes(row, sorted[0]) {
        InsertKeepsSorted(row, sorted[1..]);
        var rest := Insert(row, sorted[1..]);
        forall r | r in rest ensures Precedes(sorted[0], r) {
          assert r in multiset(rest);
        }
      }
    }
  }

  lemma {:induction false} OrderByOrders(t: Table)
    ensures Sorted(OrderBy(t)) && multiset(OrderBy(t)) == multiset(t)
  {
    if t != [] {
      OrderByOrders(t[1..]);
      InsertKeepsSorted(t[0], OrderBy(t[1..]));
      assert t == [t[0]] + t[1..];
    }
  }

  lemma {:induction false} DeleteMember(t: Table, ids: set<nat>, r: Row)
    ensures r in Delete(t, ids) <==> r in t && r.id !in ids
  {
    if t != [] { DeleteMember(t[1..], ids, r); }
  }

  lemma {:induction false} DeleteIds(t: Table, ids: set<nat>)
    ensures Ids(Delete(t, ids)) == Ids(t) - ids
    ensures DistinctIds(t) ==> DistinctIds(Delete(t, ids))
  {
    forall r ensures r in Delete(t, ids) <==> r in t && r.id !in ids { DeleteMember(t, ids, r); }
    if t != [] {
      DeleteIds(t[1..], ids);
      if DistinctIds(t) {
        assert forall r :: r in t[1..] ==> r.id != t[0].id;
        forall r | r in Delete(t[1..], ids) ensures r.id != t[0].id { DeleteMember(t[1..], ids, r); }
      }
    }
  }

  lemma {:induction false} DeleteTwice(t: Table, a: set<nat>, b: set<nat>)
    ensures Delete(Delete(t, a), b) == Delete(t, a + b)
  {
    if t != [] {
      DeleteTwice(t[1..], a, b);
      if t[0].id in a {
        assert Delete(t, a) == Delete(t[1..], a);
      } else {
        assert Delete(t, a) == [t[0]] + Delete(t[1..], a);
      }
    }
  }

  lemma {:induction false} DeleteSize(t: Table, ids: set<nat>)
    requires DistinctIds(t) && ids <= Ids(t)
    ensures |Delete(t, ids)| == |t| - |ids|
  {
    if t == [] {
      assert ids == {};
    } else {
      var rest := ids - {t[0].id};
      assert forall r :: r in t[1..] ==> r.id != t[0].id;
      forall id | id in rest ensures id in Ids(t[1..]) {
        var r :| r in t && r.id == id;
        assert r in t[1..];
      }
      DeleteSize(t[1..], rest);
      DeleteSame(t[1..], ids, rest);
      assert |Delete(t, ids)| == (if t[0].id in ids then 0 else 1) + |t[1..]| - |rest|;
      if t[0].id in ids {
        assert ids == rest + {t[0].id};
      } else {
        assert ids == rest;
      }
    }
  }

  lemma {:induction false} DeleteSame(t: Table, a: set<nat>, b: set<nat>)
    requires forall r :: r in t ==> (r.id in a <==> r.id in b)
    ensures Delete(t, a) == Delete(t, b)
  {
    if t != [] {
      assert t[0] in t;
      DeleteSame(t[1..], a, b);
    }
  }

  lemma {:induction false} PendingMember(t: Table, r: Row)
    ensures r in PendingOf(t) <==> r in t && r.status == Pending
  {
    if t != [] { PendingMember(t[1..], r); }
  }

  lemma PendingCons(r: Row, t: Table)
    ensures multiset(PendingOf([r] + t)) == multiset(if r.status == Pending then [r] else []) + multiset(PendingOf(t))
  {
    assert ([r] + t)[1..] == t;
  }

  lemma TakeFromRight(a: multiset<Row>, b: multiset<Row>, r: Row)
    requires r in b
    ensures a + b - multiset{r} == a + (b - multiset{r})
  {
  }

  lemma DeleteFirst(first: Row, rest: Table)
    requires forall q :: q in rest ==> q.id != first.id
    ensures Delete([first] + rest, {first.id}) == rest
  {
    DeleteSame(rest, {first.id}, {});
    DeleteNone(rest);
    assert ([first] + rest)[1..] == rest;
  }

  lemma DeleteLater(first: Row, rest: Table, ids: set<nat>)
    requires first.id !in ids
    ensures Delete([first] + rest, ids) == [first] + Delete(rest, ids)
  {
    assert ([first] + rest)[1..] == rest;
  }

  lemma PendingAfterDeleteFirst(first: Row, rest: Table)
    requires DistinctIds([first] + rest) && first.status == Pending
    ensures multiset(PendingOf(Delete([first] + rest, {first.id})))
            == multiset(PendingOf([first] + rest)) - multiset{first}
  {
    PendingCons(first, rest);
    DeleteFirst(first, rest);
  }

  /** Deleting one pending row takes exactly that row out of the pending ones. */
  lemma {:induction false} PendingAfterDelete(t: Table, r: Row)
    requires DistinctIds(t) && r in PendingOf(t)
    ensures multiset(PendingOf(Delete(t, {r.id}))) == multiset(PendingOf(t)) - multiset{r}
  {
    PendingMember(t, r);
    var first, rest := t[0], t[1..];
    assert t == [first] + rest;
    if first.id == r.id {
      assert first == r;
      PendingAfterDeleteFirst(first, rest);
    } else {
      PendingMember(rest, r);
      PendingAfterDelete(rest, r);
      DeleteLater(first, rest, {r.id});
      PendingConsTake(first, rest, Delete(rest, {r.id}), r);
    }
  }

  lemma PendingConsTake(first: Row, rest: Table, left: Table, r: Row)
    requires r in PendingOf(rest) && multiset(PendingOf(left)) == multiset(PendingOf(rest)) - multiset{r}
    ensures multiset(PendingOf([first] + left)) == multiset(PendingOf([first] + rest)) - multiset{r}
  {
    PendingCons(first, left);
    PendingCons(first, rest);
    TakeFromRight(multiset(if first.status == Pending then [first] else []), multiset(PendingOf(rest)), r);
  }

  lemma {:induction false} DeleteNone(t: Table)
    ensures Delete(t, {}) == t
  {
    if t != [] { DeleteNone(t[1..]); }
  }

  lemma {:induction false} MarkFailedMember(t: Table, id: nat, now: int, r: Row)
    ensures r in MarkFailed(t, id, now) <==>
            exists q :: q in t && r == if q.id == id then AfterFailure(q, now) else q
  {
    if t != [] {
      MarkFailedMember(t[1..], id, now, r);
      assert t == [t[0]] + t[1..];
    }
  }

  lemma {:induction false} MarkFailedIds(t: Table, id: nat, now: int)
    ensures |MarkFailed(t, id, now)| == |t|
    ensures forall i :: 0 <= i < |t| ==>
                MarkFailed(t, id, now)[i] == if t[i].id == id then AfterFailure(t[i], now) else t[i]
  {
    if t != [] { MarkFailedIds(t[1..], id, now); }
  }
}
