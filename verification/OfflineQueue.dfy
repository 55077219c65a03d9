/**
  The store-and-forward queue as the gateway runs it: the table updated statement by statement
  (OfflineCacheDatabase) and the publish queue on top of it (OfflinePublishQueue).  Whether a
  statement succeeds and what the sender answers are inputs.
 */
module OfflineQueue {
  import opened OfflineStore
  import opened OfflineEviction
  import opened OfflineFlush
  import opened OfflinePolicy

  const SEND_NOT_READY := -5

  class Database {
    var rows: Table
    var nextId: nat

    ghost predicate Valid()
      reads this
    {
      DistinctIds(rows) && forall r :: r in rows ==> r.id < nextId
    }

    constructor ()
      ensures Valid() && rows == []
    {
      rows, nextId := [], 1;
    }

    method InsertRow(topic: string, payload: string, priority: int, timestampMs: int, now: int, sqlOk: bool)
      returns (row: Row)
      requires Valid()
      modifies this
      ensures Valid()
      ensures row == Row(old(nextId), topic, payload, priority,
                         if timestampMs > 0 then timestampMs else now, 0, 0, Pending)
      ensures rows == if sqlOk then old(rows) + [row] else old(rows)
    {
      row := Row(nextId, topic, payload, priority, if timestampMs > 0 then timestampMs else now, 0, 0, Pending);
      if sqlOk {
        rows, nextId := rows + [row], nextId + 1;
      }
    }

    method LoadPending(limit: int, sqlOk: bool) returns (batch: Table)
      ensures if sqlOk && limit > 0 then IsBatch(rows, limit, batch) else batch == []
    {
      if !sqlOk || limit <= 0 {
        return [];
      }
      var order := OrderBy(PendingOf(rows));
      OrderByOrders(PendingOf(rows));
      batch := Limit(order, limit);
    }

    method Remove(id: nat, sqlOk: bool)
      requires Valid()
      modifies this`rows
      ensures Valid() && rows == if sqlOk then Delete(old(rows), {id}) else old(rows)
    {
      if sqlOk {
        DeleteIds(rows, {id});
        forall r ensures r in Delete(rows, {id}) ==> r in rows { DeleteMember(rows, {id}, r); }
        rows := Delete(rows, {id});
      }
    }

    method MarkSendFailed(id: nat, now: int, sqlOk: bool)
      requires Valid()
      modifies this`rows
      ensures Valid() && rows == if sqlOk then MarkFailed(old(rows), id, now) else old(rows)
    {
      if sqlOk {
        MarkFailedIds(rows, id, now);
        rows := MarkFailed(rows, id, now);
      }
    }

    /** How many ids are still pending; 0 when the query fails. */
    method CountPending(sqlOk: bool) returns (n: nat)
      requires Valid()
      ensures n == if sqlOk then |set r | r in rows && r.status == Pending :: r.id| else 0
    {
      n := if sqlOk then |PendingOf(rows)| else 0;
      PendingDistinct(rows);
      IdCount(PendingOf(rows));
      forall r ensures r in PendingOf(rows) <==> r in rows && r.status == Pending { PendingMember(rows, r); }
      assert Ids(PendingOf(rows)) == set r | r in rows && r.status == Pending :: r.id;
    }

    method ClearPendingRows(sqlOk: bool)
      requires Valid()
      modifies this`rows
      ensures Valid() && rows == if sqlOk then ClearPending(old(rows)) else old(rows)
    {
      if sqlOk {
        ClearKeepsIds(rows);
        forall r | r in ClearPending(rows) ensures r in rows { ClearMember(rows, r); }
        rows := ClearPending(rows);
      }
    }

    /** deleted is what sqlite3_changes reports; 0 when the statement fails. */
    method DeleteOldByPriority(priority: int, limit: nat, sqlOk: bool) returns (deleted: nat, ghost ids: set<nat>)
      requires Valid()
      modifies this`rows
      ensures Valid() && deleted == |ids| && rows == Delete(old(rows), ids)
      ensures if sqlOk then IsOldest(old(rows), priority, limit, ids) else ids == {}
    {
      if !sqlOk {
        DeleteNone(rows);
        return 0, {};
      }
      var order := OrderBy(OfPriority(rows, priority));
      var doomed := Limit(order, limit);
      ids := Ids(doomed);
      PrefixIsOldest(rows, priority, limit, order);
      DeleteIds(rows, ids);
      forall r ensures r in Delete(rows, ids) ==> r in rows { DeleteMember(rows, ids, r); }
      rows := Delete(rows, Ids(doomed));
      deleted := |doomed|;
    }

    /** Evicts old low-priority rows; whether the count and each DELETE succeed is up to the database. */
    method EnforceMaxRecords() returns (ghost e: Eviction)
      requires Valid()
      modifies this`rows
      ensures Valid() && EvictionOk(old(rows), e) && rows == Evict(old(rows), e.replies)
      ensures Evicts(old(rows), rows)
      ensures Bounded(rows) <==> |rows| <= MAX_RECORDS || Succeeds(old(rows), e)
      ensures Succeeds(old(rows), e) ==> LowestFirst(old(rows), rows)
    {
      var counted: bool := *;
      ghost var done: seq<DeleteReply> := [];
      if counted {
        done := EvictLoop();
      }
      e := Eviction(counted, done);
      EnforceMeans(old(rows), e);
    }

    method EvictLoop() returns (ghost done: seq<DeleteReply>)
      requires Valid()
      modifies this`rows
      ensures Valid() && RepliesOk(old(rows), 0, done) && rows == Evict(old(rows), done)
    {
      var total := |rows|;
      var priority := 0;
      ghost var reached := 0;
      done := [];
      while priority <= 1 && total > MAX_RECORDS
        invariant 0 <= priority <= 2 && total == |rows| && Valid()
        invariant Reaches(old(rows), 0, done, rows, reached)
        invariant reached == priority || total <= MAX_RECORDS
      {
        var more := true;
        while total > MAX_RECORDS && more
          invariant total == |rows| && Valid()
          invariant Reaches(old(rows), 0, done, rows, reached)
          invariant reached == if more then priority else priority + 1
          decreases total, more
        {
          var stepOk: bool := *;
          ghost var before := rows;
          var deleted, ids := DeleteOldByPriority(priority, CLEANUP_BATCH, stepOk);
          ghost var reply := if stepOk then Deleted(ids) else DeleteFailed;
          ReachesNext(old(rows), 0, done, before, priority, reply);
          done := done + [reply];
          DeletedRows(before, priority, reply, rows);
          if deleted <= 0 {
            more := false;
          } else {
            total := total - deleted;
          }
          reached := NextPriority(priority, reply);
        }
        priority := priority + 1;
      }
      ReachesEnd(old(rows), 0, done, rows, reached);
    }
  }

  lemma DeletedRows(before: Table, priority: int, reply: DeleteReply, after: Table)
    requires DistinctIds(before) && ReplyOk(before, priority, reply)
    requires after == Delete(before, if reply.Deleted? then reply.ids else {})
    ensures after == AfterReply(before, reply)
    ensures |after| == |before| - if reply.Deleted? then |reply.ids| else 0
  {
    DeleteNone(before);
    if reply.Deleted? {
      forall r | r in OfPriority(before, priority) ensures r in before { OfPriorityMember(before, priority, r); }
      DeleteSize(before, reply.ids);
    }
  }

  lemma PrefixIsOldest(t: Table, priority: int, limit: nat, order: Table)
    requires DistinctIds(t) && order == OrderBy(OfPriority(t, priority))
    ensures IsOldest(t, priority, limit, Ids(Limit(order, limit)))
    ensures |Ids(Limit(order, limit))| == |Limit(order, limit)|
  {
    var rows := OfPriority(t, priority);
    var doomed := Limit(order, limit);
    OrderByOrders(rows);
    OfPriorityDistinct(t, priority);
    SameRowsDistinct(rows, order);
    SameRows(order, rows);
    IdCount(doomed);
    assert forall r :: r in doomed ==> r in order;
    forall r, q | r in t && q in t && r.priority == q.priority == priority &&
                  r.id in Ids(doomed) && q.id !in Ids(doomed)
      ensures r.timestampMs <= q.timestampMs
    {
      OfPriorityMember(t, priority, r);
      OfPriorityMember(t, priority, q);
      PrefixOlder(rows, order, limit, r, q);
    }
  }

  lemma PrefixOlder(rows: Table, order: Table, limit: nat, r: Row, q: Row)
    requires Sorted(order) && DistinctIds(order) && r in order && q in order && r.priority == q.priority
    requires r.id in Ids(Limit(order, limit)) && q.id !in Ids(Limit(order, limit))
    ensures r.timestampMs <= q.timestampMs
  {
    var doomed := Limit(order, limit);
    var d :| d in doomed && d.id == r.id;
    var i :| 0 <= i < |doomed| && doomed[i] == d;
    var j :| 0 <= j < |order| && order[j] == r;
    var k :| 0 <= k < |order| && order[k] == q;
    assert order[i] == d && i == j;
    assert q !in doomed;
    assert Precedes(order[i], order[k]);
  }

  /** One flush of the table, for some order the query may answer in. */
  ghost predicate IsFlush(s: Store, replies: seq<Reply>, t: Store) {
    exists order :: FlushOk(s, Flush(order, replies)) && t == FlushOnce(s, Flush(order, replies))
  }

  function RowOf(id: nat, topic: string, payload: string, m: Meta, now: int): Row {
    Row(id, topic, payload, m.priority, if m.timestampMs > 0 then m.timestampMs else now, 0, 0, Pending)
  }

  /** One caching step of the runs that keep the table bounded. */
  ghost predicate IsCaching(before: Table, row: Row, e: Eviction, after: Table) {
    ChangeOk(before, Cache(row, e)) && after == Apply(before, Cache(row, e)) && Evicts(before + [row], after)
  }

  class PublishQueue {
    const db: Database
    const policy: CachePolicy
    var hasSender: bool
    var initialized: bool
    var cacheEnabled: bool
    var flushEnabled: bool

    ghost predicate Valid()
      reads this, db
    {
      db.Valid()
    }

    constructor ()
      ensures Valid() && fresh(db) && fresh(policy) && db.rows == []
      ensures !hasSender && !initialized && cacheEnabled && !flushEnabled
    {
      db := new Database();
      policy := new CachePolicy();
      hasSender, initialized, cacheEnabled, flushEnabled := false, false, true, false;
    }

    method CacheMessage(topic: string, payload: string, m: Meta, now: int, insertOk: bool)
      returns (cached: bool, ghost e: Eviction)
      requires Valid()
      modifies db, policy
      ensures Valid()
      ensures cached <==> cacheEnabled && initialized && ShouldCache(old(policy.lastSample), m) && insertOk
      ensures policy.lastSample == if cacheEnabled && initialized
                                   then AfterCheck(old(policy.lastSample), View(m)) else old(policy.lastSample)
      ensures !cached ==> db.rows == old(db.rows)
      ensures cached ==> IsCaching(old(db.rows), RowOf(old(db.nextId), topic, payload, m, now), e, db.rows)
    {
      e := Eviction(false, []);
      if !cacheEnabled || !initialized {
        return false, e;
      }
      var wanted := policy.CheckCache(m);
      if !wanted {
        return false, e;
      }
      var row := db.InsertRow(topic, payload, m.priority, m.timestampMs, now, insertOk);
      if !insertOk {
        return false, e;
      }
      e := db.EnforceMaxRecords();
      cached := true;
    }

    /** answer is what the sender returns for the direct attempt, when there is a sender. */
    method PublishOrCache(topic: string, payload: string, m: Meta, now: int, answer: int, insertOk: bool)
      returns (code: int, ghost cached: bool, ghost e: Eviction)
      requires Valid()
      modifies db, policy
      ensures Valid()
      ensures code == if hasSender && answer == 0 then 0
                      else if cached then 0 else if hasSender then answer else SEND_NOT_READY
      ensures cached <==> !(hasSender && answer == 0) && cacheEnabled && initialized
                          && ShouldCache(old(policy.lastSample), m) && insertOk
      ensures policy.lastSample == if !(hasSender && answer == 0) && cacheEnabled && initialized
                                   then AfterCheck(old(policy.lastSample), View(m)) else old(policy.lastSample)
      ensures !cached ==> db.rows == old(db.rows)
      ensures cached ==> IsCaching(old(db.rows), RowOf(old(db.nextId), topic, payload, m, now), e, db.rows)
    {
      code := SEND_NOT_READY;
      e := Eviction(false, []);
      if hasSender {
        code := answer;
        if code == 0 {
          return 0, false, e;
        }
      }
      var done;
      done, e := CacheMessage(topic, payload, m, now, insertOk);
      cached := done;
      if done {
        code := 0;
      }
    }

    /** Sends the batch until the sender refuses a row; sent: the rows it accepted, in order. */
    method SendBatch(batch: Table, replies: seq<Reply>) returns (sent: Table)
      requires Valid() && |replies| >= |batch|
      modifies db
      ensures Valid() && Store(db.rows, sent) == Replay(Store(old(db.rows), []), batch, replies)
    {
      sent := [];
      var i := 0;
      while i < |batch|
        invariant 0 <= i <= |batch| && Valid()
        invariant Replay(Store(old(db.rows), []), batch, replies)
                       == Replay(Store(db.rows, sent), batch[i..], replies[i..])
      {
        ghost var before := Store(db.rows, sent);
        match replies[i] {
          case Accepted(deleted) =>
            db.Remove(batch[i].id, deleted);
            sent := sent + [batch[i]];
          case Refused(recorded, now) =>
            db.MarkSendFailed(batch[i].id, now, recorded);
            return;
        }
        assert Store(db.rows, sent) == Settle(before, batch[i], replies[i]);
        assert batch[i..][1..] == batch[i + 1..] && replies[i..][1..] == replies[i + 1..];
        i := i + 1;
      }
    }

    method FlushToMqttOnce(loadOk: bool, replies: seq<Reply>) returns (sent: Table)
      requires Valid() && |replies| >= FLUSH_BATCH
      modifies db
      ensures Valid()
      ensures if initialized && hasSender && flushEnabled && loadOk
              then IsFlush(Store(old(db.rows), []), replies, Store(db.rows, sent))
              else db.rows == old(db.rows) && sent == []
    {
      sent := [];
      if initialized && hasSender && flushEnabled {
        var batch := db.LoadPending(FLUSH_BATCH, loadOk);
        ghost var before := db.rows;
        sent := SendBatch(batch, replies);
        if loadOk {
          ghost var order :| IsOrdering(before, order) && batch == Limit(order, FLUSH_BATCH);
          assert batch == Flush(order, replies).Batch();
        }
      }
    }

    method ClearPendingMessages(sqlOk: bool)
      requires Valid()
      modifies db
      ensures Valid()
      ensures db.rows == if initialized && sqlOk then ClearPending(old(db.rows)) else old(db.rows)
    {
      if initialized {
        db.ClearPendingRows(sqlOk);
      }
    }
  }
}
