/** Capacity eviction of the store-and-forward table: what it may remove, and what it achieves. */
module OfflineEviction {
  import opened OfflineStore

  /** SELECT ... WHERE priority = ? */
  function OfPriority(t: Table, priority: int): Table {
    if t == [] then []
    else (if t[0].priority == priority then [t[0]] else []) + OfPriority(t[1..], priority)
  }

  /** ids names the oldest rows of the priority, `limit` of them if there are that many. */
  ghost predicate IsOldest(t: Table, priority: int, limit: nat, ids: set<nat>) {
    && ids <= Ids(OfPriority(t, priority))
    && |ids| == (if |OfPriority(t, priority)| <= limit then |OfPriority(t, priority)| else limit)
    && forall r, q :: r in t && q in t && r.priority == q.priority == priority && r.id in ids && q.id !in ids ==>
         r.timestampMs <= q.timestampMs
  }

  ghost predicate Gone(t: Table, u: Table, r: Row) {
    r in t && r.id !in Ids(u)
  }

  /** What eviction may do to a table: delete old rows of priority 0 and 1, never below the
      threshold by more than one clean-up batch. */
  ghost predicate Evicts(t: Table, u: Table) {
    && Ids(u) <= Ids(t) && u == Delete(t, Ids(t) - Ids(u))
    && (forall r :: Gone(t, u, r) ==> 0 <= r.priority <= 1)
    && (forall r, q :: Gone(t, u, r) && q in u && q.priority == r.priority ==> r.timestampMs <= q.timestampMs)
    && (if |t| <= MAX_RECORDS then u == t else |u| > MAX_RECORDS - CLEANUP_BATCH)
  }

  ghost predicate NoneOf(t: Table, priority: int) {
    forall r :: r in t ==> r.priority != priority
  }

  /** No priority-1 row goes while a priority-0 row remains. */
  ghost predicate LowestFirst(t: Table, u: Table) {
    (exists r :: Gone(t, u, r) && r.priority == 1) ==> NoneOf(u, 0)
  }

  ghost predicate Bounded(t: Table) {
    |t| <= MAX_RECORDS || (NoneOf(t, 0) && NoneOf(t, 1))
  }

  lemma {:induction false} OfPriorityMember(t: Table, priority: int, r: Row)
    ensures r in OfPriority(t, priority) <==> r in t && r.priority == priority
  {
    if t != [] { OfPriorityMember(t[1..], priority, r); }
  }

  lemma {:induction false} OfPriorityDistinct(t: Table, priority: int)
    requires DistinctIds(t)
    ensures DistinctIds(OfPriority(t, priority))
  {
    if t != [] {
      OfPriorityDistinct(t[1..], priority);
      forall r | r in OfPriority(t[1..], priority) ensures r.id != t[0].id { OfPriorityMember(t[1..], priority, r); }
    }
  }

  lemma {:induction false} IdCount(t: Table)
    requires DistinctIds(t)
    ensures |Ids(t)| == |t|
  {
    if t != [] {
      IdCount(t[1..]);
      assert t == [t[0]] + t[1..];
      assert Ids(t) == {t[0].id} + Ids(t[1..]);
      assert t[0].id !in Ids(t[1..]);
    }
  }

  lemma EvictNothing(t: Table)
    ensures Evicts(t, t) && LowestFirst(t, t)
  {
    DeleteNone(t);
    assert Ids(t) - Ids(t) == {};
  }

  /** A row gone after one more batch was gone before or is one of the batch. */
  lemma GoneAfterBatch(t: Table, u: Table, priority: int, ids: set<nat>, r: Row)
    requires DistinctIds(u) && u == Delete(t, Ids(t) - Ids(u)) && ids <= Ids(OfPriority(u, priority))
    requires Gone(t, Delete(u, ids), r)
    ensures Gone(t, u, r) || (r in u && r.id in ids && r.priority == priority)
  {
    if r.id in Ids(u) {
      DeleteMember(t, Ids(t) - Ids(u), r);
      DeleteMember(u, ids, r);
      BatchRow(u, priority, ids, r);
    }
  }

  lemma BatchIds(t: Table, u: Table, priority: int, ids: set<nat>)
    requires DistinctIds(u) && Ids(u) <= Ids(t) && u == Delete(t, Ids(t) - Ids(u))
    requires ids <= Ids(OfPriority(u, priority))
    ensures var w := Delete(u, ids);
            Ids(w) <= Ids(t) && w == Delete(t, Ids(t) - Ids(w)) && |w| == |u| - |ids|
  {
    forall r | r in OfPriority(u, priority) ensures r in u { OfPriorityMember(u, priority, r); }
    DeleteSize(u, ids);
    DeleteIds(u, ids);
    DeleteTwice(t, Ids(t) - Ids(u), ids);
    assert Ids(t) - Ids(Delete(u, ids)) == Ids(t) - Ids(u) + ids;
  }

  lemma BatchIsOldest(t: Table, u: Table, priority: int, ids: set<nat>, r: Row, q: Row)
    requires DistinctIds(u) && Evicts(t, u) && IsOldest(u, priority, CLEANUP_BATCH, ids)
    requires Gone(t, Delete(u, ids), r) && q in Delete(u, ids) && q.priority == r.priority
    ensures r.timestampMs <= q.timestampMs
  {
    GoneAfterBatch(t, u, priority, ids, r);
    DeleteMember(u, ids, q);
  }

  /** One more clean-up batch keeps the eviction within its rules. */
  lemma EvictBatch(t: Table, u: Table, priority: int, ids: set<nat>)
    requires DistinctIds(u) && Evicts(t, u) && |u| > MAX_RECORDS && 0 <= priority <= 1
    requires IsOldest(u, priority, CLEANUP_BATCH, ids)
    ensures Evicts(t, Delete(u, ids)) && |Delete(u, ids)| == |u| - |ids|
  {
    BatchIds(t, u, priority, ids);
    var w := Delete(u, ids);
    forall r | Gone(t, w, r) ensures 0 <= r.priority <= 1 { GoneAfterBatch(t, u, priority, ids, r); }
    forall r, q | Gone(t, w, r) && q in w && q.priority == r.priority ensures r.timestampMs <= q.timestampMs {
      BatchIsOldest(t, u, priority, ids, r, q);
    }
  }

  lemma BatchLowestFirst(t: Table, u: Table, priority: int, ids: set<nat>)
    requires DistinctIds(u) && Evicts(t, u) && IsOldest(u, priority, CLEANUP_BATCH, ids)
    requires LowestFirst(t, u) && (priority == 1 ==> NoneOf(u, 0))
    ensures LowestFirst(t, Delete(u, ids))
  {
    var w := Delete(u, ids);
    if r :| Gone(t, w, r) && r.priority == 1 {
      GoneAfterBatch(t, u, priority, ids, r);
      forall q | q in w ensures q.priority != 0 { DeleteMember(u, ids, q); }
    }
  }

  lemma BatchRow(u: Table, priority: int, ids: set<nat>, r: Row)
    requires DistinctIds(u) && r in u && r.id in ids && ids <= Ids(OfPriority(u, priority))
    ensures r.priority == priority
  {
    var q :| q in OfPriority(u, priority) && q.id == r.id;
    OfPriorityMember(u, priority, q);
  }

  // ---------- An eviction, statement by statement ----------

  /** What one DELETE did: the rows it took, or nothing because it failed. */
  datatype DeleteReply = Deleted(ids: set<nat>) | DeleteFailed

  /** The loop has nothing more to do. */
  predicate Done(t: Table, priority: int) {
    priority > 1 || |t| <= MAX_RECORDS
  }

  /** A reply to the DELETE that the loop issues next. */
  ghost predicate ReplyOk(t: Table, priority: int, reply: DeleteReply) {
    reply.Deleted? ==> IsOldest(t, priority, CLEANUP_BATCH, reply.ids)
  }

  function AfterReply(t: Table, reply: DeleteReply): Table {
    if reply.Deleted? then Delete(t, reply.ids) else t
  }

  /** No row deleted, for whatever reason, means the next priority. */
  function NextPriority(priority: int, reply: DeleteReply): int {
    if reply.Deleted? && reply.ids != {} then priority else priority + 1
  }

  /** The replies are those of a complete eviction from table t and priority on. */
  ghost predicate RepliesOk(t: Table, priority: int, replies: seq<DeleteReply>)
    decreases |replies|
  {
    if Done(t, priority) then replies == []
    else replies != [] && ReplyOk(t, priority, replies[0]) &&
         RepliesOk(AfterReply(t, replies[0]), NextPriority(priority, replies[0]), replies[1..])
  }

  function Evict(t: Table, replies: seq<DeleteReply>): Table
    decreases |replies|
  {
    if replies == [] then t else Evict(AfterReply(t, replies[0]), replies[1..])
  }

  /** A DELETE failed that had rows to delete. */
  ghost predicate FailsOnRows(t: Table, priority: int, replies: seq<DeleteReply>)
    decreases |replies|
  {
    replies != [] &&
    ((replies[0].DeleteFailed? && !NoneOf(t, priority)) ||
     FailsOnRows(AfterReply(t, replies[0]), NextPriority(priority, replies[0]), replies[1..]))
  }

  lemma ReplyEffect(t: Table, priority: int, reply: DeleteReply)
    requires DistinctIds(t) && ReplyOk(t, priority, reply)
    ensures DistinctIds(AfterReply(t, reply))
    ensures forall r :: r in AfterReply(t, reply) ==> r in t
    ensures forall r :: r in t && r.priority != priority ==> r in AfterReply(t, reply)
    ensures reply.Deleted? && reply.ids == {} ==> AfterReply(t, reply) == t && NoneOf(t, priority)
  {
    if reply.Deleted? {
      DeleteIds(t, reply.ids);
      forall r ensures r in Delete(t, reply.ids) <==> r in t && r.id !in reply.ids { DeleteMember(t, reply.ids, r); }
      forall r | r in t && r.id in reply.ids ensures r.priority == priority { BatchRow(t, priority, reply.ids, r); }
      if reply.ids == {} {
        DeleteNone(t);
        forall r | r in t ensures r.priority != priority { OfPriorityMember(t, priority, r); }
      }
    }
  }

  /** An eviction only removes rows, and none of a priority it has passed. */
  lemma {:induction false} EvictRemoves(t: Table, priority: int, replies: seq<DeleteReply>)
    requires DistinctIds(t) && RepliesOk(t, priority, replies)
    ensures DistinctIds(Evict(t, replies))
    ensures forall r :: r in Evict(t, replies) ==> r in t
    ensures forall r :: r in t && r.priority < priority ==> r in Evict(t, replies)
    decreases |replies|
  {
    if replies != [] {
      ReplyEffect(t, priority, replies[0]);
      EvictRemoves(AfterReply(t, replies[0]), NextPriority(priority, replies[0]), replies[1..]);
    }
  }

  /** No row of the priority is left, nor of a later low one. */
  ghost predicate EmptiedFrom(v: Table, priority: int) {
    forall q :: priority <= q <= 1 ==> NoneOf(v, q)
  }

  lemma EmptiedFromNext(v: Table, priority: int)
    requires 0 <= priority <= 1
    ensures EmptiedFrom(v, priority) <==> NoneOf(v, priority) && EmptiedFrom(v, priority + 1)
  {
  }

  lemma FailsNext(t: Table, priority: int, replies: seq<DeleteReply>)
    requires DistinctIds(t) && replies != [] && ReplyOk(t, priority, replies[0])
    ensures var next := NextPriority(priority, replies[0]);
            FailsOnRows(t, priority, replies) <==>
            (next > priority && !NoneOf(t, priority)) || FailsOnRows(AfterReply(t, replies[0]), next, replies[1..])
    ensures NextPriority(priority, replies[0]) > priority ==> AfterReply(t, replies[0]) == t
  {
    ReplyEffect(t, priority, replies[0]);
  }

  /** An eviction that ends above the capacity has emptied the low priorities exactly when no DELETE
      failed that had rows to delete. */
  lemma {:induction false} EvictEmptiesIff(t: Table, priority: int, replies: seq<DeleteReply>)
    requires DistinctIds(t) && RepliesOk(t, priority, replies) && priority >= 0
    ensures |Evict(t, replies)| > MAX_RECORDS ==>
            (!FailsOnRows(t, priority, replies) <==> EmptiedFrom(Evict(t, replies), priority))
    decreases |replies|
  {
    if replies != [] {
      var u, next, rest := AfterReply(t, replies[0]), NextPriority(priority, replies[0]), replies[1..];
      FailsNext(t, priority, replies);
      ReplyEffect(t, priority, replies[0]);
      EvictEmptiesIff(u, next, rest);
      if next > priority {
        EvictRemoves(u, next, rest);
        EmptiedOrNot(t, Evict(u, rest), priority);
        EmptiedFromNext(Evict(u, rest), priority);
      }
    }
  }

  lemma EmptiedOrNot(t: Table, v: Table, priority: int)
    requires forall r :: r in v ==> r in t
    requires forall r :: r in t && r.priority == priority ==> r in v
    ensures NoneOf(v, priority) <==> NoneOf(t, priority)
  {
  }

  /** Every statement keeps the eviction within its rules. */
  lemma {:induction false} EvictFollowsRules(t: Table, u: Table, priority: int, replies: seq<DeleteReply>)
    requires DistinctIds(u) && Evicts(t, u) && RepliesOk(u, priority, replies) && priority >= 0
    ensures Evicts(t, Evict(u, replies))
    decreases |replies|
  {
    if replies != [] {
      var reply := replies[0];
      ReplyEffect(u, priority, reply);
      if reply.Deleted? { EvictBatch(t, u, priority, reply.ids); }
      EvictFollowsRules(t, AfterReply(u, reply), NextPriority(priority, reply), replies[1..]);
    }
  }

  lemma {:induction false} EvictLowestFirst(t: Table, u: Table, priority: int, replies: seq<DeleteReply>)
    requires DistinctIds(u) && Evicts(t, u) && RepliesOk(u, priority, replies) && priority >= 0
    requires LowestFirst(t, u) && (priority == 1 ==> NoneOf(u, 0)) && !FailsOnRows(u, priority, replies)
    ensures LowestFirst(t, Evict(u, replies))
    decreases |replies|
  {
    if replies != [] {
      var reply := replies[0];
      ReplyEffect(u, priority, reply);
      if reply.Deleted? {
        EvictBatch(t, u, priority, reply.ids);
        BatchLowestFirst(t, u, priority, reply.ids);
      }
      EvictLowestFirst(t, AfterReply(u, reply), NextPriority(priority, reply), replies[1..]);
    }
  }

  // ---------- One call of enforceMaxRecords ----------

  /** counted: the row count could be read; without it nothing is evicted. */
  datatype Eviction = Eviction(counted: bool, replies: seq<DeleteReply>)

  ghost predicate EvictionOk(t: Table, e: Eviction) {
    if e.counted then RepliesOk(t, 0, e.replies) else e.replies == []
  }

  /** No statement failed that had something to do. */
  ghost predicate Succeeds(t: Table, e: Eviction) {
    if e.counted then !FailsOnRows(t, 0, e.replies) else Bounded(t)
  }

  /** What enforceMaxRecords does, whatever fails; and what it achieves: the table is bounded if and only
      if it fits anyway or no statement failed that had something to do. */
  lemma EnforceMeans(t: Table, e: Eviction)
    requires DistinctIds(t) && EvictionOk(t, e)
    ensures DistinctIds(Evict(t, e.replies)) && Evicts(t, Evict(t, e.replies))
    ensures Bounded(Evict(t, e.replies)) <==> |Evict(t, e.replies)| <= MAX_RECORDS || Succeeds(t, e)
    ensures Succeeds(t, e) ==> LowestFirst(t, Evict(t, e.replies))
  {
    EvictNothing(t);
    if e.counted {
      EvictRemoves(t, 0, e.replies);
      EvictEmptiesIff(t, 0, e.replies);
      EvictFollowsRules(t, t, 0, e.replies);
      if Succeeds(t, e) { EvictLowestFirst(t, t, 0, e.replies); }
    }
  }

  /** After `done` replies, started from table t and priority p, the loop is at table u and priority q. */
  ghost predicate Reaches(t: Table, p: int, done: seq<DeleteReply>, u: Table, q: int)
    decreases |done|
  {
    if done == [] then u == t && q == p
    else !Done(t, p) && ReplyOk(t, p, done[0]) &&
         Reaches(AfterReply(t, done[0]), NextPriority(p, done[0]), done[1..], u, q)
  }

  lemma {:induction false} ReachesNext(t: Table, p: int, done: seq<DeleteReply>, u: Table, q: int, reply: DeleteReply)
    requires Reaches(t, p, done, u, q) && !Done(u, q) && ReplyOk(u, q, reply)
    ensures Reaches(t, p, done + [reply], AfterReply(u, reply), NextPriority(q, reply))
    decreases |done|
  {
    if done == [] {
      assert done + [reply] == [reply] && [reply][1..] == [];
    } else {
      ReachesNext(AfterReply(t, done[0]), NextPriority(p, done[0]), done[1..], u, q, reply);
      assert (done + [reply])[1..] == done[1..] + [reply];
    }
  }

  lemma {:induction false} ReachesEnd(t: Table, p: int, done: seq<DeleteReply>, u: Table, q: int)
    requires Reaches(t, p, done, u, q) && Done(u, q)
    ensures RepliesOk(t, p, done) && Evict(t, done) == u
    decreases |done|
  {
    if done != [] {
      ReachesEnd(AfterReply(t, done[0]), NextPriority(p, done[0]), done[1..], u, q);
    }
  }

  /** After an eviction that met no failing statement the table is within its capacity exactly when
      the rows the eviction must not touch fit in it: high-priority rows alone can exceed it. */
  function Untouchable(t: Table): nat {
    if t == [] then 0 else (if 0 <= t[0].priority <= 1 then 0 else 1) + Untouchable(t[1..])
  }

  lemma {:induction false} DeleteKeepsUntouchable(t: Table, ids: set<nat>)
    requires forall r :: r in t && r.id in ids ==> 0 <= r.priority <= 1
    ensures Untouchable(Delete(t, ids)) == Untouchable(t)
  {
    if t != [] {
      assert t[0] in t && t == [t[0]] + t[1..];
      DeleteKeepsUntouchable(t[1..], ids);
      if t[0].id !in ids { DeleteLater(t[0], t[1..], ids); }
      else { assert Delete(t, ids) == Delete(t[1..], ids); }
    }
  }

  lemma {:induction false} UntouchableBounds(t: Table)
    ensures Untouchable(t) <= |t|
    ensures NoneOf(t, 0) && NoneOf(t, 1) ==> Untouchable(t) == |t|
  {
    if t != [] {
      UntouchableBounds(t[1..]);
      assert t[0] in t && forall r :: r in t[1..] ==> r in t;
    }
  }

  lemma CapacityIff(t: Table, u: Table)
    requires DistinctIds(t) && Evicts(t, u) && Bounded(u)
    ensures |u| <= MAX_RECORDS <==> Untouchable(t) <= MAX_RECORDS
  {
    var ids := Ids(t) - Ids(u);
    forall r | r in t && r.id in ids ensures 0 <= r.priority <= 1 { assert Gone(t, u, r); }
    DeleteKeepsUntouchable(t, ids);
    UntouchableBounds(u);
  }

  // ---------- The bound over every run ----------

  /** What changes the table: a cached message followed by an eviction, any deletion or update by a
      flush, and clearing the queue. */
  datatype Change = Cache(row: Row, eviction: Eviction) | Remove(ids: set<nat>) | Refuse(id: nat, now: int) | Clear

  function Apply(t: Table, c: Change): Table {
    match c
    case Cache(row, eviction) => Evict(t + [row], eviction.replies)
    case Remove(ids) => Delete(t, ids)
    case Refuse(id, now) => MarkFailed(t, id, now)
    case Clear => ClearPending(t)
  }

  ghost predicate ChangeOk(t: Table, c: Change) {
    c.Cache? ==> c.row.id !in Ids(t) && EvictionOk(t + [c.row], c.eviction)
  }

  /** The eviction that follows a cached message does its work, or the table fits anyway. */
  ghost predicate Contained(t: Table, c: Change) {
    c.Cache? ==> |Apply(t, c)| <= MAX_RECORDS || Succeeds(t + [c.row], c.eviction)
  }

  function ApplyAll(t: Table, cs: seq<Change>): Table {
    if cs == [] then t else Apply(ApplyAll(t, cs[..|cs| - 1]), cs[|cs| - 1])
  }

  ghost predicate ChangesOk(t: Table, cs: seq<Change>) {
    cs != [] ==> ChangesOk(t, cs[..|cs| - 1]) && ChangeOk(ApplyAll(t, cs[..|cs| - 1]), cs[|cs| - 1])
  }

  ghost predicate AlwaysBounded(t: Table, cs: seq<Change>) {
    Bounded(ApplyAll(t, cs)) && (cs != [] ==> AlwaysBounded(t, cs[..|cs| - 1]))
  }

  ghost predicate AllContained(t: Table, cs: seq<Change>) {
    cs != [] ==> AllContained(t, cs[..|cs| - 1]) && Contained(ApplyAll(t, cs[..|cs| - 1]), cs[|cs| - 1])
  }

  lemma {:induction false} ClearMember(t: Table, r: Row)
    ensures |ClearPending(t)| <= |t| && (r in ClearPending(t) <==> r in t && r.status == Failed)
  {
    if t != [] { ClearMember(t[1..], r); }
  }

  lemma {:induction false} DeleteShrinks(t: Table, ids: set<nat>)
    ensures |Delete(t, ids)| <= |t|
  {
    if t != [] { DeleteShrinks(t[1..], ids); }
  }

  lemma MarkKeepsIds(t: Table, id: nat, now: int)
    requires DistinctIds(t)
    ensures DistinctIds(MarkFailed(t, id, now)) && |MarkFailed(t, id, now)| == |t|
  {
    MarkFailedIds(t, id, now);
    var u := MarkFailed(t, id, now);
    forall i, j | 0 <= i < j < |u| ensures u[i].id != u[j].id {
      assert u[i].id == t[i].id && u[j].id == t[j].id;
    }
  }

  lemma MarkKeepsPriorities(t: Table, id: nat, now: int)
    ensures forall r :: r in MarkFailed(t, id, now) ==> exists q :: q in t && q.priority == r.priority
  {
    forall r | r in MarkFailed(t, id, now) ensures exists q :: q in t && q.priority == r.priority {
      MarkFailedMember(t, id, now, r);
    }
  }

  lemma {:induction false} ClearKeepsIds(t: Table)
    requires DistinctIds(t)
    ensures DistinctIds(ClearPending(t))
  {
    if t != [] {
      ClearKeepsIds(t[1..]);
      forall r | r in ClearPending(t[1..]) ensures r.id != t[0].id { ClearMember(t[1..], r); }
    }
  }

  /** One change keeps the bound if and only if it is contained; only caching can break it. */
  lemma ChangeKeepsBoundIff(t: Table, c: Change)
    requires DistinctIds(t) && Bounded(t) && ChangeOk(t, c)
    ensures DistinctIds(Apply(t, c)) && (Bounded(Apply(t, c)) <==> Contained(t, c))
  {
    match c
    case Cache(row, eviction) =>
      assert forall r :: r in t ==> r.id in Ids(t);
      EnforceMeans(t + [row], eviction);
    case Remove(ids) =>
      DeleteIds(t, ids);
      DeleteShrinks(t, ids);
      forall r | r in Delete(t, ids) ensures r in t { DeleteMember(t, ids, r); }
    case Refuse(id, now) =>
      MarkKeepsIds(t, id, now);
      MarkKeepsPriorities(t, id, now);
    case Clear =>
      ClearKeepsIds(t);
      if t != [] { ClearMember(t, t[0]); }
      forall r | r in ClearPending(t) ensures r in t { ClearMember(t, r); }
  }

  /** Over every run of caching, flushing and clearing the table stays bounded if and only if every
      cached message that took it above its capacity was followed by an eviction whose statements did
      not fail while they had rows to delete. */
  lemma {:induction false} EveryRunKeepsBoundIff(t: Table, cs: seq<Change>)
    requires DistinctIds(t) && Bounded(t) && ChangesOk(t, cs)
    ensures AlwaysBounded(t, cs) <==> AllContained(t, cs)
    ensures AlwaysBounded(t, cs) ==> DistinctIds(ApplyAll(t, cs))
  {
    if cs != [] {
      var pre := cs[..|cs| - 1];
      EveryRunKeepsBoundIff(t, pre);
      if AlwaysBounded(t, pre) {
        ChangeKeepsBoundIff(ApplyAll(t, pre), cs[|cs| - 1]);
      }
    }
  }

  // ---------- Alarms exceed the capacity ----------

  /** n alarms, cached one after the other, each with an eviction that finds nothing it may delete. */
  function Alarms(n: nat, priority: int): Table {
    if n == 0 then []
    else Alarms(n - 1, priority) + [Row(n, "", "", priority, n, 0, 0, Pending)]
  }

  function AlarmEviction(n: nat): Eviction {
    Eviction(true, if n > MAX_RECORDS then [Deleted({}), Deleted({})] else [])
  }

  function CacheAlarms(n: nat, priority: int): seq<Change> {
    if n == 0 then []
    else CacheAlarms(n - 1, priority) + [Cache(Row(n, "", "", priority, n, 0, 0, Pending), AlarmEviction(n))]
  }

  lemma {:induction false} AlarmsAre(n: nat, priority: int)
    ensures |Alarms(n, priority)| == n
    ensures forall r :: r in Alarms(n, priority) ==> 1 <= r.id <= n && r.priority == priority
    ensures Untouchable(Alarms(n, priority)) == if 0 <= priority <= 1 then 0 else n
  {
    if n > 0 {
      AlarmsAre(n - 1, priority);
      UntouchableNext(Alarms(n - 1, priority), Row(n, "", "", priority, n, 0, 0, Pending));
    }
  }

  lemma {:induction false} UntouchableNext(t: Table, r: Row)
    ensures Untouchable(t + [r]) == Untouchable(t) + if 0 <= r.priority <= 1 then 0 else 1
  {
    if t == [] {
      assert t + [r] == [r] && [r][1..] == [];
    } else {
      assert (t + [r])[1..] == t[1..] + [r];
      UntouchableNext(t[1..], r);
    }
  }

  lemma {:induction false} NoneOfPriority(t: Table, priority: int)
    requires NoneOf(t, priority)
    ensures OfPriority(t, priority) == []
  {
    if t != [] {
      assert t[0] in t && forall r :: r in t[1..] ==> r in t;
      NoneOfPriority(t[1..], priority);
    }
  }

  /** A DELETE that finds no row moves on to the next priority. */
  lemma SkipPriority(t: Table, priority: int, rest: seq<DeleteReply>)
    requires !Done(t, priority) && NoneOf(t, priority) && RepliesOk(t, priority + 1, rest)
    ensures RepliesOk(t, priority, [Deleted({})] + rest) && Evict(t, [Deleted({})] + rest) == Evict(t, rest)
  {
    NoneOfPriority(t, priority);
    DeleteNone(t);
    assert ([Deleted({})] + rest)[1..] == rest;
  }

  lemma NothingToEvict(t: Table)
    requires NoneOf(t, 0) && NoneOf(t, 1)
    ensures EvictionOk(t, AlarmEviction(|t|)) && Evict(t, AlarmEviction(|t|).replies) == t
  {
    if |t| > MAX_RECORDS {
      SkipPriority(t, 1, []);
      SkipPriority(t, 0, [Deleted({})] + []);
      assert [Deleted({})] + ([Deleted({})] + []) == AlarmEviction(|t|).replies;
    }
  }

  /** Any number of messages of priority 2 or more stays in the table although no statement fails: with
      5001 of them it is above its capacity. */
  lemma {:induction false} AlarmsExceedCapacity(n: nat, priority: int)
    requires priority > 1
    ensures ChangesOk([], CacheAlarms(n, priority)) && ApplyAll([], CacheAlarms(n, priority)) == Alarms(n, priority)
    ensures |Alarms(n, priority)| == n
  {
    AlarmsAre(n, priority);
    if n > 0 {
      AlarmsExceedCapacity(n - 1, priority);
      AlarmsAre(n - 1, priority);
      var cs := CacheAlarms(n, priority);
      assert cs[..|cs| - 1] == CacheAlarms(n - 1, priority);
      NothingToEvict(Alarms(n, priority));
    }
  }
}
