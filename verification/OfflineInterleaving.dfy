/**
  Flushes that overlap (Linux_data/offline_cache/OfflinePublishQueue.cpp).  flushToMqttOnce holds its lock
  for the query, lets it go for every send, and takes it again to record the outcome.  The MQTT thread
  flushes from its poll loop, the command thread on request, and other threads cache messages and
  clear the queue in between.  Every event below is one lock scope or one send.
 */
module OfflineInterleaving {
  import opened OfflineStore
  import opened OfflineFlush
  import opened OfflineEviction
  import opened Wrappers

  /** A row that has been sent, with an answer that is not recorded yet. */
  datatype Recording = Recording(row: Row, accepted: bool)

  /** The rest of the batch a flush has loaded; a refused send gives the rest up. */
  datatype Flusher = Flusher(unsent: Table, recording: Option<Recording>)

  const IDLE := Flusher([], None)

  /** log: every row a sender accepted, in order. */
  datatype State = State(rows: Table, nextId: nat, flushers: seq<Flusher>, log: Table)

  datatype Event =
    | Load(t: nat, batch: Table)
    | Send(t: nat, accepted: bool)
    | Record(t: nat, recorded: bool, now: int)
    | Insert(row: Row, evicted: set<nat>)
    | ClearAll

  ghost predicate Enabled(s: State, e: Event) {
    match e
    case Load(t, batch) => t < |s.flushers| && s.flushers[t] == IDLE &&
        (batch == [] || IsBatch(s.rows, FLUSH_BATCH, batch))
    case Send(t, _) => t < |s.flushers| && s.flushers[t].recording.None? && s.flushers[t].unsent != []
    case Record(t, _, _) => t < |s.flushers| && s.flushers[t].recording.Some?
    case Insert(row, _) => row.id == s.nextId && row.status == Pending && row.sendCount == 0
    case ClearAll => true
  }

  function AfterRecord(rows: Table, r: Recording, recorded: bool, now: int): Table {
    if !recorded then rows else if r.accepted then Delete(rows, {r.row.id}) else MarkFailed(rows, r.row.id, now)
  }

  function Step(s: State, e: Event): State
    requires Enabled(s, e)
  {
    match e
    case Load(t, batch) => s.(flushers := s.flushers[t := Flusher(batch, None)])
    case Send(t, accepted) =>
      var unsent := s.flushers[t].unsent;
      s.(flushers := s.flushers[t := Flusher(if accepted then unsent[1..] else [],
                                               Some(Recording(unsent[0], accepted)))],
         log := if accepted then s.log + [unsent[0]] else s.log)
    case Record(t, recorded, now) =>
      s.(flushers := s.flushers[t := s.flushers[t].(recording := None)],
         rows := AfterRecord(s.rows, s.flushers[t].recording.value, recorded, now))
    case Insert(row, evicted) => s.(rows := Delete(s.rows + [row], evicted), nextId := s.nextId + 1)
    case ClearAll => s.(rows := ClearPending(s.rows))
  }

  ghost predicate IsRun(s: State, es: seq<Event>)
    decreases |es|
  {
    es != [] ==> Enabled(s, es[0]) && IsRun(Step(s, es[0]), es[1..])
  }

  ghost function Run(s: State, es: seq<Event>): State
    requires IsRun(s, es)
    decreases |es|
  {
    if es == [] then s else Run(Step(s, es[0]), es[1..])
  }

  /** Only flushes are at work, and the statements that record their sends succeed. */
  ghost predicate IsFlushing(s: State, e: Event) {
    match e
    case Load(_, batch) => IsBatch(s.rows, FLUSH_BATCH, batch)
    case Send(_, _) => true
    case Record(_, recorded, _) => recorded
    case Insert(_, _) => false
    case ClearAll => false
  }

  /** How many queries a run makes. */
  function Loads(es: seq<Event>): nat {
    if es == [] then 0 else (if es[0].Load? then 1 else 0) + Loads(es[1..])
  }

  /** Every flush is through. */
  ghost predicate AllIdle(s: State) {
    forall t :: 0 <= t < |s.flushers| ==> s.flushers[t] == IDLE
  }

  lemma RunCons(s: State, e: Event, es: seq<Event>)
    requires Enabled(s, e) && IsRun(Step(s, e), es)
    ensures IsRun(s, [e] + es) && Run(s, [e] + es) == Run(Step(s, e), es)
  {
    assert ([e] + es)[1..] == es;
  }

  lemma Before(s: State, e: Event, rest: seq<Event>) returns (es: seq<Event>)
    requires Enabled(s, e) && IsRun(Step(s, e), rest)
    ensures IsRun(s, es) && Run(s, es) == Run(Step(s, e), rest)
  {
    RunCons(s, e, rest);
    es := [e] + rest;
  }

  lemma {:induction false} RunAppend(s: State, es: seq<Event>, fs: seq<Event>)
    requires IsRun(s, es) && IsRun(Run(s, es), fs)
    ensures IsRun(s, es + fs) && Run(s, es + fs) == Run(Run(s, es), fs)
    decreases |es|
  {
    if es == [] {
      assert es + fs == fs;
    } else {
      RunAppend(Step(s, es[0]), es[1..], fs);
      assert (es + fs)[0] == es[0] && (es + fs)[1..] == es[1..] + fs;
    }
  }

  // ---------- What is known of ids ----------

  ghost predicate IdsBelow(t: Table, n: nat) {
    forall r :: r in t ==> r.id < n
  }

  ghost predicate Known(s: State) {
    && DistinctIds(s.rows) && IdsBelow(s.rows, s.nextId) && IdsBelow(s.log, s.nextId)
    && forall t :: 0 <= t < |s.flushers| ==>
         DistinctIds(s.flushers[t].unsent) && IdsBelow(s.flushers[t].unsent, s.nextId)
  }

  /** The rows of a query's answer are pending rows of the table, each once. */
  lemma BatchRows(rows: Table, batch: Table)
    requires DistinctIds(rows) && (batch == [] || IsBatch(rows, FLUSH_BATCH, batch))
    ensures DistinctIds(batch) && forall r :: r in batch ==> r in rows && r.status == Pending
  {
    if batch != [] {
      var order :| IsOrdering(rows, order) && batch == Limit(order, FLUSH_BATCH);
      PendingDistinct(rows);
      SameRowsDistinct(PendingOf(rows), order);
      SameRows(order, PendingOf(rows));
      forall r | r in batch ensures r in rows && r.status == Pending {
        assert r in order;
        PendingMember(rows, r);
      }
    }
  }

  lemma RecordedIds(rows: Table, r: Recording, recorded: bool, now: int, n: nat)
    requires DistinctIds(rows) && IdsBelow(rows, n)
    ensures DistinctIds(AfterRecord(rows, r, recorded, now)) && IdsBelow(AfterRecord(rows, r, recorded, now), n)
  {
    DeleteIds(rows, {r.row.id});
    forall q | q in Delete(rows, {r.row.id}) ensures q in rows { DeleteMember(rows, {r.row.id}, q); }
    MarkKeepsIds(rows, r.row.id, now);
    MarkFailedIds(rows, r.row.id, now);
  }

  lemma InsertedIds(rows: Table, row: Row, evicted: set<nat>)
    requires DistinctIds(rows) && IdsBelow(rows, row.id)
    ensures DistinctIds(Delete(rows + [row], evicted)) && IdsBelow(Delete(rows + [row], evicted), row.id + 1)
  {
    DeleteIds(rows + [row], evicted);
    forall q | q in Delete(rows + [row], evicted) ensures q in rows + [row] { DeleteMember(rows + [row], evicted, q); }
  }

  lemma StepKeepsKnown(s: State, e: Event)
    requires Known(s) && Enabled(s, e)
    ensures Known(Step(s, e))
  {
    match e
    case Load(t, batch) => BatchRows(s.rows, batch);
    case Send(t, accepted) =>
      var unsent := s.flushers[t].unsent;
      assert unsent[0] in unsent && forall r :: r in unsent[1..] ==> r in unsent;
    case Record(t, recorded, now) => RecordedIds(s.rows, s.flushers[t].recording.value, recorded, now, s.nextId);
    case Insert(row, evicted) => InsertedIds(s.rows, row, evicted);
    case ClearAll =>
      ClearKeepsIds(s.rows);
      forall r | r in ClearPending(s.rows) ensures r in s.rows { ClearMember(s.rows, r); }
  }

  // ---------- At most once ----------

  predicate Holds(s: State, t: nat, id: nat) {
    t < |s.flushers| && id in Ids(s.flushers[t].unsent)
  }

  ghost predicate AtMostOnce(s: State) {
    DistinctIds(s.log)
  }

  /** No row is left to be sent by two flushes, and none that was accepted already. */
  ghost predicate Exclusive(s: State) {
    && (forall t, id :: Holds(s, t, id) ==> id !in Ids(s.log))
    && (forall t, u, id :: Holds(s, t, id) && Holds(s, u, id) ==> t == u)
  }

  /** The query's answer has no row that another flush still holds, and none that was accepted before:
      whose DELETE is still to come, or failed. */
  ghost predicate LoadsExclusively(s: State, e: Event) {
    e.Load? ==> forall r :: r in e.batch ==> r.id !in Ids(s.log) && forall u :: !Holds(s, u, r.id)
  }

  lemma StepKeepsExclusiveIff(s: State, e: Event)
    requires Known(s) && Exclusive(s) && AtMostOnce(s) && Enabled(s, e)
    ensures AtMostOnce(Step(s, e)) && (Exclusive(Step(s, e)) <==> LoadsExclusively(s, e))
  {
    match e
    case Load(t, batch) => LoadKeepsExclusiveIff(s, t, batch);
    case Send(t, accepted) => SendKeepsExclusive(s, t, accepted);
    case Record(t, recorded, now) =>
      assert forall u, id :: Holds(Step(s, e), u, id) <==> Holds(s, u, id);
    case Insert(_, _) => assert forall u, id :: Holds(Step(s, e), u, id) <==> Holds(s, u, id);
    case ClearAll => assert forall u, id :: Holds(Step(s, e), u, id) <==> Holds(s, u, id);
  }

  lemma LoadKeepsExclusiveIff(s: State, t: nat, batch: Table)
    requires Exclusive(s) && Enabled(s, Load(t, batch))
    ensures Exclusive(Step(s, Load(t, batch))) <==> LoadsExclusively(s, Load(t, batch))
  {
    var e := Load(t, batch);
    var u := Step(s, e);
    assert forall v, id :: v != t ==> (Holds(u, v, id) <==> Holds(s, v, id));
    assert forall id :: Holds(u, t, id) <==> id in Ids(batch);
    assert forall id :: !Holds(s, t, id);
    if Exclusive(u) {
      assert u.log == s.log;
      forall r | r in batch ensures r.id !in Ids(s.log) {
        assert r.id in Ids(batch);
        assert Holds(u, t, r.id);
      }
      forall r, v: nat | r in batch ensures !Holds(s, v, r.id) {
        assert r.id in Ids(batch);
        assert Holds(u, t, r.id);
        assert v != t ==> (Holds(u, v, r.id) <==> Holds(s, v, r.id));
      }
    }
  }

  lemma SendKeepsExclusive(s: State, t: nat, accepted: bool)
    requires Known(s) && Exclusive(s) && AtMostOnce(s) && Enabled(s, Send(t, accepted))
    ensures Exclusive(Step(s, Send(t, accepted))) && AtMostOnce(Step(s, Send(t, accepted)))
  {
    var unsent := s.flushers[t].unsent;
    var u := Step(s, Send(t, accepted));
    assert unsent == [unsent[0]] + unsent[1..];
    assert Holds(s, t, unsent[0].id);
    forall v: nat, id | Holds(u, v, id) ensures Holds(s, v, id) && id != unsent[0].id {
      if v == t {
        assert accepted && id in Ids(unsent[1..]);
        assert forall r :: r in unsent[1..] ==> r in unsent && r.id != unsent[0].id;
      } else {
        assert u.flushers[v] == s.flushers[v];
        assert Holds(s, v, id) && id != unsent[0].id;
      }
    }
    if accepted {
      assert forall r :: r in s.log ==> r.id in Ids(s.log);
      forall id | id in Ids(u.log) ensures id in Ids(s.log) || id == unsent[0].id {}
    }
  }

  ghost predicate NoLoads(es: seq<Event>) {
    forall e :: e in es ==> !e.Load?
  }

  /** However the flushes under way end, whatever the sender answers and whichever statements fail, no
      row will have been accepted twice. */
  ghost predicate SafeToFinish(s: State) {
    forall es :: IsRun(s, es) && NoLoads(es) ==> AtMostOnce(Run(s, es))
  }

  lemma {:induction false} ExclusiveIsSafe(s: State, es: seq<Event>)
    requires Known(s) && Exclusive(s) && AtMostOnce(s) && IsRun(s, es) && NoLoads(es)
    ensures AtMostOnce(Run(s, es))
    decreases |es|
  {
    if es != [] {
      assert es[0] in es && forall e :: e in es[1..] ==> e in es;
      StepKeepsExclusiveIff(s, es[0]);
      StepKeepsKnown(s, es[0]);
      ExclusiveIsSafe(Step(s, es[0]), es[1..]);
    }
  }

  /** A flush can go on until it has sent a given row of its batch. */
  lemma {:induction false} Drive(s: State, t: nat, r: Row) returns (es: seq<Event>)
    requires t < |s.flushers| && r in s.flushers[t].unsent
    ensures IsRun(s, es) && NoLoads(es)
    ensures var u := Run(s, es);
            && s.log < u.log && u.log[|u.log| - 1] == r
            && |u.flushers| == |s.flushers| && forall v ::
                0 <= v < |s.flushers| && v != t ==> u.flushers[v] == s.flushers[v]
    decreases |s.flushers[t].unsent|, if s.flushers[t].recording.Some? then 1 else 0
  {
    if s.flushers[t].recording.Some? {
      var rest := Drive(Step(s, Record(t, true, 0)), t, r);
      RunCons(s, Record(t, true, 0), rest);
      es := [Record(t, true, 0)] + rest;
    } else {
      var u := Step(s, Send(t, true));
      if s.flushers[t].unsent[0] == r {
        RunCons(s, Send(t, true), []);
        es := [Send(t, true)] + [];
      } else {
        var rest := Drive(u, t, r);
        RunCons(s, Send(t, true), rest);
        es := [Send(t, true)] + rest;
      }
    }
  }

  lemma Repeats(log: Table, more: Table)
    requires log < more && more[|more| - 1].id in Ids(log)
    ensures !DistinctIds(more)
  {
    var r :| r in log && r.id == more[|more| - 1].id;
    var i :| 0 <= i < |log| && log[i] == r;
    assert more[i] == log[i];
  }

  lemma SharedIsUnsafe(s: State)
    requires !Exclusive(s)
    ensures !SafeToFinish(s)
  {
    if t: nat, id: nat :| Holds(s, t, id) && id in Ids(s.log) {
      var r :| r in s.flushers[t].unsent && r.id == id;
      var es := Drive(s, t, r);
      Repeats(s.log, Run(s, es).log);
    } else {
      var t: nat, v: nat, id: nat :| Holds(s, t, id) && Holds(s, v, id) && t != v;
      var r :| r in s.flushers[t].unsent && r.id == id;
      var q :| q in s.flushers[v].unsent && q.id == id;
      var es := Drive(s, t, r);
      var u := Run(s, es);
      assert u.log[|u.log| - 1] in u.log;
      var fs := Drive(u, v, q);
      RunAppend(s, es, fs);
      Repeats(u.log, Run(u, fs).log);
      assert NoLoads(es + fs);
    }
  }

  lemma SafeToFinishIff(s: State)
    requires Known(s) && AtMostOnce(s)
    ensures SafeToFinish(s) <==> Exclusive(s)
  {
    if Exclusive(s) {
      forall es | IsRun(s, es) && NoLoads(es) ensures AtMostOnce(Run(s, es)) { ExclusiveIsSafe(s, es); }
    } else {
      SharedIsUnsafe(s);
    }
  }

  ghost predicate AlwaysSafe(s: State, es: seq<Event>)
    requires IsRun(s, es)
    decreases |es|
  {
    SafeToFinish(s) && (es != [] ==> AlwaysSafe(Step(s, es[0]), es[1..]))
  }

  ghost predicate AllLoadsExclusive(s: State, es: seq<Event>)
    requires IsRun(s, es)
    decreases |es|
  {
    es != [] ==> LoadsExclusively(s, es[0]) && AllLoadsExclusive(Step(s, es[0]), es[1..])
  }

  /** Over every interleaving of flushes, caching and clearing: at no point can the flushes under way end
      in a row being delivered twice if and only if no query ever answered with a row that another
      flush held or that had been accepted before. */
  lemma {:induction false} AtMostOnceIff(s: State, es: seq<Event>)
    requires Known(s) && Exclusive(s) && AtMostOnce(s) && IsRun(s, es)
    ensures AlwaysSafe(s, es) <==> AllLoadsExclusive(s, es)
    decreases |es|
  {
    SafeToFinishIff(s);
    if es != [] {
      var u := Step(s, es[0]);
      StepKeepsKnown(s, es[0]);
      StepKeepsExclusiveIff(s, es[0]);
      if LoadsExclusively(s, es[0]) {
        AtMostOnceIff(u, es[1..]);
      } else {
        SafeToFinishIff(u);
      }
    }
  }

  function Start(rows: Table, nextId: nat, flushers: nat): State {
    State(rows, nextId, seq(flushers, _ => IDLE), [])
  }

  /** Every run starts like this. */
  lemma StartIsExclusive(rows: Table, nextId: nat, flushers: nat)
    requires DistinctIds(rows) && IdsBelow(rows, nextId)
    ensures Known(Start(rows, nextId, flushers)) && Exclusive(Start(rows, nextId, flushers))
    ensures AtMostOnce(Start(rows, nextId, flushers))
  {
  }

  // ---------- Overlapping flushes ----------

  lemma SingleBatch(r: Row)
    requires r.status == Pending
    ensures IsBatch([r], FLUSH_BATCH, [r])
  {
    assert PendingOf([r]) == [r];
    assert IsOrdering([r], [r]) && Limit([r], FLUSH_BATCH) == [r];
  }

  /** Two flushes load the table's only row, both before the other has recorded anything. */
  lemma BothHold(r: Row, accepted: bool) returns (es: seq<Event>)
    requires r.status == Pending
    ensures var s := Start([r], r.id + 1, 2);
            && IsRun(s, es)
            && Run(s, es) == s.(flushers := [Flusher([], Some(Recording(r, accepted))),
                                             Flusher([], Some(Recording(r, accepted)))],
                                log := if accepted then [r, r] else [])
  {
    var s := Start([r], r.id + 1, 2);
    SingleBatch(r);
    var sent := Flusher([], Some(Recording(r, accepted)));
    assert s.flushers == [IDLE, IDLE] && [r][1..] == [];
    var s1 := s.(flushers := [Flusher([r], None), IDLE]);
    var s2 := s.(flushers := [Flusher([r], None), Flusher([r], None)]);
    var s3 := s.(flushers := [sent, Flusher([r], None)], log := if accepted then [r] else []);
    var s4 := s.(flushers := [sent, sent], log := if accepted then [r, r] else []);
    assert Step(s, Load(0, [r])) == s1 && Step(s1, Load(1, [r])) == s2;
    assert Step(s2, Send(0, accepted)) == s3 && Step(s3, Send(1, accepted)) == s4;
    es := Before(s3, Send(1, accepted), []);
    es := Before(s2, Send(0, accepted), es);
    es := Before(s1, Load(1, [r]), es);
    es := Before(s, Load(0, [r]), es);
  }

  /** Both record their answers. */
  lemma BothRecord(s: State, now: int) returns (es: seq<Event>)
    requires |s.flushers| == 2 && s.flushers[0].recording.Some? && s.flushers[1].recording.Some?
    ensures IsRun(s, es)
    ensures Run(s, es).log == s.log
    ensures Run(s, es).rows == AfterRecord(AfterRecord(s.rows, s.flushers[0].recording.value, true, now),
                                           s.flushers[1].recording.value, true, now)
  {
    var s1 := Step(s, Record(0, true, now));
    RunCons(s1, Record(1, true, now), []);
    RunCons(s, Record(0, true, now), [Record(1, true, now)] + []);
    es := [Record(0, true, now)] + ([Record(1, true, now)] + []);
  }

  /** Two overlapping flushes deliver a row twice, although no statement fails. */
  lemma OverlapSendsTwice(r: Row) returns (es: seq<Event>)
    requires r.status == Pending
    ensures var s := Start([r], r.id + 1, 2);
            IsRun(s, es) && Sent(Run(s, es).log, r.id) == 2 && Run(s, es).rows == []
  {
    var s := Start([r], r.id + 1, 2);
    var first := BothHold(r, true);
    var second := BothRecord(Run(s, first), 0);
    RunAppend(s, first, second);
    es := first + second;
    TwoDeliveries(r);
    DeleteSingle(r);
  }

  lemma TwoDeliveries(r: Row)
    ensures Sent([r, r], r.id) == 2
  {
    assert [r, r][..1] == [r] && [r][..0] == [];
    assert Sent([r], r.id) == Sent([], r.id) + 1;
  }

  lemma DeleteSingle(r: Row)
    ensures Delete([r], {r.id}) == []
  {
    assert [r][1..] == [];
  }

  /** And two overlapping refusals take a row past its last send: it ends with one refusal too many. */
  lemma OverlapRefusesOnceMore(r: Row, now: int) returns (es: seq<Event>)
    requires r.status == Pending && r.sendCount == MAX_SENDS - 1
    ensures var s := Start([r], r.id + 1, 2);
            IsRun(s, es) && Run(s, es).rows == [r.(sendCount := MAX_SENDS + 1, lastSendMs := now, status := Failed)]
  {
    var s := Start([r], r.id + 1, 2);
    var first := BothHold(r, false);
    var second := BothRecord(Run(s, first), now);
    RunAppend(s, first, second);
    es := first + second;
    MarkSingle(r, now);
    MarkSingle(AfterFailure(r, now), now);
  }

  lemma MarkSingle(r: Row, now: int)
    ensures MarkFailed([r], r.id, now) == [AfterFailure(r, now)]
  {
    assert [r][1..] == [];
  }

  // ---------- A flush that nothing interrupts ----------

  /** The batch loop of one flush, run without interruption, is the sequential batch loop. */
  lemma {:induction false} SoloBatch(s: State, t: nat, batch: Table, replies: seq<Reply>) returns (es: seq<Event>)
    requires t < |s.flushers| && s.flushers[t] == Flusher(batch, None) && |replies| >= |batch|
    ensures var u := Replay(Store(s.rows, s.log), batch, replies);
            IsRun(s, es) && Run(s, es) == s.(rows := u.rows, log := u.log, flushers := s.flushers[t := IDLE])
    decreases |batch|
  {
    if batch == [] {
      es := [];
      assert s.flushers[t := IDLE] == s.flushers;
    } else {
      var reply := replies[0];
      var send, record := Send(t, reply.Accepted?), Record(t, if reply.Accepted? then reply.deleted else reply.recorded,
                                                         if reply.Accepted? then 0 else reply.now);
      var s1 := Step(s, send);
      var s2 := Step(s1, record);
      SoloStep(s, t, batch, reply);
      var rest := [];
      if reply.Accepted? {
        rest := SoloBatch(s2, t, batch[1..], replies[1..]);
      }
      assert s2.flushers[t := IDLE] == s.flushers[t := IDLE];
      RunCons(s1, record, rest);
      RunCons(s, send, [record] + rest);
      es := [send] + ([record] + rest);
    }
  }

  lemma SoloStep(s: State, t: nat, batch: Table, reply: Reply)
    requires t < |s.flushers| && s.flushers[t] == Flusher(batch, None) && batch != []
    ensures var s1 := Step(s, Send(t, reply.Accepted?));
            var record := Record(t, if reply.Accepted? then reply.deleted else reply.recorded,
                                 if reply.Accepted? then 0 else reply.now);
            var u := Settle(Store(s.rows, s.log), batch[0], reply);
            Enabled(s1, record) &&
            Step(s1, record) == s.(rows := u.rows, log := u.log,
                                   flushers := s.flushers[t := Flusher(if reply.Accepted? then batch[1..] else [],
                                                                       None)])
  {
  }

  /** So a flush that nothing interrupts is one of the runs above. */
  lemma SoloFlush(s: State, t: nat, f: Flush) returns (es: seq<Event>)
    requires t < |s.flushers| && s.flushers[t] == IDLE && FlushOk(Store(s.rows, s.log), f)
    ensures var u := FlushOnce(Store(s.rows, s.log), f);
            IsRun(s, es) && Run(s, es) == s.(rows := u.rows, log := u.log)
  {
    var load := Load(t, f.Batch());
    var s1 := Step(s, load);
    var rest := SoloBatch(s1, t, f.Batch(), f.replies);
    RunCons(s, load, rest);
    es := [load] + rest;
    assert s1.flushers[t := IDLE] == s.flushers;
  }
}
