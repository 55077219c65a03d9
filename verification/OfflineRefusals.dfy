/**
  When a row gives up: at its fifth refusal, and never later.  Two flushes that hold the same row can
  both be refused, so the promise depends on which rows the queries answer with.
 */
module OfflineRefusals {
  import opened OfflineStore
  import opened OfflineFlush
  import opened OfflineEviction
  import opened OfflineInterleaving
  import opened Wrappers

  /** The flush may still record a refusal of the row. */
  predicate Wants(f: Flusher, id: nat) {
    id in Ids(f.unsent) || (f.recording.Some? && !f.recording.value.accepted && f.recording.value.row.id == id)
  }

  /** How many flushes may. */
  function Wanting(fs: seq<Flusher>, id: nat): nat {
    if fs == [] then 0 else Wanting(fs[..|fs| - 1], id) + if Wants(fs[|fs| - 1], id) then 1 else 0
  }

  /** A refusal ends its batch, ids are below the next one, and failed rows have had their refusals. */
  ghost predicate Orderly(s: State) {
    && Known(s)
    && (forall r :: r in s.rows ==> (r.status == Failed <==> r.sendCount >= MAX_SENDS))
    && (forall t :: 0 <= t < |s.flushers| && s.flushers[t].recording.Some? ==>
          s.flushers[t].recording.value.row.id < s.nextId &&
          (!s.flushers[t].recording.value.accepted ==> s.flushers[t].unsent == []))
  }

  lemma StepKeepsOrderly(s: State, e: Event)
    requires Orderly(s) && Enabled(s, e)
    ensures Orderly(Step(s, e))
  {
    StepKeepsKnown(s, e);
    match e
    case Load(_, _) =>
    case Send(t, _) => assert s.flushers[t].unsent[0] in s.flushers[t].unsent;
    case Record(t, recorded, now) =>
      forall r | r in Step(s, e).rows ensures r.status == Failed <==> r.sendCount >= MAX_SENDS {
        RecordedRow(s.rows, s.flushers[t].recording.value, recorded, now, r);
      }
    case Insert(row, evicted) =>
      forall r | r in Step(s, e).rows ensures r in s.rows || r == row { DeleteMember(s.rows + [row], evicted, r); }
    case ClearAll =>
      forall r | r in Step(s, e).rows ensures r in s.rows { ClearMember(s.rows, r); }
  }

  /** Where a row comes from when an answer is recorded. */
  lemma RecordedRow(rows: Table, r: Recording, recorded: bool, now: int, q: Row)
    requires q in AfterRecord(rows, r, recorded, now)
    ensures if recorded && !r.accepted && q.id == r.row.id
            then exists p :: p in rows && p.id == q.id && q == AfterFailure(p, now)
            else q in rows
  {
    DeleteMember(rows, {r.row.id}, q);
    MarkFailedMember(rows, r.row.id, now, q);
  }

  lemma {:induction false} WantingUpdate(fs: seq<Flusher>, t: nat, f: Flusher, id: nat)
    requires t < |fs|
    ensures Wanting(fs[t := f], id) + (if Wants(fs[t], id) then 1 else 0)
         == Wanting(fs, id) + if Wants(f, id) then 1 else 0
  {
    var n := |fs| - 1;
    if t < n {
      WantingUpdate(fs[..n], t, f, id);
      assert fs[t := f][..n] == fs[..n][t := f];
    } else {
      assert fs[t := f][..n] == fs[..n];
    }
  }

  lemma {:induction false} NobodyWants(fs: seq<Flusher>, id: nat)
    requires forall t :: 0 <= t < |fs| ==> !Wants(fs[t], id)
    ensures Wanting(fs, id) == 0
  {
    if fs != [] { NobodyWants(fs[..|fs| - 1], id); }
  }

  // ---------- Room for every refusal that may still come ----------

  ghost predicate Room(s: State) {
    forall r :: r in s.rows ==> r.sendCount + Wanting(s.flushers, r.id) <= MAX_SENDS
  }

  /** Every row of the query's answer has a refusal left that no other flush may use. */
  ghost predicate LoadsWithRoom(s: State, e: Event) {
    e.Load? ==> forall r :: r in e.batch ==> r.sendCount + Wanting(s.flushers, r.id) < MAX_SENDS
  }

  lemma StepKeepsRoomIff(s: State, e: Event)
    requires Orderly(s) && Room(s) && Enabled(s, e)
    ensures Room(Step(s, e)) <==> LoadsWithRoom(s, e)
  {
    match e
    case Load(t, batch) => LoadKeepsRoomIff(s, t, batch);
    case Send(t, accepted) => SendKeepsRoom(s, t, accepted);
    case Record(t, recorded, now) => RecordKeepsRoom(s, t, recorded, now);
    case Insert(row, evicted) =>
      NobodyWants(s.flushers, row.id);
      forall r | r in Step(s, e).rows ensures r in s.rows || r == row { DeleteMember(s.rows + [row], evicted, r); }
    case ClearAll =>
      forall r | r in Step(s, e).rows ensures r in s.rows { ClearMember(s.rows, r); }
  }

  lemma LoadKeepsRoomIff(s: State, t: nat, batch: Table)
    requires Known(s) && Room(s) && Enabled(s, Load(t, batch))
    ensures Room(Step(s, Load(t, batch))) <==> LoadsWithRoom(s, Load(t, batch))
  {
    var f := Flusher(batch, None);
    BatchRows(s.rows, batch);
    forall id ensures Wanting(s.flushers[t := f], id) == Wanting(s.flushers, id) + if id in Ids(batch) then 1 else 0 {
      WantingUpdate(s.flushers, t, f, id);
    }
    forall r | r in batch ensures r in s.rows && r.id in Ids(batch) {}
    forall r | r in s.rows && r.id in Ids(batch) ensures r in batch {}
  }

  lemma SendKeepsRoom(s: State, t: nat, accepted: bool)
    requires Room(s) && Enabled(s, Send(t, accepted))
    ensures Room(Step(s, Send(t, accepted)))
  {
    var unsent := s.flushers[t].unsent;
    var u := Step(s, Send(t, accepted));
    assert unsent[0].id in Ids(unsent) && forall r :: r in unsent[1..] ==> r in unsent;
    forall r | r in u.rows ensures r.sendCount + Wanting(u.flushers, r.id) <= MAX_SENDS {
      WantingUpdate(s.flushers, t, u.flushers[t], r.id);
    }
  }

  lemma RecordKeepsRoom(s: State, t: nat, recorded: bool, now: int)
    requires Orderly(s) && Room(s) && Enabled(s, Record(t, recorded, now))
    ensures Room(Step(s, Record(t, recorded, now)))
  {
    var recording := s.flushers[t].recording.value;
    var u := Step(s, Record(t, recorded, now));
    forall q | q in u.rows ensures q.sendCount + Wanting(u.flushers, q.id) <= MAX_SENDS {
      WantingUpdate(s.flushers, t, u.flushers[t], q.id);
      RecordedRow(s.rows, recording, recorded, now, q);
    }
  }

  // ---------- The promise ----------

  /** A row has failed if and only if it was refused exactly MAX_SENDS times, and none was refused more. */
  ghost predicate FifthIsLast(s: State) {
    forall r :: r in s.rows ==> r.sendCount <= MAX_SENDS && (r.status == Failed <==> r.sendCount == MAX_SENDS)
  }

  /** However the flushes under way end, that will hold. */
  ghost predicate WillStop(s: State) {
    forall es :: IsRun(s, es) && NoLoads(es) ==> FifthIsLast(Run(s, es))
  }

  lemma {:induction false} RoomStops(s: State, es: seq<Event>)
    requires Orderly(s) && Room(s) && IsRun(s, es) && NoLoads(es)
    ensures FifthIsLast(Run(s, es))
    decreases |es|
  {
    if es != [] {
      assert es[0] in es && forall e :: e in es[1..] ==> e in es;
      StepKeepsRoomIff(s, es[0]);
      StepKeepsOrderly(s, es[0]);
      RoomStops(Step(s, es[0]), es[1..]);
    }
  }

  /** A flush can go on until it has recorded the refusal of a given row, and of no other. */
  lemma {:induction false} Refuse(s: State, t: nat, id: nat) returns (es: seq<Event>)
    requires Orderly(s) && t < |s.flushers| && Wants(s.flushers[t], id)
    ensures IsRun(s, es) && NoLoads(es)
    ensures var u := Run(s, es);
            && Orderly(u) && u.rows == MarkFailed(s.rows, id, 0)
            && |u.flushers| == |s.flushers| && forall v :: 0 <= v < |s.flushers| && v != t ==>
                 u.flushers[v] == s.flushers[v]
    decreases |s.flushers[t].unsent|, if s.flushers[t].recording.Some? then 1 else 0
  {
    var f := s.flushers[t];
    if f.recording.Some? && !f.recording.value.accepted {
      es := FollowedBy(s, Record(t, true, 0), []);
    } else {
      var e := if f.recording.Some? then Record(t, false, 0) else Send(t, f.unsent[0].id != id);
      StepKeepsOrderly(s, e);
      var rest := Refuse(Step(s, e), t, id);
      es := FollowedBy(s, e, rest);
    }
  }

  lemma FollowedBy(s: State, e: Event, rest: seq<Event>) returns (es: seq<Event>)
    requires Orderly(s) && Enabled(s, e) && !e.Load? && IsRun(Step(s, e), rest) && NoLoads(rest)
    ensures IsRun(s, es) && NoLoads(es) && Run(s, es) == Run(Step(s, e), rest)
    ensures Orderly(Step(s, e))
  {
    RunCons(s, e, rest);
    StepKeepsOrderly(s, e);
    es := [e] + rest;
  }

  /** All of the first n flushes can. */
  lemma {:induction false} RefuseAll(s: State, n: nat, r: Row) returns (es: seq<Event>, q: Row)
    requires Orderly(s) && n <= |s.flushers| && r in s.rows
    ensures IsRun(s, es) && NoLoads(es)
    ensures var u := Run(s, es);
            && Orderly(u) && q in u.rows && q.id == r.id && q.sendCount == r.sendCount + Wanting(s.flushers[..n], r.id)
            && |u.flushers| == |s.flushers| && u.flushers[n..] == s.flushers[n..]
  {
    if n == 0 {
      es, q := [], r;
    } else {
      es, q := RefuseAll(s, n - 1, r);
      var u := Run(s, es);
      assert u.flushers[n - 1] == u.flushers[n - 1..][0] == s.flushers[n - 1..][0];
      assert s.flushers[..n][..n - 1] == s.flushers[..n - 1];
      assert u.flushers[n..] == u.flushers[n - 1..][1..] == s.flushers[n..];
      if Wants(u.flushers[n - 1], r.id) {
        var fs := Refuse(u, n - 1, r.id);
        RunAppend(s, es, fs);
        MarkFailedMember(u.rows, r.id, 0, AfterFailure(q, 0));
        es, q := es + fs, AfterFailure(q, 0);
      }
    }
  }

  lemma WillStopIff(s: State)
    requires Orderly(s)
    ensures WillStop(s) <==> Room(s)
  {
    if Room(s) {
      forall es | IsRun(s, es) && NoLoads(es) ensures FifthIsLast(Run(s, es)) { RoomStops(s, es); }
    } else {
      var r :| r in s.rows && r.sendCount + Wanting(s.flushers, r.id) > MAX_SENDS;
      assert s.flushers[..|s.flushers|] == s.flushers;
      var es, q := RefuseAll(s, |s.flushers|, r);
    }
  }

  ghost predicate AlwaysStops(s: State, es: seq<Event>)
    requires IsRun(s, es)
    decreases |es|
  {
    WillStop(s) && (es != [] ==> AlwaysStops(Step(s, es[0]), es[1..]))
  }

  ghost predicate AllLoadsWithRoom(s: State, es: seq<Event>)
    requires IsRun(s, es)
    decreases |es|
  {
    es != [] ==> LoadsWithRoom(s, es[0]) && AllLoadsWithRoom(Step(s, es[0]), es[1..])
  }

  /** Over every interleaving of flushes, caching and clearing: at no point can the flushes under way end
      with a row refused more often than MAX_SENDS times if and only if every query only answered with
      rows whose refusals, with those that other flushes may still record, leave room for one more. */
  lemma {:induction false} FifthIsLastIff(s: State, es: seq<Event>)
    requires Orderly(s) && Room(s) && IsRun(s, es)
    ensures AlwaysStops(s, es) <==> AllLoadsWithRoom(s, es)
    decreases |es|
  {
    WillStopIff(s);
    if es != [] {
      var u := Step(s, es[0]);
      StepKeepsOrderly(s, es[0]);
      StepKeepsRoomIff(s, es[0]);
      if LoadsWithRoom(s, es[0]) {
        FifthIsLastIff(u, es[1..]);
      } else {
        WillStopIff(u);
      }
    }
  }

  /** Every run starts like this. */
  lemma StartHasRoom(rows: Table, nextId: nat, flushers: nat)
    requires DistinctIds(rows) && IdsBelow(rows, nextId)
    requires forall r :: r in rows ==> r.sendCount <= MAX_SENDS && (r.status == Failed <==> r.sendCount == MAX_SENDS)
    ensures Orderly(Start(rows, nextId, flushers)) && Room(Start(rows, nextId, flushers))
  {
    var s := Start(rows, nextId, flushers);
    forall id ensures Wanting(s.flushers, id) == 0 { NobodyWants(s.flushers, id); }
  }
}
