/**
  What flushes still guarantee however they overlap: no pending row is forgotten.  Rows may be delivered
  more than once, or refused more often than need be, but in the end each has been accepted or given up.
 */
module OfflineSettling {
  import opened OfflineStore
  import opened OfflineFlush
  import opened OfflineEviction
  import opened OfflineInterleaving
  import opened Wrappers

  ghost predicate AllFlushing(s: State, es: seq<Event>)
    requires IsRun(s, es)
    decreases |es|
  {
    es != [] ==> IsFlushing(s, es[0]) && AllFlushing(Step(s, es[0]), es[1..])
  }

  // ---------- Every row is accounted for ----------

  predicate Accepting(f: Flusher, id: nat) {
    f.recording.Some? && f.recording.value.accepted && f.recording.value.row.id == id
  }

  ghost predicate SomeAccepting(fs: seq<Flusher>, id: nat) {
    exists t :: 0 <= t < |fs| && Accepting(fs[t], id)
  }

  /** The row is in the table or was accepted; if both, its DELETE is still to come. */
  ghost predicate Accounted(s: State, id: nat) {
    && (id in Ids(s.rows) || id in Ids(s.log))
    && (id in Ids(s.rows) && id in Ids(s.log) ==> SomeAccepting(s.flushers, id))
  }

  ghost predicate Sound(s: State, watched: set<nat>) {
    && DistinctIds(s.rows) && InBudget(s.rows)
    && (forall r :: r in s.rows && r.id in watched && r.status == Failed ==> r.sendCount >= MAX_SENDS)
    && (forall t :: 0 <= t < |s.flushers| && s.flushers[t].recording.Some? && s.flushers[t].recording.value.accepted ==>
          s.flushers[t].recording.value.row.id in Ids(s.log))
    && (forall id :: id in watched ==> Accounted(s, id))
  }

  lemma SendKeepsSound(s: State, t: nat, accepted: bool, watched: set<nat>)
    requires Sound(s, watched) && Enabled(s, Send(t, accepted))
    ensures Sound(Step(s, Send(t, accepted)), watched)
  {
    var w := Step(s, Send(t, accepted));
    var r := s.flushers[t].unsent[0];
    assert accepted ==> Ids(w.log) == Ids(s.log) + {r.id};
    forall id | id in watched ensures Accounted(w, id) {
      assert Accounted(s, id);
      if id in Ids(s.rows) && id in Ids(s.log) {
        var u :| 0 <= u < |s.flushers| && Accepting(s.flushers[u], id);
        assert w.flushers[u] == s.flushers[u];
      }
      if accepted && id == r.id { assert Accepting(w.flushers[t], id); }
    }
  }

  lemma MarkedIds(rows: Table, id: nat, now: int)
    ensures Ids(MarkFailed(rows, id, now)) == Ids(rows)
  {
    MarkFailedIds(rows, id, now);
    var u := MarkFailed(rows, id, now);
    forall x ensures x in Ids(u) <==> x in Ids(rows) {
      if x in Ids(rows) {
        var i :| 0 <= i < |rows| && rows[i].id == x;
        assert u[i].id == x && u[i] in u;
      }
      if x in Ids(u) {
        var i :| 0 <= i < |u| && u[i].id == x;
        assert rows[i] in rows;
      }
    }
  }

  /** What recording an answer does to the rows. */
  lemma RecordedRows(rows: Table, r: Recording, now: int, watched: set<nat>)
    requires DistinctIds(rows) && InBudget(rows)
    requires forall q :: q in rows && q.id in watched && q.status == Failed ==> q.sendCount >= MAX_SENDS
    ensures var u := AfterRecord(rows, r, true, now);
            && DistinctIds(u) && InBudget(u)
            && Ids(u) == (if r.accepted then Ids(rows) - {r.row.id} else Ids(rows))
            && forall q :: q in u && q.id in watched && q.status == Failed ==> q.sendCount >= MAX_SENDS
  {
    var u := AfterRecord(rows, r, true, now);
    DeleteIds(rows, {r.row.id});
    MarkKeepsIds(rows, r.row.id, now);
    MarkedIds(rows, r.row.id, now);
    forall q | q in u
      ensures q.status == Pending ==> q.sendCount < MAX_SENDS
      ensures q.id in watched && q.status == Failed ==> q.sendCount >= MAX_SENDS
    {
      DeleteMember(rows, {r.row.id}, q);
      MarkFailedMember(rows, r.row.id, now, q);
    }
  }

  lemma RecordKeepsSound(s: State, t: nat, now: int, watched: set<nat>)
    requires Sound(s, watched) && Enabled(s, Record(t, true, now))
    ensures Sound(Step(s, Record(t, true, now)), watched)
  {
    var w := Step(s, Record(t, true, now));
    var r := s.flushers[t].recording.value;
    RecordedRows(s.rows, r, now, watched);
    forall id | id in watched ensures Accounted(w, id) {
      assert Accounted(s, id);
      if id in Ids(w.rows) && id in Ids(w.log) {
        var u :| 0 <= u < |s.flushers| && Accepting(s.flushers[u], id);
        assert w.flushers[u] == s.flushers[u];
      }
    }
  }

  lemma LoadKeepsSound(s: State, t: nat, batch: Table, watched: set<nat>)
    requires Sound(s, watched) && Enabled(s, Load(t, batch))
    ensures Sound(Step(s, Load(t, batch)), watched)
  {
    var w := Step(s, Load(t, batch));
    forall id | id in watched ensures Accounted(w, id) {
      assert Accounted(s, id);
      if id in Ids(s.rows) && id in Ids(s.log) {
        var u :| 0 <= u < |s.flushers| && Accepting(s.flushers[u], id);
        assert w.flushers[u] == s.flushers[u];
      }
    }
  }

  lemma StepKeepsSound(s: State, e: Event, watched: set<nat>)
    requires Sound(s, watched) && Enabled(s, e) && IsFlushing(s, e)
    ensures Sound(Step(s, e), watched)
  {
    match e
    case Load(t, batch) => LoadKeepsSound(s, t, batch, watched);
    case Send(t, accepted) => SendKeepsSound(s, t, accepted, watched);
    case Record(t, _, now) => RecordKeepsSound(s, t, now, watched);
  }

  // ---------- Progress: every flush sees the retry budget fall ----------

  /** The row whose answer the flush records next. */
  function Head(f: Flusher): Option<Row> {
    if f.recording.Some? then Some(f.recording.value.row) else if f.unsent != [] then Some(f.unsent[0]) else None
  }

  /** That row is still pending, so recording its answer will take from the budget. */
  ghost predicate Armed(rows: Table, f: Flusher) {
    Head(f).Some? && Waiting(rows, Head(f).value.id)
  }

  ghost function ArmedCount(rows: Table, fs: seq<Flusher>): nat {
    if fs == [] then 0 else ArmedCount(rows, fs[..|fs| - 1]) + if Armed(rows, fs[|fs| - 1]) then 1 else 0
  }

  lemma {:induction false} ArmedUpdate(rows: Table, fs: seq<Flusher>, t: nat, f: Flusher)
    requires t < |fs|
    ensures ArmedCount(rows, fs[t := f]) + (if Armed(rows, fs[t]) then 1 else 0)
         == ArmedCount(rows, fs) + if Armed(rows, f) then 1 else 0
  {
    var n := |fs| - 1;
    if t < n {
      ArmedUpdate(rows, fs[..n], t, f);
      assert fs[t := f][..n] == fs[..n][t := f];
    } else {
      assert fs[t := f][..n] == fs[..n];
    }
  }

  lemma {:induction false} ArmedSame(rows: Table, after: Table, fs: seq<Flusher>)
    requires forall id :: Waiting(after, id) <==> Waiting(rows, id)
    ensures ArmedCount(after, fs) == ArmedCount(rows, fs)
  {
    if fs != [] { ArmedSame(rows, after, fs[..|fs| - 1]); }
  }

  lemma {:induction false} ArmedBound(rows: Table, fs: seq<Flusher>)
    ensures ArmedCount(rows, fs) <= |fs|
  {
    if fs != [] { ArmedBound(rows, fs[..|fs| - 1]); }
  }

  lemma {:induction false} IdleUnarmed(rows: Table, fs: seq<Flusher>)
    requires forall t :: 0 <= t < |fs| ==> fs[t] == IDLE
    ensures ArmedCount(rows, fs) == 0
  {
    if fs != [] { IdleUnarmed(rows, fs[..|fs| - 1]); }
  }

  lemma WaitingAfter(rows: Table, r: Recording, now: int, id: nat)
    ensures Waiting(AfterRecord(rows, r, true, now), id) ==> Waiting(rows, id)
    ensures !Waiting(rows, r.row.id) && Waiting(rows, id) ==> Waiting(AfterRecord(rows, r, true, now), id)
  {
    var u := AfterRecord(rows, r, true, now);
    if q :| q in u && q.id == id && q.status == Pending {
      DeleteMember(rows, {r.row.id}, q);
      MarkFailedMember(rows, r.row.id, now, q);
    }
    if q :| q in rows && q.id == id && q.status == Pending {
      DeleteMember(rows, {r.row.id}, q);
      MarkFailedMember(rows, r.row.id, now, q);
    }
  }

  lemma {:induction false} BudgetSame(rows: Table, id: nat, now: int)
    requires !Waiting(rows, id)
    ensures Budget(Delete(rows, {id})) == Budget(rows) && Budget(MarkFailed(rows, id, now)) == Budget(rows)
  {
    if rows != [] {
      var first, rest := rows[0], rows[1..];
      assert rows == [first] + rest;
      assert !Waiting(rest, id) by {
        forall q | q in rest ensures q in rows {}
      }
      BudgetSame(rest, id, now);
      assert first in rows;
      BudgetCons(first, Delete(rest, {id}));
      BudgetCons(if first.id == id then AfterFailure(first, now) else first, MarkFailed(rest, id, now));
      assert [] + Delete(rest, {id}) == Delete(rest, {id});
    }
  }

  lemma BudgetCons(first: Row, rest: Table)
    ensures Budget([first] + rest)
                == (if first.status == Pending then MAX_SENDS - first.sendCount else 0) + Budget(rest)
  {
    assert ([first] + rest)[1..] == rest;
  }

  lemma BudgetFalls(rows: Table, r: Recording, now: int)
    requires DistinctIds(rows) && InBudget(rows) && Waiting(rows, r.row.id)
    ensures Budget(AfterRecord(rows, r, true, now)) < Budget(rows)
  {
    var p :| p in rows && p.id == r.row.id && p.status == Pending;
    BudgetDelete(rows, p);
    BudgetMark(rows, p, now);
  }

  /** k * n for n >= 0, in steps of k. */
  function Scaled(k: nat, n: int): nat {
    if n <= 0 then 0 else Scaled(k, n - 1) + k
  }

  lemma {:induction false} ScaledGrows(k: nat, a: int, b: int)
    ensures a <= b ==> Scaled(k, a) <= Scaled(k, b)
    ensures a < b && 1 <= b ==> Scaled(k, a) + k <= Scaled(k, b)
    decreases b
  {
    if 1 <= b { ScaledGrows(k, a, b - 1); }
  }

  lemma {:induction false} ScaledIs(k: nat, n: nat)
    ensures Scaled(k, n) == k * n
  {
    if n > 0 { ScaledIs(k, n - 1); }
  }

  /** The load of a flush is paid for by the budget that falls before it ends. */
  ghost predicate Pays(s: State, e: Event)
    requires Enabled(s, e)
  {
    var w := Step(s, e);
    (if e.Load? then 1 else 0) + ArmedCount(s.rows, s.flushers) + Scaled(|s.flushers|, Budget(w.rows))
      <= ArmedCount(w.rows, w.flushers) + Scaled(|s.flushers|, Budget(s.rows))
  }

  lemma LoadFinds(rows: Table, batch: Table)
    requires DistinctIds(rows) && IsBatch(rows, FLUSH_BATCH, batch) && PendingOf(rows) != []
    ensures batch != [] && Waiting(rows, batch[0].id)
  {
    var order :| IsOrdering(rows, order) && batch == Limit(order, FLUSH_BATCH);
    SameRows(order, PendingOf(rows));
    assert |order| > 0;
    BatchRows(rows, batch);
    assert batch[0] in batch;
  }

  lemma LoadPays(s: State, t: nat, batch: Table)
    requires DistinctIds(s.rows) && Enabled(s, Load(t, batch)) && IsFlushing(s, Load(t, batch))
    requires PendingOf(s.rows) != []
    ensures Pays(s, Load(t, batch))
  {
    LoadFinds(s.rows, batch);
    ArmedUpdate(s.rows, s.flushers, t, Flusher(batch, None));
    assert !Armed(s.rows, s.flushers[t]) && Armed(s.rows, Flusher(batch, None));
  }

  lemma SendPays(s: State, t: nat, accepted: bool)
    requires Enabled(s, Send(t, accepted))
    ensures Pays(s, Send(t, accepted))
  {
    ArmedUpdate(s.rows, s.flushers, t, Step(s, Send(t, accepted)).flushers[t]);
  }

  lemma ArmedRecordPays(s: State, t: nat, now: int)
    requires DistinctIds(s.rows) && InBudget(s.rows) && Enabled(s, Record(t, true, now))
    requires Waiting(s.rows, s.flushers[t].recording.value.row.id)
    ensures Pays(s, Record(t, true, now))
  {
    var r := s.flushers[t].recording.value;
    BudgetFalls(s.rows, r, now);
    var p :| p in s.rows && p.id == r.row.id && p.status == Pending;
    PendingMember(s.rows, p);
    BudgetBounds(s.rows);
    ArmedBound(s.rows, s.flushers);
    ScaledGrows(|s.flushers|, Budget(AfterRecord(s.rows, r, true, now)), Budget(s.rows));
  }

  lemma UnarmedRecordPays(s: State, t: nat, now: int)
    requires Enabled(s, Record(t, true, now)) && !Waiting(s.rows, s.flushers[t].recording.value.row.id)
    ensures Pays(s, Record(t, true, now))
  {
    var r, f := s.flushers[t].recording.value, s.flushers[t].(recording := None);
    var rows := AfterRecord(s.rows, r, true, now);
    BudgetSame(s.rows, r.row.id, now);
    forall id ensures Waiting(rows, id) <==> Waiting(s.rows, id) { WaitingAfter(s.rows, r, now, id); }
    ArmedSame(s.rows, rows, s.flushers);
    ArmedUpdate(rows, s.flushers, t, f);
  }

  lemma StepPays(s: State, e: Event)
    requires DistinctIds(s.rows) && InBudget(s.rows) && Enabled(s, e) && IsFlushing(s, e) && PendingOf(s.rows) != []
    ensures Pays(s, e)
  {
    match e
    case Load(t, batch) => LoadPays(s, t, batch);
    case Send(t, accepted) => SendPays(s, t, accepted);
    case Record(t, _, now) =>
      if Waiting(s.rows, s.flushers[t].recording.value.row.id) {
        ArmedRecordPays(s, t, now);
      } else {
        UnarmedRecordPays(s, t, now);
      }
  }

  lemma NothingBecomesPending(s: State, e: Event)
    requires Enabled(s, e) && IsFlushing(s, e) && PendingOf(s.rows) == []
    ensures PendingOf(Step(s, e).rows) == []
  {
    var w := Step(s, e);
    if PendingOf(w.rows) != [] {
      var q := PendingOf(w.rows)[0];
      PendingMember(w.rows, q);
      if e.Record? { WaitingAfter(s.rows, s.flushers[e.t].recording.value, e.now, q.id); }
      assert Waiting(s.rows, q.id);
      var p :| p in s.rows && p.id == q.id && p.status == Pending;
      PendingMember(s.rows, p);
    }
  }

  lemma {:induction false} RunPays(s: State, es: seq<Event>, watched: set<nat>)
    requires Sound(s, watched) && IsRun(s, es) && AllFlushing(s, es)
    ensures Sound(Run(s, es), watched) && |Run(s, es).flushers| == |s.flushers|
    ensures var u := Run(s, es);
            PendingOf(u.rows) == [] ||
            (PendingOf(s.rows) != [] &&
             Loads(es) + ArmedCount(s.rows, s.flushers) + Scaled(|s.flushers|, Budget(u.rows))
               <= ArmedCount(u.rows, u.flushers) + Scaled(|s.flushers|, Budget(s.rows)))
    decreases |es|
  {
    if es != [] {
      var w, u := Step(s, es[0]), Run(s, es);
      StepKeepsSound(s, es[0], watched);
      RunPays(w, es[1..], watched);
      if PendingOf(s.rows) == [] {
        NothingBecomesPending(s, es[0]);
      } else if PendingOf(u.rows) != [] {
        StepPays(s, es[0]);
      }
    }
  }

  /** The row was accepted, and is gone, or never was, and has been given up. */
  ghost predicate Ended(s: State, id: nat) {
    if id in Ids(s.log) then id !in Ids(s.rows)
    else exists r :: r in s.rows && r.id == id && r.status == Failed && r.sendCount >= MAX_SENDS
  }

  lemma StartIsSound(rows: Table, nextId: nat, flushers: nat)
    requires DistinctIds(rows) && forall r :: r in rows && r.status == Pending ==> r.sendCount == 0
    ensures Sound(Start(rows, nextId, flushers), Ids(PendingOf(rows)))
    ensures ArmedCount(rows, Start(rows, nextId, flushers).flushers) == 0
    ensures Budget(rows) <= MAX_SENDS * |PendingOf(rows)|
  {
    var s := Start(rows, nextId, flushers);
    forall r ensures r in PendingOf(rows) <==> r in rows && r.status == Pending { PendingMember(rows, r); }
    forall r | r in rows && r.id in Ids(PendingOf(rows)) ensures r.status == Pending {
      var q :| q in PendingOf(rows) && q.id == r.id;
      assert q == r;
    }
    IdleUnarmed(rows, s.flushers);
    BudgetBounds(rows);
  }

  /** When all flushes are through, enough queries leave nothing pending. */
  lemma RunEmpties(s: State, es: seq<Event>, watched: set<nat>, most: nat)
    requires Sound(s, watched) && IsRun(s, es) && AllFlushing(s, es) && AllIdle(Run(s, es))
    requires |s.flushers| > 0 && Budget(s.rows) <= most && Loads(es) >= Scaled(|s.flushers|, most)
    ensures PendingOf(Run(s, es).rows) == [] && Sound(Run(s, es), watched)
  {
    RunPays(s, es, watched);
    var u := Run(s, es);
    if PendingOf(u.rows) != [] {
      IdleUnarmed(u.rows, u.flushers);
      BudgetBounds(u.rows);
      ScaledGrows(|s.flushers|, Budget(s.rows), most);
      ScaledGrows(|s.flushers|, 0, Budget(u.rows));
    }
  }

  lemma AccountedEnds(u: State, watched: set<nat>, id: nat)
    requires Sound(u, watched) && id in watched && AllIdle(u) && PendingOf(u.rows) == []
    ensures Ended(u, id)
  {
    assert Accounted(u, id);
    if id !in Ids(u.log) {
      var r :| r in u.rows && r.id == id;
      PendingMember(u.rows, r);
    }
  }

  /** However k flushes overlap, and whatever the sender answers: once they have made 5kn queries and are
      through, none of n fresh pending rows is pending any more; each has been accepted at least once and
      is gone, or never was accepted and is kept as failed. */
  lemma OverlappingFlushesSettle(rows: Table, nextId: nat, k: nat, es: seq<Event>)
    requires k > 0 && DistinctIds(rows) && forall r :: r in rows && r.status == Pending ==> r.sendCount == 0
    requires var s := Start(rows, nextId, k); IsRun(s, es) && AllFlushing(s, es) && AllIdle(Run(s, es))
    requires Loads(es) >= k * (MAX_SENDS * |PendingOf(rows)|)
    ensures var u := Run(Start(rows, nextId, k), es);
            PendingOf(u.rows) == [] && forall r :: r in rows && r.status == Pending ==> Ended(u, r.id)
  {
    var s, watched := Start(rows, nextId, k), Ids(PendingOf(rows));
    StartIsSound(rows, nextId, k);
    ScaledIs(k, MAX_SENDS * |PendingOf(rows)|);
    RunEmpties(s, es, watched, MAX_SENDS * |PendingOf(rows)|);
    forall r | r in rows && r.status == Pending ensures Ended(Run(s, es), r.id) {
      PendingMember(rows, r);
      AccountedEnds(Run(s, es), watched, r.id);
    }
  }
}
