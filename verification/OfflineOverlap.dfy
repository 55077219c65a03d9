/**
  What flushes guarantee as long as no query answers with a row that another flush is busy with: every row
  is settled, and delivery is in order.  Flushes one after the other are like that; flushes that overlap
  are only if the table holds enough ties (OverlapTakesTies), and for the others there is module
  OfflineSettling.  The proofs look through the interleaving: a row takes effect when its send is accepted,
  or when its refusal is recorded.
 */
module OfflineOverlap {
  import opened OfflineStore
  import opened OfflineFlush
  import opened OfflineEviction
  import opened OfflineInterleaving
  import opened Wrappers

  // ---------- Runs of flushes only ----------

  /** The flush is busy with the row: it holds it, or has sent it and not recorded the answer. */
  predicate Claims(s: State, t: nat, id: nat) {
    t < |s.flushers| &&
    (id in Ids(s.flushers[t].unsent) || (s.flushers[t].recording.Some? && s.flushers[t].recording.value.row.id == id))
  }

  /** Only flushes are at work, their statements succeed, and no query answers with a claimed row. */
  ghost predicate Undisturbed(s: State, e: Event) {
    IsFlushing(s, e) && (e.Load? ==> forall r, u :: r in e.batch ==> !Claims(s, u, r.id))
  }

  ghost predicate AllUndisturbed(s: State, es: seq<Event>)
    requires IsRun(s, es)
    decreases |es|
  {
    es != [] ==> Undisturbed(s, es[0]) && AllUndisturbed(Step(s, es[0]), es[1..])
  }

  // ---------- The table as if accepted rows were gone already ----------

  predicate Accepts(f: Flusher) {
    f.recording.Some? && f.recording.value.accepted
  }

  predicate Refuses(f: Flusher) {
    f.recording.Some? && !f.recording.value.accepted
  }

  function AcceptedIds(fs: seq<Flusher>): set<nat> {
    set t | 0 <= t < |fs| && Accepts(fs[t]) :: fs[t].recording.value.row.id
  }

  function View(s: State): Store {
    Store(Delete(s.rows, AcceptedIds(s.flushers)), s.log)
  }

  /** A row that is still to be sent or refused is a pending row of that table. */
  ghost predicate InHand(u: Store, r: Row) {
    r in u.rows && r.status == Pending
  }

  ghost predicate Consistent(s: State) {
    && DistinctIds(s.rows)
    && (forall t, r :: 0 <= t < |s.flushers| && r in s.flushers[t].unsent ==> InHand(View(s), r))
    && (forall t :: 0 <= t < |s.flushers| && Refuses(s.flushers[t]) ==>
          InHand(View(s), s.flushers[t].recording.value.row))
    && (forall t :: 0 <= t < |s.flushers| ==> DistinctIds(s.flushers[t].unsent))
    && (forall t, r :: 0 <= t < |s.flushers| && r in s.flushers[t].unsent && s.flushers[t].recording.Some? ==>
          s.flushers[t].recording.value.row.id != r.id)
    && (forall t, u, id :: Claims(s, t, id) && Claims(s, u, id) ==> t == u)
  }

  /** What a step does to that table. */
  function Effect(s: State, e: Event): Store
    requires Enabled(s, e)
  {
    match e
    case Send(t, true) => Settle(View(s), s.flushers[t].unsent[0], Accepted(true))
    case Record(t, _, now) =>
      if Refuses(s.flushers[t]) then Settle(View(s), s.flushers[t].recording.value.row, Refused(true, now)) else View(s)
    case _ => View(s)
  }

  predicate IsSettling(s: State, e: Event)
    requires Enabled(s, e)
  {
    match e
    case Send(_, accepted) => accepted
    case Record(t, _, _) => Refuses(s.flushers[t])
    case _ => false
  }

  /** The row a settling step settles. */
  function SettledRow(s: State, e: Event): Row
    requires Enabled(s, e) && IsSettling(s, e)
  {
    if e.Send? then s.flushers[e.t].unsent[0] else s.flushers[e.t].recording.value.row
  }

  lemma AcceptedIdsUpdate(fs: seq<Flusher>, t: nat, f: Flusher)
    requires t < |fs| && !Accepts(fs[t])
    ensures AcceptedIds(fs[t := f]) == AcceptedIds(fs) + if Accepts(f) then {f.recording.value.row.id} else {}
  {
    var gs := fs[t := f];
    forall id ensures id in AcceptedIds(gs) <==>
                          id in AcceptedIds(fs) || (Accepts(f) && id == f.recording.value.row.id) {
      if id in AcceptedIds(fs) {
        var u :| 0 <= u < |fs| && Accepts(fs[u]) && fs[u].recording.value.row.id == id;
        assert gs[u] == fs[u];
      }
      if Accepts(f) { assert gs[t] == f; }
    }
  }

  lemma AcceptedIdsRecorded(fs: seq<Flusher>, t: nat, f: Flusher)
    requires t < |fs| && Accepts(fs[t]) && !Accepts(f)
    requires forall u :: 0 <= u < |fs| && Accepts(fs[u]) && u != t ==>
                   fs[u].recording.value.row.id != fs[t].recording.value.row.id
    ensures AcceptedIds(fs[t := f]) == AcceptedIds(fs) - {fs[t].recording.value.row.id}
    ensures fs[t].recording.value.row.id in AcceptedIds(fs)
  {
    var gs := fs[t := f];
    forall id ensures id in AcceptedIds(gs) <==> id in AcceptedIds(fs) && id != fs[t].recording.value.row.id {
      if id in AcceptedIds(fs) && id != fs[t].recording.value.row.id {
        var u :| 0 <= u < |fs| && Accepts(fs[u]) && fs[u].recording.value.row.id == id;
        assert gs[u] == fs[u];
      }
    }
  }

  lemma {:induction false} DeleteMarkCommute(t: Table, ids: set<nat>, id: nat, now: int)
    ensures Delete(MarkFailed(t, id, now), ids) == MarkFailed(Delete(t, ids), id, now)
  {
    if t != [] {
      DeleteMarkCommute(t[1..], ids, id, now);
      var first := if t[0].id == id then AfterFailure(t[0], now) else t[0];
      var rest := MarkFailed(t[1..], id, now);
      assert MarkFailed(t, id, now) == [first] + rest && ([first] + rest)[1..] == rest;
      if t[0].id !in ids {
        assert ([t[0]] + Delete(t[1..], ids))[1..] == Delete(t[1..], ids);
      } else {
        assert [] + Delete(rest, ids) == Delete(rest, ids) && [] + Delete(t[1..], ids) == Delete(t[1..], ids);
      }
    }
  }

  /** Every step does to the table, seen so, what one settling of one row does, or nothing. */
  lemma StepIsEffect(s: State, e: Event)
    requires Consistent(s) && Enabled(s, e) && Undisturbed(s, e)
    ensures View(Step(s, e)) == Effect(s, e)
  {
    var u := Step(s, e);
    match e
    case Load(t, batch) =>
      AcceptedIdsUpdate(s.flushers, t, u.flushers[t]);
      assert AcceptedIds(s.flushers) + {} == AcceptedIds(s.flushers);
    case Send(t, accepted) =>
      assert AcceptedIds(s.flushers) + {} == AcceptedIds(s.flushers);
      AcceptedIdsUpdate(s.flushers, t, u.flushers[t]);
      DeleteTwice(s.rows, AcceptedIds(s.flushers), {s.flushers[t].unsent[0].id});
    case Record(t, _, now) => RecordIsEffect(s, t, now);
  }

  lemma RecordIsEffect(s: State, t: nat, now: int)
    requires Consistent(s) && Enabled(s, Record(t, true, now))
    ensures View(Step(s, Record(t, true, now))) == Effect(s, Record(t, true, now))
  {
    var u := Step(s, Record(t, true, now));
    var id, ids := s.flushers[t].recording.value.row.id, AcceptedIds(s.flushers);
    if Accepts(s.flushers[t]) {
      forall v | 0 <= v < |s.flushers| && Accepts(s.flushers[v]) && v != t
        ensures s.flushers[v].recording.value.row.id != id
      {
        assert Claims(s, v, s.flushers[v].recording.value.row.id) && Claims(s, t, id);
      }
      AcceptedIdsRecorded(s.flushers, t, u.flushers[t]);
      DeleteTwice(s.rows, {id}, ids - {id});
      assert {id} + (ids - {id}) == ids;
    } else {
      AcceptedIdsUpdate(s.flushers, t, u.flushers[t]);
      assert ids + {} == ids;
      DeleteMarkCommute(s.rows, ids, id, now);
    }
  }

  // ---------- Steps keep the rows in hand ----------

  lemma InHandStays(v: Store, r: Row, reply: Reply, q: Row)
    requires InHand(v, q) && q.id != r.id && Recorded(reply)
    ensures InHand(Settle(v, r, reply), q)
  {
    match reply
    case Accepted(_) => DeleteMember(v.rows, {r.id}, q);
    case Refused(_, now) => MarkFailedMember(v.rows, r.id, now, q);
  }

  lemma SettledIsClaimed(s: State, e: Event)
    requires Consistent(s) && Enabled(s, e) && IsSettling(s, e)
    ensures InHand(View(s), SettledRow(s, e)) && Claims(s, e.t, SettledRow(s, e).id)
    ensures Effect(s, e) == Settle(View(s), SettledRow(s, e), if e.Send? then Accepted(true) else Refused(true, e.now))
  {
    if e.Send? { assert s.flushers[e.t].unsent[0] in s.flushers[e.t].unsent; }
  }

  /** A row in somebody's hand that the step does not settle stays in hand. */
  lemma OthersStayInHand(s: State, e: Event, q: Row)
    requires Consistent(s) && Enabled(s, e) && Undisturbed(s, e) && InHand(View(s), q)
    requires IsSettling(s, e) ==> q.id != SettledRow(s, e).id
    ensures InHand(View(Step(s, e)), q)
  {
    StepIsEffect(s, e);
    if IsSettling(s, e) {
      SettledIsClaimed(s, e);
      InHandStays(View(s), SettledRow(s, e), if e.Send? then Accepted(true) else Refused(true, e.now), q);
    }
  }

  /** The rows of the answer are pending, and nobody has sent them. */
  lemma LoadedInHand(s: State, t: nat, batch: Table)
    requires Consistent(s) && Enabled(s, Load(t, batch)) && Undisturbed(s, Load(t, batch))
    ensures DistinctIds(batch) && forall r :: r in batch ==> InHand(View(s), r)
  {
    BatchRows(s.rows, batch);
    forall r | r in batch ensures InHand(View(s), r) {
      forall u | 0 <= u < |s.flushers| && Accepts(s.flushers[u]) ensures s.flushers[u].recording.value.row.id != r.id {
        assert !Claims(s, u, r.id);
      }
      DeleteMember(s.rows, AcceptedIds(s.flushers), r);
    }
  }

  lemma ClaimsShrink(s: State, e: Event, t: nat, id: nat)
    requires Enabled(s, e) && Claims(Step(s, e), t, id) && !(e.Load? && e.t == t)
    ensures Claims(s, t, id)
  {
    if e.Send? && e.t == t {
      var unsent := s.flushers[t].unsent;
      assert unsent[0] in unsent && forall r :: r in unsent[1..] ==> r in unsent;
    }
  }

  lemma ClaimsStayApart(s: State, e: Event)
    requires Consistent(s) && Enabled(s, e) && Undisturbed(s, e)
    ensures forall t, u, id :: Claims(Step(s, e), t, id) && Claims(Step(s, e), u, id) ==> t == u
  {
    var w := Step(s, e);
    forall t: nat, id | Claims(w, t, id) && !(e.Load? && e.t == t) ensures Claims(s, t, id) {
      ClaimsShrink(s, e, t, id);
    }
    if e.Load? {
      forall id | Claims(w, e.t, id) ensures forall u :: !Claims(s, u, id) {
        assert id in Ids(e.batch);
      }
    }
  }

  /** Every flusher's own rows stay distinct. */
  lemma OwnRowsDistinct(s: State, e: Event, t: nat)
    requires Consistent(s) && Enabled(s, e) && Undisturbed(s, e) && t < |s.flushers|
    ensures var f := Step(s, e).flushers[t];
            DistinctIds(f.unsent) && forall r :: r in f.unsent && f.recording.Some? ==> f.recording.value.row.id != r.id
  {
    if e.Load? && e.t == t {
      LoadedInHand(s, t, e.batch);
    } else if e.Send? && e.t == t {
      var unsent := s.flushers[t].unsent;
      assert forall r :: r in unsent[1..] ==> r in unsent && r.id != unsent[0].id;
    }
  }

  /** Every row of a flusher is in hand after the step. */
  lemma OwnRowsInHand(s: State, e: Event, t: nat)
    requires Consistent(s) && Enabled(s, e) && Undisturbed(s, e) && t < |s.flushers|
    ensures var w := Step(s, e); var f := w.flushers[t];
            && (forall r :: r in f.unsent ==> InHand(View(w), r))
            && (Refuses(f) ==> InHand(View(w), f.recording.value.row))
  {
    var w := Step(s, e);
    var f := w.flushers[t];
    if e.Load? && e.t == t {
      LoadedInHand(s, t, e.batch);
      StepIsEffect(s, e);
    } else {
      forall r | r in f.unsent ensures InHand(View(w), r) { OwnRowStays(s, e, t, r); }
      if Refuses(f) { OwnRowStays(s, e, t, f.recording.value.row); }
    }
  }

  lemma OwnRowStays(s: State, e: Event, t: nat, r: Row)
    requires Consistent(s) && Enabled(s, e) && Undisturbed(s, e) && t < |s.flushers| && !(e.Load? && e.t == t)
    requires var f := Step(s, e).flushers[t]; r in f.unsent || (Refuses(f) && r == f.recording.value.row)
    ensures InHand(View(Step(s, e)), r)
  {
    var f := s.flushers[t];
    if e.Send? && e.t == t {
      assert f.unsent[0] in f.unsent && forall q :: q in f.unsent[1..] ==> q in f.unsent && q.id != f.unsent[0].id;
    }
    assert InHand(View(s), r) && Claims(s, t, r.id);
    if IsSettling(s, e) {
      SettledIsClaimed(s, e);
      if e.t != t { assert SettledRow(s, e).id != r.id; }
    }
    OthersStayInHand(s, e, r);
  }

  lemma StepKeepsConsistent(s: State, e: Event)
    requires Consistent(s) && Enabled(s, e) && Undisturbed(s, e)
    ensures Consistent(Step(s, e))
  {
    var w := Step(s, e);
    ClaimsStayApart(s, e);
    forall t | 0 <= t < |w.flushers|
      ensures DistinctIds(w.flushers[t].unsent)
      ensures forall r :: r in w.flushers[t].unsent ==> InHand(View(w), r)
      ensures Refuses(w.flushers[t]) ==> InHand(View(w), w.flushers[t].recording.value.row)
      ensures forall r :: r in w.flushers[t].unsent && w.flushers[t].recording.Some? ==>
                      w.flushers[t].recording.value.row.id != r.id
    {
      OwnRowsDistinct(s, e, t);
      OwnRowsInHand(s, e, t);
    }
    if e.Record? {
      DeleteIds(s.rows, {s.flushers[e.t].recording.value.row.id});
      MarkKeepsIds(s.rows, s.flushers[e.t].recording.value.row.id, e.now);
    }
  }

  // ---------- Every row settles ----------

  /** A settling step keeps every watched row's fate lawful and uses up the retry budget. */
  lemma StepKeepsSteady(s: State, e: Event, watched: set<nat>)
    requires Consistent(s) && Steady(View(s), watched) && Enabled(s, e) && Undisturbed(s, e)
    ensures Steady(View(Step(s, e)), watched)
    ensures Budget(View(Step(s, e)).rows) <= Budget(View(s).rows) - if IsSettling(s, e) then 1 else 0
  {
    StepIsEffect(s, e);
    if IsSettling(s, e) {
      SettledIsClaimed(s, e);
      var r := SettledRow(s, e);
      if e.Send? {
        DeliveryKeepsSteady(View(s), r, watched);
        BudgetDelete(View(s).rows, r);
      } else {
        RefusalKeepsSteady(View(s), r, e.now, watched);
        BudgetMark(View(s).rows, r, e.now);
      }
    }
  }

  ghost predicate NonePending(s: State) {
    PendingOf(View(s).rows) == []
  }

  lemma NonePendingMeans(s: State)
    ensures NonePending(s) <==> forall r :: !InHand(View(s), r)
  {
    forall r ensures r in PendingOf(View(s).rows) <==> InHand(View(s), r) { PendingMember(View(s).rows, r); }
    if !NonePending(s) { assert PendingOf(View(s).rows)[0] in PendingOf(View(s).rows); }
  }

  lemma NonePendingStays(s: State, e: Event)
    requires Consistent(s) && Enabled(s, e) && Undisturbed(s, e) && NonePending(s)
    ensures NonePending(Step(s, e))
  {
    StepIsEffect(s, e);
    NonePendingMeans(s);
    if IsSettling(s, e) { SettledIsClaimed(s, e); }
  }

  /** A flush is busy from a query that found something until it has settled its last row. */
  predicate IsBusy(f: Flusher) {
    f.unsent != [] || Refuses(f)
  }

  function Busy(fs: seq<Flusher>): nat {
    if fs == [] then 0 else (if IsBusy(fs[0]) then 1 else 0) + Busy(fs[1..])
  }

  lemma {:induction false} BusyUpdate(fs: seq<Flusher>, t: nat, f: Flusher)
    requires t < |fs|
    ensures Busy(fs[t := f]) + (if IsBusy(fs[t]) then 1 else 0) == Busy(fs) + if IsBusy(f) then 1 else 0
  {
    if t == 0 {
      assert fs[t := f][1..] == fs[1..];
    } else {
      BusyUpdate(fs[1..], t - 1, f);
      assert fs[t := f][1..] == fs[1..][t - 1 := f];
    }
  }

  lemma LoadFindsPending(s: State, t: nat, batch: Table)
    requires Consistent(s) && Enabled(s, Load(t, batch)) && Undisturbed(s, Load(t, batch)) && !NonePending(s)
    ensures batch != []
  {
    NonePendingMeans(s);
    var r :| InHand(View(s), r);
    DeleteMember(s.rows, AcceptedIds(s.flushers), r);
    PendingMember(s.rows, r);
    var order :| IsOrdering(s.rows, order) && batch == Limit(order, FLUSH_BATCH);
    SameRows(order, PendingOf(s.rows));
  }

  /** Every query that finds something makes a flush busy, and only settling a row ends that. */
  lemma StepIsProgress(s: State, e: Event)
    requires Consistent(s) && Enabled(s, e) && Undisturbed(s, e) && !NonePending(s)
    ensures Busy(s.flushers) + (if e.Load? then 1 else 0)
         <= Busy(Step(s, e).flushers) + if IsSettling(s, e) then 1 else 0
  {
    BusyUpdate(s.flushers, e.t, Step(s, e).flushers[e.t]);
    if e.Load? { LoadFindsPending(s, e.t, e.batch); }
  }

  lemma {:induction false} RunSettles(s: State, es: seq<Event>, watched: set<nat>) returns (settlings: nat)
    requires Consistent(s) && Steady(View(s), watched) && IsRun(s, es) && AllUndisturbed(s, es)
    ensures var u := Run(s, es);
            && Consistent(u) && Steady(View(u), watched) && (NonePending(s) ==> NonePending(u))
            && Budget(View(u).rows) + settlings <= Budget(View(s).rows)
            && (NonePending(u) || Busy(s.flushers) + Loads(es) <= Busy(u.flushers) + settlings)
    decreases |es|
  {
    settlings := 0;
    if es != [] {
      var e, u := es[0], Step(s, es[0]);
      StepKeepsConsistent(s, e);
      StepKeepsSteady(s, e, watched);
      settlings := RunSettles(u, es[1..], watched);
      if IsSettling(s, e) { settlings := settlings + 1; }
      if NonePending(s) { NonePendingStays(s, e); } else { StepIsProgress(s, e); }
    }
  }

  lemma {:induction false} IdleIsNotBusy(fs: seq<Flusher>)
    requires forall t :: 0 <= t < |fs| ==> fs[t] == IDLE
    ensures Busy(fs) == 0 && AcceptedIds(fs) == {}
  {
    if fs != [] {
      IdleIsNotBusy(fs[1..]);
    }
  }

  lemma StartIsConsistent(rows: Table, nextId: nat, flushers: nat)
    requires DistinctIds(rows)
    ensures var s := Start(rows, nextId, flushers);
            Consistent(s) && View(s) == Store(rows, []) && Busy(s.flushers) == 0
  {
    var s := Start(rows, nextId, flushers);
    IdleIsNotBusy(s.flushers);
    DeleteNone(rows);
  }

  /** Over every interleaving of any number of flushes, whatever the sender answers: n fresh pending rows
      are settled once 5n queries have been answered and the flushes are through.  Each is delivered
      exactly once and deleted, or never delivered and kept as failed after exactly 5 refusals. */
  lemma {:induction false} EveryRowSettles(rows: Table, nextId: nat, flushers: nat, es: seq<Event>)
    requires DistinctIds(rows) && forall r :: r in rows && r.status == Pending ==> r.sendCount == 0
    requires var s := Start(rows, nextId, flushers);
             IsRun(s, es) && AllUndisturbed(s, es) && AllIdle(Run(s, es))
    requires Loads(es) >= MAX_SENDS * |PendingOf(rows)|
    ensures var u := Run(Start(rows, nextId, flushers), es);
            && PendingOf(u.rows) == []
            && forall r :: r in rows && r.status == Pending ==> Settled(Store(u.rows, u.log), r.id)
  {
    var s, watched := Start(rows, nextId, flushers), Ids(PendingOf(rows));
    StartIsConsistent(rows, nextId, flushers);
    FreshIsSteady(rows);
    var settlings := RunSettles(s, es, watched);
    var u := Run(s, es);
    IdleIsNotBusy(u.flushers);
    DeleteNone(u.rows);
    BudgetBounds(rows);
    BudgetBounds(u.rows);
    forall r | r in rows && r.status == Pending ensures Settled(Store(u.rows, u.log), r.id) {
      PendingMember(rows, r);
      assert r.id in watched;
      FateSettled(Store(u.rows, u.log), r.id);
    }
  }

  // ---------- Order of delivery ----------

  /** Every row held ranks before everything pending that its flush does not hold. */
  ghost predicate HeldFirst(s: State) {
    forall t, r, q :: 0 <= t < |s.flushers| && r in s.flushers[t].unsent && InHand(View(s), q) &&
                      q !in s.flushers[t].unsent ==>
      Precedes(r, q)
  }

  ghost predicate Ordered(s: State, pending: multiset<Row>) {
    && InOrder(View(s), pending)
    && HeldFirst(s)
    && forall t :: 0 <= t < |s.flushers| ==> Sorted(s.flushers[t].unsent)
  }

  ghost predicate IsAccepted(e: Event) {
    e.Send? ==> e.accepted
  }

  ghost predicate AllSendsAccepted(es: seq<Event>) {
    forall e :: e in es ==> IsAccepted(e)
  }

  lemma LoadedFirst(s: State, t: nat, batch: Table)
    requires Consistent(s) && Enabled(s, Load(t, batch)) && Undisturbed(s, Load(t, batch))
    ensures Sorted(batch)
    ensures forall r, q :: r in batch && InHand(View(s), q) && q !in batch ==> Precedes(r, q)
  {
    var order :| IsOrdering(s.rows, order) && batch == Limit(order, FLUSH_BATCH);
    SameRows(order, PendingOf(s.rows));
    forall r, q | r in batch && InHand(View(s), q) && q !in batch ensures Precedes(r, q) {
      DeleteMember(s.rows, AcceptedIds(s.flushers), q);
      PendingMember(s.rows, q);
      var i :| 0 <= i < |batch| && batch[i] == r;
      var j :| 0 <= j < |order| && order[j] == q;
      assert order[i] == r && i < j;
    }
  }

  /** What undisturbed flushes that overlap look like: a query that is made while another flush still holds
      a row leaves that row out, so it must answer with a full batch of rows that tie with it. */
  lemma OverlapTakesTies(s: State, t: nat, batch: Table, u: nat, r: Row, q: Row, pending: multiset<Row>)
    requires Consistent(s) && Ordered(s, pending) && Enabled(s, Load(t, batch)) && Undisturbed(s, Load(t, batch))
    requires u < |s.flushers| && r in s.flushers[u].unsent && q in batch
    ensures |batch| == FLUSH_BATCH && q.priority == r.priority && q.timestampMs == r.timestampMs
  {
    var unsent := s.flushers[u].unsent;
    assert forall x :: x in unsent ==> Claims(s, u, x.id) && InHand(View(s), x);
    LoadedInHand(s, t, batch);
    LoadedFirst(s, t, batch);
    assert Precedes(r, q) && Precedes(q, r);
    var order :| IsOrdering(s.rows, order) && batch == Limit(order, FLUSH_BATCH);
    SameRows(order, PendingOf(s.rows));
    DeleteMember(s.rows, AcceptedIds(s.flushers), r);
    PendingMember(s.rows, r);
    assert r in order && r !in batch;
  }

  /** The head of a batch ranks before everything else that is pending. */
  lemma HeadFirst(s: State, t: nat, q: Row)
    requires Consistent(s) && HeldFirst(s) && t < |s.flushers| && s.flushers[t].unsent != []
    requires Sorted(s.flushers[t].unsent)
    requires InHand(View(s), q) && q.id != s.flushers[t].unsent[0].id
    ensures Precedes(s.flushers[t].unsent[0], q)
  {
    var unsent := s.flushers[t].unsent;
    assert unsent[0] in unsent;
    if q in unsent {
      var i :| 0 <= i < |unsent| && unsent[i] == q;
    }
  }

  /** What is pending after an accepted send ranks after the row sent. */
  lemma SentFirst(s: State, t: nat, q: Row)
    requires Consistent(s) && HeldFirst(s) && Enabled(s, Send(t, true)) && Sorted(s.flushers[t].unsent)
    requires q in PendingOf(Effect(s, Send(t, true)).rows)
    ensures var r := s.flushers[t].unsent[0];
            q in PendingOf(View(s).rows) && q.id != r.id && Precedes(r, q)
  {
    var v, r := View(s), s.flushers[t].unsent[0];
    PendingMember(Effect(s, Send(t, true)).rows, q);
    DeleteMember(v.rows, {r.id}, q);
    PendingMember(v.rows, q);
    HeadFirst(s, t, q);
  }

  lemma SortedSnoc(log: Table, r: Row)
    requires Sorted(log) && forall a :: a in log ==> Precedes(a, r)
    ensures Sorted(log + [r])
  {
  }

  lemma SendKeepsInOrder(s: State, t: nat, pending: multiset<Row>)
    requires Consistent(s) && Ordered(s, pending) && Enabled(s, Send(t, true))
    ensures InOrder(Effect(s, Send(t, true)), pending)
  {
    var v, r := View(s), s.flushers[t].unsent[0];
    var w := Effect(s, Send(t, true));
    SettledIsClaimed(s, Send(t, true));
    PendingMember(v.rows, r);
    DeleteIds(v.rows, {r.id});
    forall q | q in PendingOf(w.rows) ensures q in PendingOf(v.rows) && Precedes(r, q) { SentFirst(s, t, q); }
    SortedSnoc(v.log, r);
    SendConserves(v, r, pending);
  }

  lemma SendConserves(v: Store, r: Row, pending: multiset<Row>)
    requires DistinctIds(v.rows) && r in PendingOf(v.rows) && multiset(v.log) + multiset(PendingOf(v.rows)) == pending
    ensures multiset(v.log + [r]) + multiset(PendingOf(Delete(v.rows, {r.id}))) == pending
  {
    PendingAfterDelete(v.rows, r);
    MovedOver(multiset(v.log), multiset(PendingOf(v.rows)), multiset(PendingOf(Delete(v.rows, {r.id}))), r, pending);
    assert multiset(v.log + [r]) == multiset(v.log) + multiset{r};
  }

  lemma MovedOver(log: multiset<Row>, before: multiset<Row>, after: multiset<Row>, r: Row, all: multiset<Row>)
    requires log + before == all && r in before && after == before - multiset{r}
    ensures log + multiset{r} + after == all
  {
  }

  lemma StepKeepsHeldFirst(s: State, e: Event, t: nat, r: Row, q: Row)
    requires Consistent(s) && HeldFirst(s) && Enabled(s, e) && Undisturbed(s, e) && IsAccepted(e)
    requires var w := Step(s, e); t < |w.flushers| && r in w.flushers[t].unsent &&
                                  InHand(View(w), q) && q !in w.flushers[t].unsent
    requires IsSettling(s, e) ==> e.Send?
    ensures Precedes(r, q)
  {
    StepIsEffect(s, e);
    if e.Load? && e.t == t {
      LoadedFirst(s, t, e.batch);
    } else {
      if e.Send? {
        var v := View(s);
        DeleteMember(v.rows, {SettledRow(s, e).id}, q);
        if e.t == t {
          var unsent := s.flushers[t].unsent;
          assert unsent == [unsent[0]] + unsent[1..];
        }
      }
      assert r in s.flushers[t].unsent && InHand(View(s), q) && q !in s.flushers[t].unsent;
    }
  }

  lemma StepKeepsOrdered(s: State, e: Event, pending: multiset<Row>)
    requires Consistent(s) && Ordered(s, pending) && Enabled(s, e) && Undisturbed(s, e) && IsAccepted(e)
    requires forall t :: 0 <= t < |s.flushers| ==> !Refuses(s.flushers[t])
    ensures Ordered(Step(s, e), pending)
    ensures forall t :: 0 <= t < |Step(s, e).flushers| ==> !Refuses(Step(s, e).flushers[t])
  {
    var w := Step(s, e);
    StepIsEffect(s, e);
    if e.Send? { SendKeepsInOrder(s, e.t, pending); }
    if e.Load? { LoadedFirst(s, e.t, e.batch); }
    forall t, r, q | 0 <= t < |w.flushers| && r in w.flushers[t].unsent && InHand(View(w), q) &&
                     q !in w.flushers[t].unsent
      ensures Precedes(r, q)
    {
      StepKeepsHeldFirst(s, e, t, r, q);
    }
  }

  lemma {:induction false} RunKeepsOrdered(s: State, es: seq<Event>, pending: multiset<Row>)
    requires Consistent(s) && Ordered(s, pending) && IsRun(s, es) && AllUndisturbed(s, es) && AllSendsAccepted(es)
    requires forall t :: 0 <= t < |s.flushers| ==> !Refuses(s.flushers[t])
    ensures Ordered(Run(s, es), pending)
    decreases |es|
  {
    if es != [] {
      assert es[0] in es && forall e :: e in es[1..] ==> e in es;
      StepKeepsConsistent(s, es[0]);
      StepKeepsOrdered(s, es[0], pending);
      RunKeepsOrdered(Step(s, es[0]), es[1..], pending);
    }
  }

  // ---------- How many queries it takes ----------

  function AllUnsent(fs: seq<Flusher>): Table {
    if fs == [] then [] else AllUnsent(fs[..|fs| - 1]) + fs[|fs| - 1].unsent
  }

  lemma {:induction false} AllUnsentMember(fs: seq<Flusher>, r: Row)
    ensures r in AllUnsent(fs) <==> exists t :: 0 <= t < |fs| && r in fs[t].unsent
  {
    if fs != [] {
      AllUnsentMember(fs[..|fs| - 1], r);
    }
  }

  lemma {:induction false} AllUnsentUpdate(fs: seq<Flusher>, t: nat, f: Flusher)
    requires t < |fs|
    ensures |AllUnsent(fs[t := f])| == |AllUnsent(fs)| - |fs[t].unsent| + |f.unsent|
  {
    var n := |fs| - 1;
    if t == n {
      assert fs[t := f][..n] == fs[..n];
    } else {
      AllUnsentUpdate(fs[..n], t, f);
      assert fs[t := f][..n] == fs[..n][t := f];
    }
  }

  lemma {:induction false} AllUnsentDistinct(s: State, n: nat)
    requires Consistent(s) && n <= |s.flushers|
    ensures DistinctIds(AllUnsent(s.flushers[..n]))
  {
    if n > 0 {
      var fs := s.flushers[..n];
      assert fs[..n - 1] == s.flushers[..n - 1];
      AllUnsentDistinct(s, n - 1);
      forall r, q | r in AllUnsent(fs[..n - 1]) && q in fs[n - 1].unsent ensures r.id != q.id {
        AllUnsentMember(fs[..n - 1], r);
        var t :| 0 <= t < n - 1 && r in fs[t].unsent;
        assert Claims(s, t, r.id) && Claims(s, n - 1, q.id);
      }
      JoinDistinct(AllUnsent(fs[..n - 1]), fs[n - 1].unsent);
    }
  }

  lemma JoinDistinct(a: Table, b: Table)
    requires DistinctIds(a) && DistinctIds(b) && forall r, q :: r in a && q in b ==> r.id != q.id
    ensures DistinctIds(a + b)
  {
  }

  /** Distinct rows in hand are no more than the pending ones. */
  lemma InHandCount(v: Store, t: Table)
    requires DistinctIds(v.rows) && DistinctIds(t) && forall r :: r in t ==> InHand(v, r)
    ensures |t| <= |PendingOf(v.rows)|
  {
    PendingDistinct(v.rows);
    IdCount(t);
    IdCount(PendingOf(v.rows));
    forall r | r in t ensures r in PendingOf(v.rows) { PendingMember(v.rows, r); }
    assert Ids(t) <= Ids(PendingOf(v.rows));
    SubsetSize(Ids(t), Ids(PendingOf(v.rows)));
  }

  lemma {:induction false} SubsetSize(a: set<nat>, b: set<nat>)
    requires a <= b
    ensures |a| <= |b|
  {
    if a != {} {
      var x :| x in a;
      SubsetSize(a - {x}, b - {x});
    }
  }

  /** What no query has taken yet. */
  function Left(s: State): int {
    |PendingOf(View(s).rows)| - |AllUnsent(s.flushers)|
  }

  lemma ViewDistinct(s: State)
    requires Consistent(s)
    ensures DistinctIds(View(s).rows)
  {
    DeleteIds(s.rows, AcceptedIds(s.flushers));
  }

  /** A query takes FLUSH_BATCH of the rows that are left, or all of them. */
  lemma LoadTakes(s: State, t: nat, batch: Table)
    requires Consistent(s) && Enabled(s, Load(t, batch)) && Undisturbed(s, Load(t, batch))
    ensures |batch| == if Left(s) <= FLUSH_BATCH then Left(s) else FLUSH_BATCH
  {
    LoadTakesNoMore(s, t, batch);
    if |batch| < FLUSH_BATCH { ShortLoadTakesAll(s, t, batch); }
    var order :| IsOrdering(s.rows, order) && batch == Limit(order, FLUSH_BATCH);
  }

  lemma LoadTakesNoMore(s: State, t: nat, batch: Table)
    requires Consistent(s) && Enabled(s, Load(t, batch)) && Undisturbed(s, Load(t, batch))
    ensures |batch| <= Left(s)
  {
    var held := AllUnsent(s.flushers);
    LoadedInHand(s, t, batch);
    ViewDistinct(s);
    AllUnsentDistinct(s, |s.flushers|);
    assert s.flushers[..|s.flushers|] == s.flushers;
    forall r | r in held ensures InHand(View(s), r) && forall q :: q in batch ==> r.id != q.id {
      AllUnsentMember(s.flushers, r);
      var u :| 0 <= u < |s.flushers| && r in s.flushers[u].unsent;
      assert Claims(s, u, r.id);
    }
    JoinDistinct(held, batch);
    InHandCount(View(s), held + batch);
  }

  lemma ShortLoadTakesAll(s: State, t: nat, batch: Table)
    requires Consistent(s) && Enabled(s, Load(t, batch)) && Undisturbed(s, Load(t, batch)) && |batch| < FLUSH_BATCH
    ensures Left(s) <= |batch|
  {
    var order :| IsOrdering(s.rows, order) && batch == Limit(order, FLUSH_BATCH);
    SameRows(order, PendingOf(s.rows));
    ViewDistinct(s);
    PendingDistinct(View(s).rows);
    forall r | r in PendingOf(View(s).rows) ensures r in batch {
      PendingMember(View(s).rows, r);
      DeleteMember(s.rows, AcceptedIds(s.flushers), r);
      PendingMember(s.rows, r);
    }
    LoadedInHand(s, t, batch);
    IdCount(batch);
    IdCount(PendingOf(View(s).rows));
    SubsetSize(Ids(PendingOf(View(s).rows)), Ids(batch));
  }

  /** Accepted sends take their rows from the pending ones; queries from those that are left. */
  lemma StepTakes(s: State, e: Event)
    requires Consistent(s) && Enabled(s, e) && Undisturbed(s, e) && IsAccepted(e)
    requires forall t :: 0 <= t < |s.flushers| ==> !Refuses(s.flushers[t])
    ensures Left(Step(s, e)) == Left(s) -
                                        if !e.Load? then 0 else if Left(s) <= FLUSH_BATCH then Left(s) else FLUSH_BATCH
  {
    StepIsEffect(s, e);
    AllUnsentUpdate(s.flushers, e.t, Step(s, e).flushers[e.t]);
    if e.Load? { LoadTakes(s, e.t, e.batch); }
    if e.Send? {
      SettledIsClaimed(s, e);
      ViewDistinct(s);
      PendingMember(View(s).rows, SettledRow(s, e));
      PendingAfterDelete(View(s).rows, SettledRow(s, e));
      TakenOne(PendingOf(View(s).rows), PendingOf(View(Step(s, e)).rows), SettledRow(s, e));
    }
  }

  lemma TakenOne(before: Table, after: Table, r: Row)
    requires r in before && multiset(after) == multiset(before) - multiset{r}
    ensures |after| == |before| - 1
  {
    assert |multiset(after)| == |after| && |multiset(before)| == |before|;
  }

  lemma {:induction false} RunTakes(s: State, es: seq<Event>)
    requires Consistent(s) && IsRun(s, es) && AllUndisturbed(s, es) && AllSendsAccepted(es) && Left(s) >= 0
    requires forall t :: 0 <= t < |s.flushers| ==> !Refuses(s.flushers[t])
    ensures Left(Run(s, es)) == if Left(s) <= Loads(es) * FLUSH_BATCH then 0 else Left(s) - Loads(es) * FLUSH_BATCH
    decreases |es|
  {
    if es != [] {
      assert es[0] in es && forall e :: e in es[1..] ==> e in es;
      StepKeepsConsistent(s, es[0]);
      StepTakes(s, es[0]);
      NoRefusals(s, es[0]);
      RunTakes(Step(s, es[0]), es[1..]);
    }
  }

  lemma NoRefusals(s: State, e: Event)
    requires Enabled(s, e) && IsAccepted(e) && forall t :: 0 <= t < |s.flushers| ==> !Refuses(s.flushers[t])
    ensures forall t :: 0 <= t < |Step(s, e).flushers| ==> !Refuses(Step(s, e).flushers[t])
  {
  }

  lemma {:induction false} IdleHoldsNothing(fs: seq<Flusher>)
    requires forall t :: 0 <= t < |fs| ==> fs[t] == IDLE
    ensures AllUnsent(fs) == []
  {
    if fs != [] {
      IdleHoldsNothing(fs[..|fs| - 1]);
    }
  }

  /** With an accepting sender any number of such flushes delivers in one sequence, sorted by priority then
      age; what is delivered and what is still pending make up the rows there were; and once the flushes
      are through, nothing is pending if and only if they made ceil(n/50) queries or more. */
  lemma InterleavedFlushesDeliverInOrder(rows: Table, nextId: nat, flushers: nat, es: seq<Event>)
    requires DistinctIds(rows)
    requires var s := Start(rows, nextId, flushers); IsRun(s, es) && AllUndisturbed(s, es) && AllSendsAccepted(es)
    ensures var u := Run(Start(rows, nextId, flushers), es);
            && Sorted(u.log)
            && multiset(u.log) + multiset(PendingOf(View(u).rows)) == multiset(PendingOf(rows))
            && (AllIdle(u) ==> View(u).rows == u.rows)
            && (AllIdle(u) ==> (PendingOf(u.rows) == [] <==> Loads(es) * FLUSH_BATCH >= |PendingOf(rows)|))
  {
    var s := Start(rows, nextId, flushers);
    StartIsConsistent(rows, nextId, flushers);
    IdleHoldsNothing(s.flushers);
    RunKeepsOrdered(s, es, multiset(PendingOf(rows)));
    RunTakes(s, es);
    var u := Run(s, es);
    if AllIdle(u) {
      IdleHoldsNothing(u.flushers);
      IdleIsNotBusy(u.flushers);
      DeleteNone(u.rows);
    }
  }
}
