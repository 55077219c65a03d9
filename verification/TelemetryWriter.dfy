/**
  The coalescing database writer of the PC side (Pc_data/mqtt/MqttMessageHandler.cpp:
  enqueueTelemetryStorage, dbWriterLoop) and the write it issues
  (Pc_data/storage/PcDatabase.cpp: saveTelemetryPoints).

  A save replaces all latest points of the devices it mentions.  So merging two batches before
  saving them is not always the same as saving them one after the other; the lemmas say when it is.
 */
module TelemetryWriter {
  import opened Wrappers

  datatype Device = Device(gatewayId: string, portId: string, deviceId: int)

  /** A point id names the device and the point. */
  datatype PointId = PointId(factoryId: string, areaId: string, device: Device, pointKey: string)

  datatype Value = Value(number: real, text: string, timestampMs: int)

  /** id is None when the received point has an empty id. */
  datatype Point = Point(id: Option<PointId>, value: Value)

  type Batch = map<PointId, Value>

  /** The last value of every point in the list. */
  function Latest(points: seq<Point>): Batch {
    if points == [] then map[]
    else
      var p := points[|points| - 1];
      if p.id.None? then Latest(points[..|points| - 1]) else Latest(points[..|points| - 1])[p.id.value := p.value]
  }

  /** Devices of the batch that the database knows; points of others are skipped. */
  function Devices(b: Batch, known: set<Device>): set<Device> {
    set id | id in b && id.device in known :: id.device
  }

  /** One committed save. */
  function Save(db: Batch, b: Batch, known: set<Device>): Batch {
    (map id | id in db && id.device !in Devices(b, known) :: db[id]) + (map id | id in b && id.device in known :: b[id])
  }

  lemma LatestSnoc(points: seq<Point>, id: PointId, v: Value)
    ensures Latest(points + [Point(Some(id), v)]) == Latest(points)[id := v]
  {
    assert (points + [Point(Some(id), v)])[..|points|] == points;
  }

  /** The points of m that are not in rest. */
  function Without(m: Batch, rest: set<PointId>): Batch {
    map id | id in m && id !in rest :: m[id]
  }

  lemma TakenOne(m: Batch, rest: set<PointId>, id: PointId)
    requires id in rest && rest <= m.Keys
    ensures Without(m, rest)[id := m[id]] == Without(m, rest - {id})
  {
  }

  lemma TakenAll(m: Batch)
    ensures Without(m, m.Keys) == map[] && Without(m, {}) == m
  {
  }

  // ---------- The writer's fields ----------

  class Writer {
    var pending: Batch
    var stop: bool

    constructor ()
      ensures pending == map[] && !stop
    {
      pending, stop := map[], false;
    }

    method EnqueueStorage(points: seq<Point>)
      modifies this`pending
      ensures pending == old(pending) + Latest(points)
    {
      for i := 0 to |points|
        invariant pending == old(pending) + Latest(points[..i])
      {
        assert points[..i + 1][..i] == points[..i];
        if points[i].id.Some? {
          pending := pending[points[i].id.value := points[i].value];
        }
      }
      assert points[..|points|] == points;
    }

    /** One turn of the writer once it is woken: the points to save, or the end of the loop. */
    method TakePending() returns (done: bool, points: seq<Point>)
      requires stop || pending != map[]
      modifies this`pending
      ensures done <==> stop && old(pending) == map[]
      ensures pending == map[] && (!done ==> Latest(points) == old(pending) && |points| == |old(pending)|)
    {
      points := [];
      if stop && pending == map[] {
        return true, [];
      }
      var rest := pending.Keys;
      TakenAll(pending);
      while rest != {}
        invariant pending == old(pending) && rest <= pending.Keys
        invariant Latest(points) == Without(pending, rest)
        invariant |points| + |rest| == |pending|
      {
        var id :| id in rest;
        LatestSnoc(points, id, pending[id]);
        TakenOne(pending, rest, id);
        points := points + [Point(Some(id), pending[id])];
        rest := rest - {id};
      }
      pending := map[];
      done := false;
    }
  }

  // ---------- Interleavings ----------

  datatype Phase = Waiting | Saving | Stopped

  /** direct is the specification: what saving every received batch at once would have left. */
  datatype State = State(db: Batch, inflight: Batch, pending: Batch, phase: Phase, stop: bool, direct: Batch)

  datatype Event = Enqueue(points: seq<Point>) | Take | Commit(ok: bool) | Stop | Exit

  /** Which steps the locks and the order of the destructor admit: nothing is enqueued after Stop. */
  predicate Enabled(s: State, e: Event) {
    match e
    case Enqueue(_) => !s.stop
    case Take => s.phase == Waiting && s.pending != map[]
    case Commit(_) => s.phase == Saving
    case Stop => true
    case Exit => s.phase == Waiting && s.stop && s.pending == map[]
  }

  function Step(s: State, e: Event, known: set<Device>): State {
    match e
    case Enqueue(points) => s.(pending := s.pending + Latest(points), direct := Save(s.direct, Latest(points), known))
    case Take => s.(inflight := s.pending, pending := map[], phase := Saving)
    case Commit(ok) => s.(db := if ok then Save(s.db, s.inflight, known) else s.db, inflight := map[], phase := Waiting)
    case Stop => s.(stop := true)
    case Exit => s.(phase := Stopped)
  }

  /** What the database will hold once everything taken and everything pending is saved. */
  function View(s: State, known: set<Device>): Batch {
    Save(Save(s.db, s.inflight, known), s.pending, known)
  }

  /** The new batch renews every pending point of the devices it mentions. */
  predicate Covers(b: Batch, pending: Batch, known: set<Device>) {
    forall id :: id in pending && id.device in Devices(b, known) ==> id in b
  }

  lemma SaveNothing(db: Batch, known: set<Device>)
    ensures Save(db, map[], known) == db
  {
    var none: Batch := map[];
    assert Devices(none, known) == {};
  }

  lemma SaveAt(db: Batch, b: Batch, known: set<Device>, id: PointId)
    ensures id in Save(db, b, known) <==>
            if id.device in Devices(b, known) then id in b else id in db
    ensures id in Save(db, b, known) ==>
            Save(db, b, known)[id] == if id.device in Devices(b, known) then b[id] else db[id]
  {
    if id in b && id.device in known { assert id.device in Devices(b, known); }
  }

  lemma MergedDevices(a: Batch, b: Batch, known: set<Device>)
    ensures Devices(a + b, known) == Devices(a, known) + Devices(b, known)
  {
    forall d ensures d in Devices(a + b, known) <==> d in Devices(a, known) + Devices(b, known) {
      if d in Devices(a, known) {
        var id :| id in a && id.device in known && id.device == d;
        assert id in a + b;
      }
      if d in Devices(b, known) {
        var id :| id in b && id.device in known && id.device == d;
        assert id in a + b;
      }
    }
  }

  /** Point id after saving a then b. */
  lemma SavedInTurnAt(db: Batch, a: Batch, b: Batch, known: set<Device>, id: PointId)
    ensures var t := Save(Save(db, a, known), b, known);
            var (from, yes) := if id.device in Devices(b, known) then (b, id in b)
                               else if id.device in Devices(a, known) then (a, id in a) else (db, id in db);
            (id in t <==> yes) && (yes ==> t[id] == from[id])
  {
    SaveAt(Save(db, a, known), b, known, id);
    SaveAt(db, a, known, id);
  }

  /** Point id after saving a and b merged. */
  lemma SavedMergedAt(db: Batch, a: Batch, b: Batch, known: set<Device>, id: PointId)
    ensures var t := Save(db, a + b, known);
            var (from, yes) := if id.device in Devices(b, known) then (a + b, id in a + b)
                               else if id.device in Devices(a, known) then (a, id in a) else (db, id in db);
            (id in t <==> yes) && (yes ==> t[id] == from[id])
  {
    MergedDevices(a, b, known);
    SaveAt(db, a + b, known, id);
    if id in b && id.device in known { assert id.device in Devices(b, known); }
    if id.device in Devices(a, known) {
      var other :| other in a && other.device in known && other.device == id.device;
    }
  }

  /** Saving two batches merged equals saving them in turn exactly when the second covers the first. */
  lemma {:induction false} CoalescingIff(db: Batch, a: Batch, b: Batch, known: set<Device>)
    ensures Save(db, a + b, known) == Save(Save(db, a, known), b, known) <==> Covers(b, a, known)
  {
    var merged, inTurn := Save(db, a + b, known), Save(Save(db, a, known), b, known);
    if Covers(b, a, known) {
      forall id ensures id in merged <==> id in inTurn {
        SavedMergedAt(db, a, b, known, id);
        SavedInTurnAt(db, a, b, known, id);
      }
      forall id | id in merged ensures merged[id] == inTurn[id] {
        SavedMergedAt(db, a, b, known, id);
        SavedInTurnAt(db, a, b, known, id);
      }
      assert merged == inTurn;
    } else {
      var id :| id in a && id.device in Devices(b, known) && id !in b;
      SavedMergedAt(db, a, b, known, id);
      SavedInTurnAt(db, a, b, known, id);
      assert id in merged && id !in inTurn;
    }
  }

  ghost predicate PhaseOk(s: State) {
    && (s.phase != Saving ==> s.inflight == map[])
    && (s.phase == Stopped ==> s.stop && s.pending == map[])
  }

  ghost predicate IsDirect(s: State, known: set<Device>) {
    View(s, known) == s.direct
  }

  ghost predicate Inv(s: State, known: set<Device>) {
    PhaseOk(s) && IsDirect(s, known)
  }

  /** One enqueue step keeps the database's future equal to direct writing exactly when it covers. */
  lemma {:induction false} EnqueueKeepsViewIff(s: State, points: seq<Point>, known: set<Device>)
    requires Inv(s, known)
    ensures var t := Step(s, Enqueue(points), known);
            View(t, known) == t.direct <==> Covers(Latest(points), s.pending, known)
  {
    CoalescingIff(Save(s.db, s.inflight, known), s.pending, Latest(points), known);
  }

  // ---------- What fails, and exactly when ----------

  /** The save in flight brings nothing new that the pending points will not bring anyway. */
  ghost predicate NothingNew(db: Batch, inflight: Batch, pending: Batch, known: set<Device>) {
    forall id: PointId :: id.device in Devices(inflight, known) && id.device !in Devices(pending, known) ==>
      (id in db <==> id in inflight) && (id in db ==> db[id] == inflight[id])
  }

  /** A failed save keeps the database's future equal to direct writing if and only if it would have
      brought nothing new. */
  lemma {:induction false} FailedSaveKeepsViewIff(s: State, known: set<Device>)
    requires Inv(s, known) && s.phase == Saving
    ensures var t := Step(s, Commit(false), known);
            View(t, known) == t.direct <==> NothingNew(s.db, s.inflight, s.pending, known)
  {
    SaveNothing(s.db, known);
    SkippedSaveIff(s.db, s.inflight, s.pending, known);
  }

  lemma {:induction false} SkippedSaveIff(db: Batch, a: Batch, b: Batch, known: set<Device>)
    ensures Save(db, b, known) == Save(Save(db, a, known), b, known) <==> NothingNew(db, a, b, known)
  {
    var skipped, inTurn := Save(db, b, known), Save(Save(db, a, known), b, known);
    if NothingNew(db, a, b, known) {
      forall id: PointId ensures SameAt(skipped, inTurn, id) { SkippedSaveAt(db, a, b, known, id); }
      SameEverywhere(skipped, inTurn);
    } else {
      var id: PointId :| id.device in Devices(a, known) && id.device !in Devices(b, known) &&
        !((id in db <==> id in a) && (id in db ==> db[id] == a[id]));
      SkippedSaveAt(db, a, b, known, id);
      assert !SameAt(skipped, inTurn, id);
    }
  }

  ghost predicate SameAt(m: Batch, n: Batch, id: PointId) {
    (id in m <==> id in n) && (id in m && id in n ==> m[id] == n[id])
  }

  lemma SameEverywhere(m: Batch, n: Batch)
    requires forall id: PointId :: SameAt(m, n, id)
    ensures m == n
  {
    forall id: PointId ensures id in m <==> id in n { assert SameAt(m, n, id); }
    forall id: PointId | id in m ensures m[id] == n[id] { assert SameAt(m, n, id); }
  }

  lemma SkippedSaveAt(db: Batch, a: Batch, b: Batch, known: set<Device>, id: PointId)
    ensures SameAt(Save(db, b, known), Save(Save(db, a, known), b, known), id)
       <==> (id.device in Devices(a, known) && id.device !in Devices(b, known) ==>
               (id in db <==> id in a) && (id in db ==> db[id] == a[id]))
  {
    SaveAt(db, b, known, id);
    SaveAt(Save(db, a, known), b, known, id);
    SaveAt(db, a, known, id);
  }

  /** What a step needs: an enqueue covers the pending points, a failing save brings nothing new. */
  ghost predicate Keeps(s: State, e: Event, known: set<Device>) {
    match e
    case Enqueue(points) => Covers(Latest(points), s.pending, known)
    case Commit(ok) => ok || NothingNew(s.db, s.inflight, s.pending, known)
    case _ => true
  }

  lemma {:induction false} StepIsDirectIff(s: State, e: Event, known: set<Device>)
    requires Inv(s, known) && Enabled(s, e)
    ensures PhaseOk(Step(s, e, known)) && (IsDirect(Step(s, e, known), known) <==> Keeps(s, e, known))
  {
    match e
    case Enqueue(points) => EnqueueKeepsViewIff(s, points, known);
    case Take =>
      SaveNothing(s.db, known);
      SaveNothing(Save(s.db, s.pending, known), known);
    case Commit(ok) =>
      if ok {
        SaveNothing(Save(s.db, s.inflight, known), known);
      } else {
        FailedSaveKeepsViewIff(s, known);
      }
    case Stop =>
    case Exit =>
  }

  function Run(s: State, es: seq<Event>, known: set<Device>): State {
    if es == [] then s else Step(Run(s, es[..|es| - 1], known), es[|es| - 1], known)
  }

  predicate IsRun(s: State, es: seq<Event>, known: set<Device>) {
    es != [] ==> IsRun(s, es[..|es| - 1], known) && Enabled(Run(s, es[..|es| - 1], known), es[|es| - 1])
  }

  /** In every state of the run. */
  ghost predicate AlwaysDirect(s: State, es: seq<Event>, known: set<Device>) {
    (es != [] ==> AlwaysDirect(s, es[..|es| - 1], known)) && IsDirect(Run(s, es, known), known)
  }

  /** In every step of the run. */
  ghost predicate AllKeep(s: State, es: seq<Event>, known: set<Device>) {
    es != [] ==> AllKeep(s, es[..|es| - 1], known) && Keeps(Run(s, es[..|es| - 1], known), es[|es| - 1], known)
  }

  /** Over every interleaving of producers and writer: database, batch in flight and pending points
      together amount to direct writing all along if and only if every enqueue covers what is pending
      and every failing save brings nothing new. */
  lemma {:induction false} EveryInterleavingIsDirectIff(s: State, es: seq<Event>, known: set<Device>)
    requires Inv(s, known) && IsRun(s, es, known)
    ensures AlwaysDirect(s, es, known) <==> AllKeep(s, es, known)
    ensures AlwaysDirect(s, es, known) ==> Inv(Run(s, es, known), known)
  {
    if es != [] {
      var pre := es[..|es| - 1];
      EveryInterleavingIsDirectIff(s, pre, known);
      if AlwaysDirect(s, pre, known) {
        StepIsDirectIff(Run(s, pre, known), es[|es| - 1], known);
      }
    }
  }

  /** In such an interleaving the database alone has everything once the writer has stopped. */
  lemma StoppedMeansWritten(s: State, es: seq<Event>, known: set<Device>)
    requires Inv(s, known) && IsRun(s, es, known) && AllKeep(s, es, known)
    requires Run(s, es, known).phase == Stopped
    ensures Run(s, es, known).db == Run(s, es, known).direct
  {
    EveryInterleavingIsDirectIff(s, es, known);
    SaveNothing(Run(s, es, known).db, known);
  }

  const FRESH := State(map[], map[], map[], Waiting, false, map[])

  lemma FreshInv(known: set<Device>)
    ensures Inv(FRESH, known)
  {
    SaveNothing(map[], known);
  }

  /** A first point whose save fails is lost: the database never gets it. */
  lemma LosingRun(id: PointId, v: Value, known: set<Device>)
    requires id.device in known
    ensures var s := Step(FRESH, Enqueue([Point(Some(id), v)]), known);
            var t := Step(Step(s, Take, known), Commit(false), known);
            Enabled(s, Take) && View(t, known) == map[] && t.direct == map[id := v]
  {
    SingleLatest(id, v);
    var s := Step(FRESH, Enqueue([Point(Some(id), v)]), known);
    assert id in s.pending && Devices(map[id := v], known) == {id.device};
    assert s.direct == map[id := v];
    SaveNothing(map[], known);
  }

  lemma SingleLatest(id: PointId, v: Value)
    ensures Latest([Point(Some(id), v)]) == map[id := v]
  {
    assert [Point(Some(id), v)][..0] == [];
  }

  /** A pack with one point of a device, pending behind a pack with two: written directly the second
      would have removed the other point, merged it does not. */
  lemma PartialPackRun(id: PointId, other: PointId, v: Value, w: Value, later: Value, known: set<Device>)
    requires id != other && id.device == other.device && id.device in known
    ensures var s := Step(FRESH, Enqueue([Point(Some(id), v), Point(Some(other), w)]), known);
            var t := Step(s, Enqueue([Point(Some(id), later)]), known);
            Enabled(s, Enqueue([Point(Some(id), later)])) && View(t, known) != t.direct
  {
    var first, second := [Point(Some(id), v), Point(Some(other), w)], [Point(Some(id), later)];
    FreshInv(known);
    SingleLatest(id, v);
    SingleLatest(id, later);
    assert first[..1] == [Point(Some(id), v)];
    assert Latest(first) == map[id := v, other := w];
    assert Covers(Latest(first), FRESH.pending, known);
    StepIsDirectIff(FRESH, Enqueue(first), known);
    var s := Step(FRESH, Enqueue(first), known);
    assert s.pending == Latest(first);
    assert id.device in Devices(Latest(second), known) by {
      assert id in Latest(second);
    }
    assert other in s.pending && other !in Latest(second);
    EnqueueKeepsViewIff(s, second, known);
  }
}
