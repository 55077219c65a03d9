/**
  The configuration snapshot (exportConfigSnapshotJson): the devices in memory merged with those in
  the file, under an optional device filter.
 */
module PortExport {
  import opened PortRegistry
  import opened PortRegistryProofs
  import opened Wrappers
  import opened Thresholds

  /** The devices a request names; without any valid one the whole configuration is meant. */
  datatype Filter = Filter(devices: set<(int, int)>) {
    predicate HasDevices() { devices != {} }

    predicate AcceptsDevice(slot: int, slaveId: int) { !HasDevices() || (slot, slaveId) in devices }

    predicate AcceptsSlot(slot: int) { !HasDevices() || exists d :: d in devices && d.0 == slot }

    predicate NamesSlots() { forall d :: d in devices ==> ValidSlot(d.0) }
  }

  /** target lists the (slot, device) pairs of the request, -1 for an unknown port. */
  function ParseFilter(target: seq<(int, int)>): (f: Filter)
    ensures f.NamesSlots()
  {
    Filter(set d | d in target && ValidSlot(d.0) && d.1 > 0)
  }

  datatype ExportedDevice = ExportedDevice(slaveId: int, typeName: string, intervalMs: int,
                                           threshold: Option<ThresholdJson>)

  datatype ExportedPort = ExportedPort(slot: int, port: string, baud: int, connected: bool,
                                       devices: seq<ExportedDevice>)

  function FromItem(item: SavedDevice): ExportedDevice {
    ExportedDevice(item.slaveId, item.typeName, item.intervalMs, item.threshold)
  }

  function MemoryPart(ds: seq<Device>, slot: int, f: Filter): seq<ExportedDevice> {
    if ds == [] then []
    else MemoryPart(ds[..|ds| - 1], slot, f) +
         if f.AcceptsDevice(slot, ds[|ds| - 1].slaveId) then [FromItem(Saved(slot, ds[|ds| - 1]))] else []
  }

  function Exported(part: seq<ExportedDevice>): set<int> {
    set d | d in part :: d.slaveId
  }

  /** The saved devices of the slot that memory did not already contribute. */
  function SavedPart(items: seq<SavedDevice>, slot: int, f: Filter, exported: set<int>): seq<ExportedDevice> {
    if items == [] then []
    else
      var item := items[|items| - 1];
      SavedPart(items[..|items| - 1], slot, f, exported) +
      if item.slot == slot && item.slaveId > 0 && f.AcceptsDevice(slot, item.slaveId) && item.slaveId !in exported
      then [FromItem(item)] else []
  }

  function ExportSlot(r: Registry, slot: int, f: Filter): ExportedPort
    requires 0 <= slot < |r.channels|
  {
    var c := r.channels[slot];
    var part := MemoryPart(c.devices, slot, f);
    ExportedPort(slot, c.port, c.baud, c.connected, part + SavedPart(Items(r.file), slot, f, Exported(part)))
  }

  function Export(r: Registry, f: Filter, n: nat): seq<ExportedPort>
    requires n <= |r.channels|
  {
    if n == 0 then []
    else Export(r, f, n - 1) + if f.AcceptsSlot(n - 1) then [ExportSlot(r, n - 1, f)] else []
  }

  // ---------- What the snapshot lists ----------

  function ExportedEntry(d: ExportedDevice): Entry {
    Entry(d.typeName, d.intervalMs, if d.threshold.Some? then d.threshold.value else ToJson(ZERO_THRESHOLD))
  }

  ghost predicate Once(part: seq<ExportedDevice>) {
    forall i, j :: 0 <= i < j < |part| ==> part[i].slaveId != part[j].slaveId
  }

  /** part lists exactly the accepted devices of m, each once, with what m says about it. */
  ghost predicate Lists(part: seq<ExportedDevice>, m: map<int, Entry>, slot: int, f: Filter) {
    && Once(part)
    && (forall d :: d in part ==>
          d.slaveId in m && ExportedEntry(d) == m[d.slaveId] && f.AcceptsDevice(slot, d.slaveId))
    && forall id :: id in m && f.AcceptsDevice(slot, id) ==> exists d :: d in part && d.slaveId == id
  }

  lemma {:induction false} MemoryPartLists(ds: seq<Device>, slot: int, f: Filter)
    requires UniqueIds(ds)
    ensures Lists(MemoryPart(ds, slot, f), Contents(ds), slot, f)
  {
    if ds != [] {
      var pre, last := ds[..|ds| - 1], ds[|ds| - 1];
      MemoryPartLists(pre, slot, f);
      ContentsIds(pre);
      assert last.slaveId !in Contents(pre);
      ListsSnoc(MemoryPart(pre, slot, f), Contents(pre), slot, f, FromItem(Saved(slot, last)));
    }
  }

  lemma ListsSnoc(part: seq<ExportedDevice>, m: map<int, Entry>, slot: int, f: Filter, d: ExportedDevice)
    requires Lists(part, m, slot, f) && d.slaveId !in m
    ensures Lists(part + if f.AcceptsDevice(slot, d.slaveId) then [d] else [],
                  m[d.slaveId := ExportedEntry(d)], slot, f)
  {
    var out := part + if f.AcceptsDevice(slot, d.slaveId) then [d] else [];
    assert forall x :: x in part ==> x in out;
    assert f.AcceptsDevice(slot, d.slaveId) ==> d in out;
    forall id | id in m[d.slaveId := ExportedEntry(d)] && f.AcceptsDevice(slot, id)
      ensures exists x :: x in out && x.slaveId == id
    {
      if id == d.slaveId { assert d in out; }
    }
  }

  lemma {:induction false} SavedPartLists(items: seq<SavedDevice>, slot: int, f: Filter)
    requires ItemsOk(items)
    ensures Lists(SavedPart(items, slot, f, {}), FileContents(items, slot), slot, f)
  {
    if items != [] {
      var pre, last := items[..|items| - 1], items[|items| - 1];
      assert items == pre + [last] && last in items && ItemOk(last);
      PrefixItemsOk(pre, [last]);
      SavedPartLists(pre, slot, f);
      if last.slot == slot {
        NewItemIsNew(pre, last);
        ListsSnoc(SavedPart(pre, slot, f, {}), FileContents(pre, slot), slot, f, FromItem(last));
      }
    }
  }

  lemma {:induction false} NothingMore(items: seq<SavedDevice>, slot: int, f: Filter, exported: set<int>)
    requires forall id :: id in FileContents(items, slot) && f.AcceptsDevice(slot, id) ==> id in exported
    ensures SavedPart(items, slot, f, exported) == []
  {
    if items != [] {
      var pre, last := items[..|items| - 1], items[|items| - 1];
      assert items == pre + [last];
      FileContentsSnoc(pre, last, slot);
      NothingMore(pre, slot, f, exported);
    }
  }

  /** In every reachable state the snapshot lists, slot by slot, exactly the accepted devices that
      the file knows, each once and with the file's data. */
  lemma SnapshotListsFile(r: Registry, slot: int, f: Filter)
    requires Inv(r) && ValidSlot(slot)
    ensures Lists(ExportSlot(r, slot, f).devices, FileContents(Items(r.file), slot), slot, f)
  {
    var ds := r.channels[slot].devices;
    var part := MemoryPart(ds, slot, f);
    MemoryPartLists(ds, slot, f);
    if r.channels[slot].connected {
      assert forall id :: id in FileContents(Items(r.file), slot) && f.AcceptsDevice(slot, id) ==> id in Exported(part);
      NothingMore(Items(r.file), slot, f, Exported(part));
      assert part + [] == part;
    } else {
      assert part == [] && Exported(part) == {};
      SavedPartLists(Items(r.file), slot, f);
      assert [] + SavedPart(Items(r.file), slot, f, {}) == SavedPart(Items(r.file), slot, f, {});
    }
  }

  /** Exactly the ports the filter accepts are exported. */
  lemma {:induction false} ExportedPorts(r: Registry, f: Filter, n: nat)
    requires n <= |r.channels|
    ensures forall p :: (p in Export(r, f, n)
              <==> exists slot :: 0 <= slot < n && f.AcceptsSlot(slot) && p == ExportSlot(r, slot, f))
  {
    if n > 0 {
      ExportedPorts(r, f, n - 1);
      var rest, p := Export(r, f, n - 1), ExportSlot(r, n - 1, f);
      assert forall q :: q in rest + [p] <==> q in rest || q == p;
      assert rest + [] == rest;
    }
  }

  /** They come in slot order, each once. */
  lemma {:induction false} ExportedInOrder(r: Registry, f: Filter, n: nat)
    requires n <= |r.channels|
    ensures forall i, j :: 0 <= i < j < |Export(r, f, n)| ==> Export(r, f, n)[i].slot < Export(r, f, n)[j].slot
  {
    if n > 0 {
      ExportedPorts(r, f, n - 1);
      ExportedInOrder(r, f, n - 1);
      var rest := Export(r, f, n - 1);
      forall i | 0 <= i < |rest| ensures rest[i].slot < n - 1 {
        assert rest[i] in rest;
      }
    }
  }

  ghost predicate IsListed(r: Registry, slot: int, slaveId: int, f: Filter) {
    exists p :: p in Export(r, f, |r.channels|) && p.slot == slot && exists d :: d in p.devices && d.slaveId == slaveId
  }

  lemma ListedIff(r: Registry, slot: int, slaveId: int, f: Filter)
    requires Inv(r) && ValidSlot(slot) && f.NamesSlots()
    ensures IsListed(r, slot, slaveId, f) <==>
                slaveId in FileContents(Items(r.file), slot) && f.AcceptsDevice(slot, slaveId)
  {
    ExportedPorts(r, f, SLOT_COUNT);
    SnapshotListsFile(r, slot, f);
    var p := ExportSlot(r, slot, f);
    if slaveId in FileContents(Items(r.file), slot) && f.AcceptsDevice(slot, slaveId) {
      if f.HasDevices() { assert (slot, slaveId) in f.devices; }
      assert f.AcceptsSlot(slot) && p in Export(r, f, SLOT_COUNT);
    }
    if q :| q in Export(r, f, SLOT_COUNT) && q.slot == slot && exists d :: d in q.devices && d.slaveId == slaveId {
      assert q == p;
    }
  }

  /** A device just added is in the next snapshot; one just removed is not, in no snapshot. */
  lemma AddedIsListed(r: Registry, slot: int, id: int, typeName: string, interval: int, threshold: Option<Threshold>)
    requires Inv(r) && AddDevice(r, slot, id, typeName, interval, threshold, true, true).1 == Done
    ensures IsListed(AddDevice(r, slot, id, typeName, interval, threshold, true, true).0, slot, id, Filter({}))
  {
    var t := AddDevice(r, slot, id, typeName, interval, threshold, true, true).0;
    InvIsSane(r);
    AddKeepsSane(r, slot, id, typeName, interval, threshold, true, true);
    ListedIff(t, slot, id, Filter({}));
    ContentsIds(t.channels[slot].devices);
  }

  lemma RemovedIsNotListed(r: Registry, slot: int, id: int, f: Filter)
    requires Inv(r) && RemoveDevice(r, slot, id, true).1 == Done && f.NamesSlots()
    ensures !IsListed(RemoveDevice(r, slot, id, true).0, slot, id, f)
  {
    var t := RemoveDevice(r, slot, id, true).0;
    var ds := r.channels[slot].devices;
    InvIsSane(r);
    RemoveKeepsSane(r, slot, id, true);
    ListedIff(t, slot, id, f);
    ContentsRemove(ds, IndexOf(ds, id));
    assert SlotOk(t.channels[slot], slot, t.file);
  }

  /** What the caller of a device operation is told. */
  function Outcome(r: Registry, e: Event): Reason
    requires |r.channels| == SLOT_COUNT && (e.Add? || e.SetLimits? || e.Remove?)
  {
    match e
    case Add(slot, id, typeName, interval, threshold, online, writeOk) =>
      AddDevice(r, slot, id, typeName, interval, threshold, online, writeOk).1
    case SetLimits(slot, id, limits, writeOk) => SetThreshold(r, slot, id, limits, writeOk).1
    case Remove(slot, id, writeOk) => RemoveDevice(r, slot, id, writeOk).1
  }

  /** A change that is refused, or whose write fails, leaves every later snapshot as it was. */
  lemma FailedChangeIsInvisible(r: Registry, e: Event, slot: int, slaveId: int, f: Filter)
    requires Inv(r) && ValidSlot(slot) && f.NamesSlots()
    requires (e.Add? || e.SetLimits? || e.Remove?) && Outcome(r, e) != Done
    ensures IsListed(Step(r, e), slot, slaveId, f) <==> IsListed(r, slot, slaveId, f)
    ensures Contents(Step(r, e).channels[slot].devices) == Contents(r.channels[slot].devices)
  {
    var t := Step(r, e);
    StepKeepsInv(r, e);
    FailedChangeKeepsFile(r, e, slot);
    ListedIff(r, slot, slaveId, f);
    ListedIff(t, slot, slaveId, f);
    assert SlotOk(r.channels[slot], slot, r.file) && SlotOk(t.channels[slot], slot, t.file);
  }

  lemma FailedChangeKeepsFile(r: Registry, e: Event, slot: int)
    requires |r.channels| == SLOT_COUNT && ValidSlot(slot) && (e.Add? || e.SetLimits? || e.Remove?)
    requires Outcome(r, e) != Done
    ensures Step(r, e).file == r.file && Step(r, e).channels[slot].connected == r.channels[slot].connected
  {
  }

  /** A successful write keeps the saved devices of a slot if and only if the slot is connected or has
      none: those of a disconnected slot are forgotten. */
  lemma WriteKeepsSavedIff(r: Registry, slot: int)
    requires Inv(r) && ValidSlot(slot)
    ensures FileContents(Items(Write(r, true).file), slot) == FileContents(Items(r.file), slot)
       <==> r.channels[slot].connected || FileContents(Items(r.file), slot) == map[]
    ensures !r.channels[slot].connected ==> FileContents(Items(Write(r, true).file), slot) == map[]
  {
    InvIsSane(r);
    WrittenAgrees(r, slot);
    SlotAgrees(r, slot);
  }

  lemma SlotAgrees(r: Registry, slot: int)
    requires Inv(r) && ValidSlot(slot)
    ensures if r.channels[slot].connected then Contents(r.channels[slot].devices) == FileContents(Items(r.file), slot)
            else Contents(r.channels[slot].devices) == map[]
  {
    assert SlotOk(r.channels[slot], slot, r.file);
  }

  lemma WrittenAgrees(r: Registry, slot: int)
    requires Sane(r) && ValidSlot(slot)
    ensures FileContents(Items(Write(r, true).file), slot) == Contents(r.channels[slot].devices)
  {
    WriteAgrees(r);
  }

  /** A device is registered, its port disconnected, and another port connected: the file no longer
      knows the device. */
  lemma LosingRun(port: string, otherPort: string, id: int)
    requires port != "" && otherPort != "" && port != otherPort && id > 0
    ensures var es := [ConnectPort(0, port, 9600, true, true), Add(0, id, "relay", 1000, None, true, true),
                       DisconnectPort(0)];
            var t := Run(Registry([CLOSED, CLOSED], None), es);
            && id in FileContents(Items(t.file), 0)
            && FileContents(Items(Step(t, ConnectPort(1, otherPort, 9600, true, true)).file), 0) == map[]
  {
    var r0 := Registry([CLOSED, CLOSED], None);
    var connect, add := ConnectPort(0, port, 9600, true, true), Add(0, id, "relay", 1000, None, true, true);
    var es := [connect, add, DisconnectPort(0)];
    EveryRunAgrees(None, [connect, add]);
    EveryRunAgrees(None, es);
    RunThree(r0, connect, add, DisconnectPort(0));
    var added, t := Run(r0, [connect, add]), Run(r0, es);
    assert added == AddDevice(Step(r0, connect), 0, id, "relay", 1000, None, true, true).0;
    ContentsIds(added.channels[0].devices);
    assert SlotOk(added.channels[0], 0, added.file);
    WriteOnConnect(t, otherPort);
  }

  lemma RunNext(r: Registry, es: seq<Event>, e: Event)
    requires |r.channels| == SLOT_COUNT
    ensures Run(r, es + [e]) == Step(Run(r, es), e)
  {
    assert (es + [e])[..|es + [e]| - 1] == es;
  }

  lemma RunThree(r: Registry, a: Event, b: Event, c: Event)
    requires |r.channels| == SLOT_COUNT
    ensures Run(r, [a, b]) == Step(Step(r, a), b) && Run(r, [a, b, c]) == Step(Step(Step(r, a), b), c)
  {
    RunNext(r, [], a);
    RunNext(r, [] + [a], b);
    RunNext(r, [] + [a] + [b], c);
    assert [] + [a] + [b] == [a, b] && [] + [a] + [b] + [c] == [a, b, c];
  }

  lemma WriteOnConnect(r: Registry, port: string)
    requires Inv(r) && !r.channels[0].connected && port != ""
    ensures FileContents(Items(Step(r, ConnectPort(1, port, 9600, true, true)).file), 0) == map[]
  {
    var c := Channel(true, port, 9600, Load([], Items(r.file), 1, port));
    UnwrittenConnectKeepsInv(r, 1, port, 9600, true);
    WriteKeepsSavedIff(SetChannel(r, 1, c), 0);
  }
}
