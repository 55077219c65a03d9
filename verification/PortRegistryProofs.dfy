/** The registry's memory and its file never disagree about a connected slot. */
module PortRegistryProofs {
  import opened PortRegistry
  import opened Wrappers
  import opened Thresholds

  // ---------- What memory and file say about a slot ----------

  /** What is said about one device: absent thresholds count as all-zero ones. */
  datatype Entry = Entry(typeName: string, intervalMs: int, threshold: ThresholdJson)

  function EntryOf(item: SavedDevice): Entry {
    Entry(item.typeName, item.intervalMs, if item.threshold.Some? then item.threshold.value else ToJson(ZERO_THRESHOLD))
  }

  /** The devices in memory, by address. */
  function Contents(ds: seq<Device>): map<int, Entry> {
    if ds == [] then map[] else Contents(ds[..|ds| - 1])[ds[|ds| - 1].slaveId := EntryOf(Saved(0, ds[|ds| - 1]))]
  }

  /** The file's devices of one slot, by address. */
  function FileContents(items: seq<SavedDevice>, slot: int): map<int, Entry> {
    if items == [] then map[]
    else
      var rest := FileContents(items[..|items| - 1], slot);
      var item := items[|items| - 1];
      if item.slot == slot then rest[item.slaveId := EntryOf(item)] else rest
  }

  predicate DeviceOk(d: Device) {
    d.slaveId > 0 && d.intervalMs >= MIN_POLL_INTERVAL_MS && (d.kind == Relay ==> d.threshold.None?)
  }

  ghost predicate UniqueIds(ds: seq<Device>) {
    forall i, j :: 0 <= i < j < |ds| ==> ds[i].slaveId != ds[j].slaveId
  }

  ghost predicate DevicesOk(ds: seq<Device>) {
    UniqueIds(ds) && forall d :: d in ds ==> DeviceOk(d)
  }

  predicate ItemOk(item: SavedDevice) {
    && ValidSlot(item.slot) && item.port == "" && item.slaveId > 0 && item.intervalMs >= MIN_POLL_INTERVAL_MS
    && ParseType(item.typeName).Some? && (item.typeName == "relay" ==> item.threshold.None?)
  }

  /** A file as the registry itself writes it. */
  ghost predicate ItemsOk(items: seq<SavedDevice>) {
    && (forall item :: item in items ==> ItemOk(item))
    && forall i, j :: 0 <= i < j < |items| ==> (items[i].slot, items[i].slaveId) != (items[j].slot, items[j].slaveId)
  }

  ghost predicate SlotOk(c: Channel, slot: int, file: Option<ConfigFile>) {
    if c.connected then DevicesOk(c.devices) && Contents(c.devices) == FileContents(Items(file), slot)
    else c.devices == []
  }

  /** Memory alone: what holds whatever file the registry started from. */
  ghost predicate Sane(r: Registry) {
    && |r.channels| == SLOT_COUNT
    && (forall i :: 0 <= i < SLOT_COUNT ==> DevicesOk(r.channels[i].devices))
    && (forall i :: 0 <= i < SLOT_COUNT && !r.channels[i].connected ==> r.channels[i].devices == [])
  }

  ghost predicate Inv(r: Registry) {
    && |r.channels| == SLOT_COUNT
    && ItemsOk(Items(r.file))
    && SlotOk(r.channels[0], 0, r.file) && SlotOk(r.channels[1], 1, r.file)
  }

  // ---------- Contents of lists ----------

  lemma ContentsSnoc(ds: seq<Device>, d: Device)
    ensures Contents(ds + [d]) == Contents(ds)[d.slaveId := EntryOf(Saved(0, d))]
  {
    assert (ds + [d])[..|ds + [d]| - 1] == ds;
  }

  lemma FileContentsSnoc(items: seq<SavedDevice>, item: SavedDevice, slot: int)
    ensures FileContents(items + [item], slot) ==
            if item.slot == slot then FileContents(items, slot)[item.slaveId := EntryOf(item)]
            else FileContents(items, slot)
  {
    assert (items + [item])[..|items + [item]| - 1] == items;
  }

  lemma {:induction false} FileContentsMember(items: seq<SavedDevice>, slot: int)
    requires ItemsOk(items)
    ensures forall m :: m in items && m.slot == slot ==>
              m.slaveId in FileContents(items, slot) && FileContents(items, slot)[m.slaveId] == EntryOf(m)
    ensures forall id :: id in FileContents(items, slot) ==> exists m :: m in items && m.slot == slot && m.slaveId == id
  {
    if items != [] {
      var pre, last := items[..|items| - 1], items[|items| - 1];
      assert items == pre + [last];
      FileContentsMember(pre, slot);
      forall m | m in pre && m.slot == last.slot ensures m.slaveId != last.slaveId {}
    }
  }

  lemma {:induction false} ContentsUpdate(ds: seq<Device>, i: nat, d: Device)
    requires i < |ds| && UniqueIds(ds) && d.slaveId == ds[i].slaveId
    ensures Contents(ds[i := d]) == Contents(ds)[d.slaveId := EntryOf(Saved(0, d))]
  {
    var n := |ds| - 1;
    var pre, last := ds[..n], ds[n];
    if i == n {
      assert ds[i := d][..n] == pre;
    } else {
      ContentsUpdate(pre, i, d);
      assert ds[i := d][..n] == pre[i := d];
    }
  }

  lemma AddRemove(m: map<int, Entry>, id: int, e: Entry)
    requires id !in m
    ensures m[id := e] - {id} == m
  {
  }

  lemma RemoveElsewhere(m: map<int, Entry>, id: int, e: Entry, other: int)
    requires id != other
    ensures (m - {other})[id := e] == m[id := e] - {other}
  {
  }

  lemma LastIsNew(ds: seq<Device>)
    requires ds != [] && UniqueIds(ds)
    ensures ds[|ds| - 1].slaveId !in Contents(ds[..|ds| - 1])
  {
    ContentsIds(ds[..|ds| - 1]);
  }

  lemma {:induction false} ContentsRemove(ds: seq<Device>, i: nat)
    requires i < |ds| && UniqueIds(ds)
    ensures Contents(ds[..i] + ds[i + 1..]) == Contents(ds) - {ds[i].slaveId}
  {
    var n := |ds| - 1;
    var pre, last := ds[..n], ds[n];
    var e := EntryOf(Saved(0, last));
    if i == n {
      assert ds[..i] + ds[i + 1..] == pre;
      LastIsNew(ds);
      AddRemove(Contents(pre), last.slaveId, e);
    } else {
      ContentsRemove(pre, i);
      assert ds[..i] + ds[i + 1..] == pre[..i] + pre[i + 1..] + [last];
      ContentsSnoc(pre[..i] + pre[i + 1..], last);
      assert ds[i].slaveId != last.slaveId;
      RemoveElsewhere(Contents(pre), last.slaveId, e, ds[i].slaveId);
    }
  }

  lemma {:induction false} ContentsIds(ds: seq<Device>)
    ensures forall id :: id in Contents(ds) <==> exists d :: d in ds && d.slaveId == id
  {
    if ds != [] {
      var pre, last := ds[..|ds| - 1], ds[|ds| - 1];
      assert ds == pre + [last];
      ContentsIds(pre);
    }
  }

  // ---------- Writing and loading ----------

  lemma {:induction false} SavedAllContents(slot: int, ds: seq<Device>, other: int)
    ensures FileContents(SavedAll(slot, ds), other) == if other == slot then Contents(ds) else map[]
  {
    if ds != [] {
      var pre, last := ds[..|ds| - 1], ds[|ds| - 1];
      SavedAllContents(slot, pre, other);
      SavedAllSnoc(slot, pre, last);
      assert ds == pre + [last];
      FileContentsSnoc(SavedAll(slot, pre), Saved(slot, last), other);
    }
  }

  lemma {:induction false} SavedAllSnoc(slot: int, ds: seq<Device>, d: Device)
    ensures SavedAll(slot, ds + [d]) == SavedAll(slot, ds) + [Saved(slot, d)]
  {
    if ds == [] {
      assert [] + [d] == [d];
    } else {
      assert (ds + [d])[1..] == ds[1..] + [d];
      SavedAllSnoc(slot, ds[1..], d);
    }
  }

  lemma {:induction false} SavedAllAt(slot: int, ds: seq<Device>)
    ensures |SavedAll(slot, ds)| == |ds| && forall i :: 0 <= i < |ds| ==> SavedAll(slot, ds)[i] == Saved(slot, ds[i])
  {
    if ds != [] { SavedAllAt(slot, ds[1..]); }
  }

  lemma {:induction false} FileContentsConcat(a: seq<SavedDevice>, b: seq<SavedDevice>, slot: int)
    ensures FileContents(a + b, slot) == FileContents(a, slot) + FileContents(b, slot)
  {
    if b == [] {
      assert a + b == a;
    } else {
      var pre, last := b[..|b| - 1], b[|b| - 1];
      FileContentsConcat(a, pre, slot);
      assert a + b == a + pre + [last] && b == pre + [last];
      FileContentsSnoc(a + pre, last, slot);
      FileContentsSnoc(pre, last, slot);
    }
  }

  lemma SavedItemsOk(a: seq<Device>, b: seq<Device>)
    requires DevicesOk(a) && DevicesOk(b)
    ensures ItemsOk(SavedAll(0, a) + SavedAll(1, b))
  {
    SavedAllAt(0, a);
    SavedAllAt(1, b);
    var items := SavedAll(0, a) + SavedAll(1, b);
    forall i | 0 <= i < |items| ensures ItemOk(items[i]) {
      if i < |a| { assert DeviceOk(a[i]); } else { assert DeviceOk(b[i - |a|]); }
    }
    forall i, j | 0 <= i < j < |items| ensures (items[i].slot, items[i].slaveId) != (items[j].slot, items[j].slaveId) {
      if j < |a| {
        assert items[i] == Saved(0, a[i]) && items[j] == Saved(0, a[j]);
      } else if i >= |a| {
        assert items[i] == Saved(1, b[i - |a|]) && items[j] == Saved(1, b[j - |a|]);
      }
    }
  }

  /** A successful write leaves a clean file that says of every slot what memory says. */
  lemma WriteAgrees(r: Registry)
    requires |r.channels| == SLOT_COUNT && DevicesOk(r.channels[0].devices) && DevicesOk(r.channels[1].devices)
    ensures ItemsOk(FileOf(r).devices)
    ensures FileContents(FileOf(r).devices, 0) == Contents(r.channels[0].devices)
    ensures FileContents(FileOf(r).devices, 1) == Contents(r.channels[1].devices)
  {
    var a, b := r.channels[0].devices, r.channels[1].devices;
    SavedItemsOk(a, b);
    FileContentsConcat(SavedAll(0, a), SavedAll(1, b), 0);
    FileContentsConcat(SavedAll(0, a), SavedAll(1, b), 1);
    SavedAllContents(0, a, 0);
    SavedAllContents(0, a, 1);
    SavedAllContents(1, b, 0);
    SavedAllContents(1, b, 1);
  }

  /** Loading a clean file restores exactly the slot's entries. */
  lemma {:induction false} LoadAgrees(ds: seq<Device>, done: seq<SavedDevice>, items: seq<SavedDevice>,
                                      slot: int, port: string)
    requires ItemsOk(done + items) && ValidSlot(slot) && DevicesOk(ds) && Contents(ds) == FileContents(done, slot)
    ensures var out := Load(ds, items, slot, port);
            DevicesOk(out) && Contents(out) == FileContents(done + items, slot)
    decreases |items|
  {
    if items == [] {
      assert done + items == done;
    } else {
      var item := items[0];
      assert done + items == done + [item] + items[1..];
      assert (done + items)[|done|] == item;
      FileContentsSnoc(done, item, slot);
      PrefixItemsOk(done + [item], items[1..]);
      RestoredAgrees(ds, done, item, slot, port);
      LoadAgrees(ds + Restored(ds, item, slot, port), done + [item], items[1..], slot, port);
    }
  }

  lemma LoadAllAgrees(items: seq<SavedDevice>, slot: int, port: string)
    requires ItemsOk(items) && ValidSlot(slot)
    ensures DevicesOk(Load([], items, slot, port)) && Contents(Load([], items, slot, port)) == FileContents(items, slot)
  {
    assert [] + items == items;
    LoadAgrees([], [], items, slot, port);
  }

  lemma RestoredAgrees(ds: seq<Device>, done: seq<SavedDevice>, item: SavedDevice, slot: int, port: string)
    requires ItemsOk(done + [item]) && DevicesOk(ds) && Contents(ds) == FileContents(done, slot)
    ensures var out := ds + Restored(ds, item, slot, port);
            DevicesOk(out) && Contents(out) == FileContents(done + [item], slot)
  {
    FileContentsSnoc(done, item, slot);
    assert item in done + [item] && ItemOk(item);
    if item.slot == slot {
      NewItemIsNew(done, item);
      HasIff(ds, item.slaveId);
      var d := Restored(ds, item, slot, port)[0];
      ContentsSnoc(ds, d);
      if item.threshold.Some? { JsonRoundTrip(item.threshold.value, ZERO_THRESHOLD); }
    } else {
      assert ds + [] == ds;
    }
  }

  lemma NewItemIsNew(done: seq<SavedDevice>, item: SavedDevice)
    requires ItemsOk(done + [item])
    ensures item.slaveId !in FileContents(done, item.slot)
  {
    var all := done + [item];
    PrefixItemsOk(done, [item]);
    FileContentsMember(done, item.slot);
    forall m | m in done && m.slot == item.slot ensures m.slaveId != item.slaveId {
      var i :| 0 <= i < |done| && done[i] == m;
      assert all[i] == m && all[|done|] == item;
    }
  }

  lemma HasIff(ds: seq<Device>, slaveId: int)
    ensures Has(ds, slaveId) <==> slaveId in Contents(ds)
  {
    ContentsIds(ds);
    if Has(ds, slaveId) { assert ds[IndexOf(ds, slaveId)] in ds; }
  }

  lemma PrefixItemsOk(a: seq<SavedDevice>, b: seq<SavedDevice>)
    requires ItemsOk(a + b)
    ensures ItemsOk(a)
  {
    assert forall i :: 0 <= i < |a| ==> (a + b)[i] == a[i];
  }

  // ---------- What every operation keeps, whatever the file ----------

  lemma {:induction false} LoadIsOk(ds: seq<Device>, items: seq<SavedDevice>, slot: int, port: string)
    requires DevicesOk(ds)
    ensures DevicesOk(Load(ds, items, slot, port))
    decreases |items|
  {
    if items != [] {
      var more := Restored(ds, items[0], slot, port);
      assert more == [] ==> ds + more == ds;
      LoadIsOk(ds + more, items[1..], slot, port);
    }
  }

  lemma WrittenInv(r: Registry)
    requires Sane(r)
    ensures Inv(Write(r, true)) && Sane(Write(r, true))
  {
    WriteAgrees(r);
  }

  lemma SetDevicesSane(r: Registry, slot: int, ds: seq<Device>)
    requires Sane(r) && ValidSlot(slot) && r.channels[slot].connected && DevicesOk(ds)
    ensures Sane(SetDevices(r, slot, ds)) && Inv(Write(SetDevices(r, slot, ds), true))
    ensures Sane(Write(SetDevices(r, slot, ds), true))
  {
    WrittenInv(SetDevices(r, slot, ds));
  }

  lemma ConnectKeepsSane(r: Registry, slot: int, port: string, baud: int, openOk: bool, writeOk: bool)
    requires Sane(r)
    ensures var out := Connect(r, slot, port, baud, openOk, writeOk);
            Sane(out.0) && (out.1 == Done ==> Inv(out.0))
  {
    if ValidSlot(slot) && openOk {
      var ds := Load([], Items(r.file), slot, port);
      LoadIsOk([], Items(r.file), slot, port);
      WrittenInv(SetChannel(r, slot, Channel(true, port, baud, ds)));
    }
  }

  lemma AddKeepsSane(r: Registry, slot: int, id: int, typeName: string, interval: int,
                     threshold: Option<Threshold>, online: bool, writeOk: bool)
    requires Sane(r)
    ensures var out := AddDevice(r, slot, id, typeName, interval, threshold, online, writeOk);
            if out.1 == Done then Sane(out.0) && Inv(out.0) else out.0 == r
  {
    if AddDevice(r, slot, id, typeName, interval, threshold, online, writeOk).1 == Done {
      var ds := r.channels[slot].devices;
      var d := CreateDevice(ParseType(typeName).value, id, interval, threshold);
      assert forall x :: x in ds + [d] ==> x in ds || x == d;
      SetDevicesSane(r, slot, ds + [d]);
    }
  }

  lemma {:induction false} ContentsAt(ds: seq<Device>, i: nat)
    requires i < |ds| && UniqueIds(ds)
    ensures ds[i].slaveId in Contents(ds) && Contents(ds)[ds[i].slaveId] == EntryOf(Saved(0, ds[i]))
  {
    if i < |ds| - 1 { ContentsAt(ds[..|ds| - 1], i); }
  }

  lemma ReplaceAgrees(ds: seq<Device>, i: nat, d: Device)
    requires DevicesOk(ds) && i < |ds| && d.slaveId == ds[i].slaveId && DeviceOk(d)
    ensures DevicesOk(ds[i := d])
    ensures EntryOf(Saved(0, d)) == EntryOf(Saved(0, ds[i])) ==> Contents(ds[i := d]) == Contents(ds)
  {
    assert forall x :: x in ds[i := d] ==> x in ds || x == d;
    ContentsUpdate(ds, i, d);
    ContentsAt(ds, i);
  }

  lemma MoveToEndAgrees(ds: seq<Device>, i: nat)
    requires DevicesOk(ds) && i < |ds|
    ensures var rest := ds[..i] + ds[i + 1..];
            DevicesOk(rest) && DevicesOk(rest + [ds[i]]) && Contents(rest + [ds[i]]) == Contents(ds)
  {
    var rest := ds[..i] + ds[i + 1..];
    ContentsRemove(ds, i);
    ContentsAt(ds, i);
    ContentsSnoc(rest, ds[i]);
    assert Contents(rest + [ds[i]]) == Contents(ds);
    assert ds[i] in ds && forall x :: x in rest ==> x in ds;
  }

  lemma SetThresholdKeepsSane(r: Registry, slot: int, id: int, limits: Threshold, writeOk: bool)
    requires Sane(r)
    ensures var out := SetThreshold(r, slot, id, limits, writeOk);
            Sane(out.0) && (out.1 == Done ==> Inv(out.0))
  {
    var reason := SetThreshold(r, slot, id, limits, writeOk).1;
    if reason == Done || reason == ConfigWriteFailed {
      var ds := r.channels[slot].devices;
      var i := IndexOf(ds, id);
      assert ds[i] in ds && DeviceOk(ds[i]);
      var before := if ds[i].threshold.Some? then ds[i].threshold.value else ZERO_THRESHOLD;
      var d := ds[i].(threshold := Some(if writeOk then limits else before));
      ReplaceAgrees(ds, i, d);
      SetDevicesSane(r, slot, ds[i := d]);
    }
  }

  lemma RemovalSane(r: Registry, slot: int, i: nat)
    requires Sane(r) && ValidSlot(slot) && r.channels[slot].connected && i < |r.channels[slot].devices|
    ensures var ds := r.channels[slot].devices;
            var rest := ds[..i] + ds[i + 1..];
            && Sane(Write(SetDevices(r, slot, rest), true)) && Inv(Write(SetDevices(r, slot, rest), true))
            && Sane(SetDevices(r, slot, rest + [ds[i]]))
  {
    var ds := r.channels[slot].devices;
    var rest := ds[..i] + ds[i + 1..];
    MoveToEndAgrees(ds, i);
    SetDevicesSane(r, slot, rest);
    SetDevicesSane(r, slot, rest + [ds[i]]);
  }

  lemma RemoveKeepsSane(r: Registry, slot: int, id: int, writeOk: bool)
    requires Sane(r)
    ensures var out := RemoveDevice(r, slot, id, writeOk);
            Sane(out.0) && (out.1 == Done ==> Inv(out.0))
  {
    var reason := RemoveDevice(r, slot, id, writeOk).1;
    if reason == Done || reason == ConfigWriteFailed {
      RemovalSane(r, slot, IndexOf(r.channels[slot].devices, id));
    }
  }

  /** The event replaced the file by what memory says. */
  predicate Written(r: Registry, e: Event)
    requires |r.channels| == SLOT_COUNT
  {
    match e
    case ConnectPort(slot, port, baud, openOk, writeOk) => Connect(r, slot, port, baud, openOk, writeOk).1 == Done
    case DisconnectPort(_) => false
    case Add(slot, id, typeName, interval, threshold, online, writeOk) =>
      AddDevice(r, slot, id, typeName, interval, threshold, online, writeOk).1 == Done
    case SetLimits(slot, id, limits, writeOk) => SetThreshold(r, slot, id, limits, writeOk).1 == Done
    case Remove(slot, id, writeOk) => RemoveDevice(r, slot, id, writeOk).1 == Done
    case SaveFlags(_, _, _) => false
  }

  lemma StepKeepsSane(r: Registry, e: Event)
    requires Sane(r)
    ensures Sane(Step(r, e)) && (Written(r, e) ==> Inv(Step(r, e)))
  {
    match e
    case ConnectPort(slot, port, baud, openOk, writeOk) => ConnectKeepsSane(r, slot, port, baud, openOk, writeOk);
    case DisconnectPort(slot) =>
    case Add(slot, id, typeName, interval, threshold, online, writeOk) =>
      AddKeepsSane(r, slot, id, typeName, interval, threshold, online, writeOk);
    case SetLimits(slot, id, limits, writeOk) => SetThresholdKeepsSane(r, slot, id, limits, writeOk);
    case Remove(slot, id, writeOk) => RemoveKeepsSane(r, slot, id, writeOk);
    case SaveFlags(_, _, _) =>
  }

  // ---------- Every operation keeps memory and file in agreement ----------

  lemma InvIsSane(r: Registry)
    requires Inv(r)
    ensures Sane(r)
  {
    forall i | 0 <= i < SLOT_COUNT ensures SlotOk(r.channels[i], i, r.file) {}
  }

  /** Other devices that say the same of their slot. */
  lemma ReplacedInv(r: Registry, slot: int, ds: seq<Device>)
    requires Inv(r) && ValidSlot(slot) && r.channels[slot].connected
    requires DevicesOk(ds) && Contents(ds) == Contents(r.channels[slot].devices)
    ensures Inv(SetDevices(r, slot, ds))
  {
    assert SlotOk(r.channels[slot], slot, r.file);
  }

  lemma UnwrittenConnectKeepsInv(r: Registry, slot: int, port: string, baud: int, openOk: bool)
    requires Inv(r)
    ensures Inv(Connect(r, slot, port, baud, openOk, false).0)
  {
    if ValidSlot(slot) && openOk {
      LoadAllAgrees(Items(r.file), slot, port);
      var c := Channel(true, port, baud, Load([], Items(r.file), slot, port));
      assert SlotOk(c, slot, r.file);
    }
  }

  lemma UnwrittenThresholdKeepsInv(r: Registry, slot: int, id: int, limits: Threshold)
    requires Inv(r) && SetThreshold(r, slot, id, limits, false).1 == ConfigWriteFailed
    ensures Inv(SetThreshold(r, slot, id, limits, false).0)
  {
    var ds := r.channels[slot].devices;
    var i := IndexOf(ds, id);
    assert SlotOk(r.channels[slot], slot, r.file) && ds[i] in ds && DeviceOk(ds[i]);
    var d := ds[i].(threshold := Some(if ds[i].threshold.Some? then ds[i].threshold.value else ZERO_THRESHOLD));
    ReplaceAgrees(ds, i, d);
    ReplacedInv(r, slot, ds[i := d]);
  }

  lemma UnwrittenRemovalKeepsInv(r: Registry, slot: int, id: int)
    requires Inv(r) && RemoveDevice(r, slot, id, false).1 == ConfigWriteFailed
    ensures Inv(RemoveDevice(r, slot, id, false).0)
  {
    var ds := r.channels[slot].devices;
    var i := IndexOf(ds, id);
    assert SlotOk(r.channels[slot], slot, r.file);
    MoveToEndAgrees(ds, i);
    ReplacedInv(r, slot, ds[..i] + ds[i + 1..] + [ds[i]]);
  }

  lemma StepKeepsInv(r: Registry, e: Event)
    requires Inv(r)
    ensures Inv(Step(r, e))
  {
    InvIsSane(r);
    if Written(r, e) {
      StepKeepsSane(r, e);
    } else {
      UnwrittenKeepsInv(r, e);
    }
  }

  lemma UnwrittenKeepsInv(r: Registry, e: Event)
    requires Inv(r) && !Written(r, e)
    ensures Inv(Step(r, e))
  {
    match e
    case ConnectPort(slot, port, baud, openOk, writeOk) => UnwrittenConnectKeepsInv(r, slot, port, baud, openOk);
    case DisconnectPort(slot) =>
    case Add(_, _, _, _, _, _, _) => assert Step(r, e) == r;
    case SetLimits(slot, id, limits, writeOk) =>
      if SetThreshold(r, slot, id, limits, writeOk).1 == ConfigWriteFailed {
        UnwrittenThresholdKeepsInv(r, slot, id, limits);
      }
    case Remove(slot, id, writeOk) =>
      if RemoveDevice(r, slot, id, writeOk).1 == ConfigWriteFailed { UnwrittenRemovalKeepsInv(r, slot, id); }
    case SaveFlags(_, _, _) =>
  }

  /** Some event of the run replaced the file. */
  predicate AnyWritten(r: Registry, es: seq<Event>)
    requires |r.channels| == SLOT_COUNT
  {
    es != [] && (AnyWritten(r, es[..|es| - 1]) || Written(Run(r, es[..|es| - 1]), es[|es| - 1]))
  }

  /** Over every sequence of operations, with writes that may fail, and from any file: the devices of a
      slot have distinct positive addresses and legal intervals, a disconnected slot has none, and from
      the first successful write on, or from the start if the file is clean, the file says of a connected
      slot exactly what memory says. */
  lemma {:induction false} EveryRunAgrees(file: Option<ConfigFile>, es: seq<Event>)
    ensures var r := Registry([CLOSED, CLOSED], file);
            Sane(Run(r, es)) && (ItemsOk(Items(file)) || AnyWritten(r, es) ==> Inv(Run(r, es)))
  {
    if es != [] {
      var r := Registry([CLOSED, CLOSED], file);
      var pre := es[..|es| - 1];
      EveryRunAgrees(file, pre);
      StepKeepsSane(Run(r, pre), es[|es| - 1]);
      if ItemsOk(Items(file)) || AnyWritten(r, pre) { StepKeepsInv(Run(r, pre), es[|es| - 1]); }
    }
  }
}
