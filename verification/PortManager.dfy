/**
  The port manager as the gateway runs it: the two channels and the configuration file, changed in
  place by methods that undo their change when the file cannot be written.  Whether a port opens, a
  device answers and a write succeeds are inputs.
 */
module PortManagers {
  import opened PortRegistry
  import opened PortExport
  import opened Wrappers
  import opened Thresholds

  function PortsUpTo(channels: seq<Channel>, n: nat): seq<SavedPort>
    requires n <= |channels|
  {
    if n == 0 then [] else PortsUpTo(channels, n - 1) + SavedPortOf(n - 1, channels[n - 1])
  }

  function ItemsUpTo(channels: seq<Channel>, n: nat): seq<SavedDevice>
    requires n <= |channels|
  {
    if n == 0 then [] else ItemsUpTo(channels, n - 1) + SavedAll(n - 1, channels[n - 1].devices)
  }

  lemma AllUpTo(channels: seq<Channel>)
    requires |channels| == SLOT_COUNT
    ensures PortsUpTo(channels, SLOT_COUNT) == SavedPortOf(0, channels[0]) + SavedPortOf(1, channels[1])
    ensures ItemsUpTo(channels, SLOT_COUNT) == SavedAll(0, channels[0].devices) + SavedAll(1, channels[1].devices)
  {
    assert PortsUpTo(channels, 1) == SavedPortOf(0, channels[0]);
    assert ItemsUpTo(channels, 1) == SavedAll(0, channels[0].devices);
  }

  class PortManager {
    const channels: array<Channel>
    var file: Option<ConfigFile>

    ghost predicate Valid()
      reads this
    {
      channels.Length == SLOT_COUNT
    }

    ghost function State(): (r: Registry)
      requires Valid()
      reads this, channels
      ensures |r.channels| == SLOT_COUNT
    {
      Registry(channels[..], file)
    }

    constructor (saved: Option<ConfigFile>)
      ensures Valid() && fresh(channels) && State() == Registry([CLOSED, CLOSED], saved)
    {
      channels := new Channel[SLOT_COUNT](_ => CLOSED);
      file := saved;
    }

    method FindDevice(slot: int, slaveId: int) returns (i: nat)
      requires Valid() && ValidSlot(slot)
      ensures i == IndexOf(channels[slot].devices, slaveId)
    {
      var ds := channels[slot].devices;
      i := 0;
      while i < |ds| && ds[i].slaveId != slaveId
        invariant i <= |ds|
        invariant forall j :: 0 <= j < i ==> ds[j].slaveId != slaveId
      {
        i := i + 1;
      }
    }

    /** Replaces the file by the whole registry; on failure the file stays as it was. */
    method WriteConfigLocked(writeOk: bool)
      requires Valid()
      modifies this`file
      ensures State() == Write(old(State()), writeOk)
    {
      ghost var r := State();
      var ports, items := [], [];
      for slot := 0 to SLOT_COUNT
        invariant State() == r
        invariant ports == PortsUpTo(r.channels, slot) && items == ItemsUpTo(r.channels, slot)
      {
        ports := ports + SavedPortOf(slot, channels[slot]);
        var saved := SaveDevices(slot);
        items := items + saved;
      }
      if writeOk {
        var root := ConfigFile(file.Some? && file.value.cacheEnabled, file.Some? && file.value.flushEnabled,
                               ports, items);
        AllUpTo(r.channels);
        assert root == FileOf(r);
        file := Some(root);
      }
    }

    method SaveDevices(slot: int) returns (items: seq<SavedDevice>)
      requires Valid() && ValidSlot(slot)
      ensures items == SavedAll(slot, channels[slot].devices)
    {
      var ds := channels[slot].devices;
      items := [];
      for i := 0 to |ds|
        invariant items + SavedAll(slot, ds[i..]) == SavedAll(slot, ds)
      {
        assert ds[i..][1..] == ds[i + 1..];
        items := items + [Saved(slot, ds[i])];
      }
    }

    method LoadDevicesForSlotLocked(slot: int)
      requires Valid() && ValidSlot(slot)
      modifies channels
      ensures State() == SetDevices(old(State()), slot,
                                    Load(old(channels[slot].devices), Items(file), slot, old(channels[slot].port)))
    {
      var items := Items(file);
      var port := channels[slot].port;
      for i := 0 to |items|
        invariant channels[..] == old(channels[..])[slot := old(channels[slot]).(devices := channels[slot].devices)]
        invariant Load(channels[slot].devices, items[i..], slot, port)
                       == Load(old(channels[slot].devices), items, slot, port)
      {
        assert items[i..][1..] == items[i + 1..];
        var ds := channels[slot].devices;
        channels[slot] := channels[slot].(devices := ds + Restored(ds, items[i], slot, port));
      }
    }

    method IsPortUsedByOtherSlot(slot: int, port: string) returns (used: bool)
      requires Valid()
      ensures used == PortUsedByOther(State(), slot, port)
    {
      for i := 0 to SLOT_COUNT
        invariant forall j :: 0 <= j < i ==> !(j != slot && channels[j].connected && channels[j].port == port)
      {
        if i != slot && channels[i].connected && channels[i].port == port {
          assert channels[..][i] == channels[i];
          return true;
        }
      }
      return false;
    }

    method ConnectPort(slot: int, port: string, baud: int, openOk: bool, writeOk: bool) returns (reason: Reason)
      requires Valid()
      modifies this`file, channels
      ensures (State(), reason) == Connect(old(State()), slot, port, baud, openOk, writeOk)
    {
      if !ValidSlot(slot) || port == "" || baud <= 0 {
        return InvalidRequest;
      }
      var used := IsPortUsedByOtherSlot(slot, port);
      if used {
        return PortAlreadyConnected;
      }
      channels[slot] := CLOSED;
      if !openOk {
        return OpenPortFailed;
      }
      channels[slot] := Channel(true, port, baud, []);
      LoadDevicesForSlotLocked(slot);
      assert State() == SetChannel(old(State()), slot, Channel(true, port, baud, Load([], Items(file), slot, port)));
      WriteConfigLocked(writeOk);
      reason := if writeOk then Done else ConfigWriteFailed;
    }

    method DisconnectPort(slot: int) returns (reason: Reason)
      requires Valid()
      modifies channels
      ensures (State(), reason) == Disconnect(old(State()), slot)
    {
      if !ValidSlot(slot) {
        return InvalidRequest;
      }
      if !channels[slot].connected {
        return NotConnected;
      }
      channels[slot] := channels[slot].(connected := false, devices := []);
      return Done;
    }

    method AddDeviceToSlot(slot: int, slaveId: int, typeName: string, intervalMs: int, threshold: Option<Threshold>,
                           online: bool, writeOk: bool) returns (reason: Reason)
      requires Valid()
      modifies this`file, channels
      ensures (State(), reason)
                  == AddDevice(old(State()), slot, slaveId, typeName, intervalMs, threshold, online, writeOk)
    {
      if !ValidSlot(slot) || slaveId <= 0 {
        return InvalidRequest;
      }
      var kind := ParseType(typeName);
      if kind.None? {
        return UnsupportedDeviceType;
      }
      if intervalMs < MIN_POLL_INTERVAL_MS {
        return InvalidArgument;
      }
      if !channels[slot].connected {
        return PortNotFound;
      }
      var ds := channels[slot].devices;
      var i := FindDevice(slot, slaveId);
      if i < |ds| {
        return SlaveAddressConflict;
      }
      if !online {
        return DeviceNoResponse;
      }
      channels[slot] := channels[slot].(devices := ds + [CreateDevice(kind.value, slaveId, intervalMs, threshold)]);
      WriteConfigLocked(writeOk);
      if !writeOk {
        channels[slot] := channels[slot].(devices := channels[slot].devices[..|ds|]);
        assert channels[..] == old(channels[..]);
        return ConfigWriteFailed;
      }
      return Done;
    }

    method SetDeviceThreshold(slot: int, slaveId: int, threshold: Threshold, writeOk: bool) returns (reason: Reason)
      requires Valid()
      modifies this`file, channels
      ensures (State(), reason) == SetThreshold(old(State()), slot, slaveId, threshold, writeOk)
    {
      if !ValidSlot(slot) || slaveId <= 0 {
        return InvalidRequest;
      }
      if !channels[slot].connected {
        return NotConnected;
      }
      var ds := channels[slot].devices;
      var i := FindDevice(slot, slaveId);
      if i == |ds| {
        return DeviceNotFound;
      }
      if ds[i].kind != SensorTh {
        return UnsupportedDeviceType;
      }
      var before := if ds[i].threshold.Some? then ds[i].threshold.value else ZERO_THRESHOLD;
      channels[slot] := channels[slot].(devices := ds[i := ds[i].(threshold := Some(threshold))]);
      WriteConfigLocked(writeOk);
      if !writeOk {
        channels[slot] := channels[slot].(devices := ds[i := ds[i].(threshold := Some(before))]);
        assert State() == SetDevices(old(State()), slot, ds[i := ds[i].(threshold := Some(before))]);
        return ConfigWriteFailed;
      }
      return Done;
    }

    method RemoveDeviceFromSlot(slot: int, slaveId: int, writeOk: bool) returns (reason: Reason)
      requires Valid()
      modifies this`file, channels
      ensures (State(), reason) == RemoveDevice(old(State()), slot, slaveId, writeOk)
    {
      if !ValidSlot(slot) || slaveId <= 0 {
        return InvalidRequest;
      }
      if !channels[slot].connected {
        return NotConnected;
      }
      var ds := channels[slot].devices;
      var i := FindDevice(slot, slaveId);
      if i == |ds| {
        return DeviceNotFound;
      }
      channels[slot] := channels[slot].(devices := ds[..i] + ds[i + 1..]);
      WriteConfigLocked(writeOk);
      if !writeOk {
        channels[slot] := channels[slot].(devices := channels[slot].devices + [ds[i]]);
        assert State() == SetDevices(old(State()), slot, ds[..i] + ds[i + 1..] + [ds[i]]);
        return ConfigWriteFailed;
      }
      return Done;
    }

    method SaveOfflineCacheConfig(cacheEnabled: bool, flushEnabled: bool, writeOk: bool)
      requires Valid()
      modifies this`file
      ensures State() == SaveCacheFlags(old(State()), cacheEnabled, flushEnabled, writeOk)
    {
      var root := if file.Some? then file.value else ConfigFile(false, false, [], []);
      root := root.(cacheEnabled := cacheEnabled, flushEnabled := flushEnabled);
      if writeOk {
        file := Some(root);
      }
    }

    method ExportConfigSnapshot(f: Filter) returns (ports: seq<ExportedPort>)
      requires Valid()
      ensures ports == Export(State(), f, SLOT_COUNT)
    {
      ports := [];
      for slot := 0 to SLOT_COUNT
        invariant ports == Export(State(), f, slot)
      {
        if f.AcceptsSlot(slot) {
          var port := ExportOneSlot(slot, f);
          ports := ports + [port];
        }
      }
    }

    method ExportOneSlot(slot: int, f: Filter) returns (port: ExportedPort)
      requires Valid() && ValidSlot(slot)
      ensures port == ExportSlot(State(), slot, f)
    {
      var c := channels[slot];
      var devices: seq<ExportedDevice> := [];
      for i := 0 to |c.devices|
        invariant devices == MemoryPart(c.devices[..i], slot, f)
      {
        assert c.devices[..i + 1][..i] == c.devices[..i];
        if f.AcceptsDevice(slot, c.devices[i].slaveId) {
          devices := devices + [FromItem(Saved(slot, c.devices[i]))];
        }
      }
      assert c.devices[..|c.devices|] == c.devices;
      var exported := Exported(devices);
      var items := Items(file);
      ghost var part := devices;
      for i := 0 to |items|
        invariant devices == part + SavedPart(items[..i], slot, f, exported)
      {
        assert items[..i + 1][..i] == items[..i];
        var item := items[i];
        if item.slot == slot && item.slaveId > 0 && f.AcceptsDevice(slot, item.slaveId) && item.slaveId !in exported {
          devices := devices + [FromItem(item)];
        }
      }
      assert items[..|items|] == items;
      port := ExportedPort(slot, c.port, c.baud, c.connected, devices);
    }
  }
}
