/**
  The gateway's port and device registry and its configuration file
  (Linux_data/port/port_manager.cpp): two serial channels, the devices on each, and the JSON file
  every change is written to.  This module is the specification, on values.
 */
module PortRegistry {
  import opened Wrappers
  import opened Thresholds

  const SLOT_COUNT := 2
  const MIN_POLL_INTERVAL_MS := 500

  // ---------- Devices and their thresholds ----------

  datatype Kind = SensorTh | Relay

  function ParseType(name: string): Option<Kind> {
    if name == "sensor_th" then Some(SensorTh) else if name == "relay" then Some(Relay) else None
  }

  function TypeName(k: Kind): string {
    match k case SensorTh => "sensor_th" case Relay => "relay"
  }

  datatype Device = Device(slaveId: int, kind: Kind, intervalMs: int, threshold: Option<Threshold>)

  /** createSensorDevice: a relay has no thresholds. */
  function CreateDevice(kind: Kind, slaveId: int, intervalMs: int, threshold: Option<Threshold>): Device {
    Device(slaveId, kind, intervalMs, if kind == SensorTh then threshold else None)
  }

  // ---------- The configuration file ----------

  /** A limit that is not set is written as null and its value is lost. */
  datatype PointJson = PointJson(enable: bool, low: Option<real>, high: Option<real>)

  datatype ThresholdJson = ThresholdJson(enabled: bool, temperature: PointJson, humidity: PointJson)

  function PointToJson(p: PointThreshold): PointJson {
    PointJson(p.enable, if p.hasLow then Some(p.low) else None, if p.hasHigh then Some(p.high) else None)
  }

  function ToJson(t: Threshold): ThresholdJson {
    ThresholdJson(t.enabled, PointToJson(t.temperature), PointToJson(t.humidity))
  }

  function PointFromJson(j: PointJson): PointThreshold {
    PointThreshold(j.enable, j.low.Some?, if j.low.Some? then j.low.value else 0.0,
                   j.high.Some?, if j.high.Some? then j.high.value else 0.0)
  }

  function FromJson(j: ThresholdJson): Threshold {
    Threshold(j.enabled, PointFromJson(j.temperature), PointFromJson(j.humidity))
  }

  lemma JsonRoundTrip(j: ThresholdJson, t: Threshold)
    ensures ToJson(FromJson(j)) == j
    ensures FromJson(ToJson(t)) == t <==>
            (t.temperature.hasLow || t.temperature.low == 0.0) &&
            (t.temperature.hasHigh || t.temperature.high == 0.0) &&
            (t.humidity.hasLow || t.humidity.low == 0.0) && (t.humidity.hasHigh || t.humidity.high == 0.0)
  {
  }

  /** An entry of devices[]; the port is "" when the entry names none. */
  datatype SavedDevice = SavedDevice(slot: int, port: string, slaveId: int, typeName: string, intervalMs: int,
                                     threshold: Option<ThresholdJson>)

  datatype SavedPort = SavedPort(slot: int, port: string, baud: int)

  datatype ConfigFile = ConfigFile(cacheEnabled: bool, flushEnabled: bool, ports: seq<SavedPort>,
                                   devices: seq<SavedDevice>)

  datatype Channel = Channel(connected: bool, port: string, baud: int, devices: seq<Device>)

  const CLOSED := Channel(false, "", 0, [])

  /** file is None while it is absent or does not parse. */
  datatype Registry = Registry(channels: seq<Channel>, file: Option<ConfigFile>)

  function Saved(slot: int, d: Device): SavedDevice {
    SavedDevice(slot, "", d.slaveId, TypeName(d.kind), d.intervalMs,
                if d.threshold.Some? then Some(ToJson(d.threshold.value)) else None)
  }

  function SavedAll(slot: int, ds: seq<Device>): seq<SavedDevice> {
    if ds == [] then [] else [Saved(slot, ds[0])] + SavedAll(slot, ds[1..])
  }

  function SavedPortOf(slot: int, c: Channel): seq<SavedPort> {
    if c.port != "" && c.baud > 0 then [SavedPort(slot, c.port, c.baud)] else []
  }

  function FileOf(r: Registry): ConfigFile
    requires |r.channels| == SLOT_COUNT
  {
    ConfigFile(r.file.Some? && r.file.value.cacheEnabled, r.file.Some? && r.file.value.flushEnabled,
               SavedPortOf(0, r.channels[0]) + SavedPortOf(1, r.channels[1]),
               SavedAll(0, r.channels[0].devices) + SavedAll(1, r.channels[1].devices))
  }

  /** writeConfigLocked: the whole registry replaces the file, or nothing happens. */
  function Write(r: Registry, writeOk: bool): Registry
    requires |r.channels| == SLOT_COUNT
  {
    if writeOk then r.(file := Some(FileOf(r))) else r
  }

  function Items(file: Option<ConfigFile>): seq<SavedDevice> {
    if file.Some? then file.value.devices else []
  }

  // ---------- Looking devices up, and loading them ----------

  /** Index of the device with the address, or the number of devices. */
  function IndexOf(ds: seq<Device>, slaveId: int): (i: nat)
    ensures i <= |ds|
    ensures i < |ds| ==> ds[i].slaveId == slaveId
    ensures forall j :: 0 <= j < i ==> ds[j].slaveId != slaveId
  {
    if ds == [] || ds[0].slaveId == slaveId then 0 else 1 + IndexOf(ds[1..], slaveId)
  }

  predicate Has(ds: seq<Device>, slaveId: int) {
    IndexOf(ds, slaveId) < |ds|
  }

  /** The device a file entry restores on the channel, if it may. */
  function Restored(ds: seq<Device>, item: SavedDevice, slot: int, port: string): seq<Device> {
    if item.slot != slot || (item.port != "" && item.port != port) ||
       item.slaveId <= 0 || item.intervalMs < MIN_POLL_INTERVAL_MS ||
       ParseType(item.typeName).None? || Has(ds, item.slaveId) then []
    else [CreateDevice(ParseType(item.typeName).value, item.slaveId, item.intervalMs,
                       if item.threshold.Some? then Some(FromJson(item.threshold.value)) else None)]
  }

  function Load(ds: seq<Device>, items: seq<SavedDevice>, slot: int, port: string): seq<Device>
    decreases |items|
  {
    if items == [] then ds else Load(ds + Restored(ds, items[0], slot, port), items[1..], slot, port)
  }

  // ---------- Operations ----------

  datatype Reason = Done | InvalidRequest | InvalidArgument | PortAlreadyConnected | OpenPortFailed | NotConnected |
    PortNotFound | UnsupportedDeviceType | SlaveAddressConflict | DeviceNoResponse | DeviceNotFound | ConfigWriteFailed

  predicate ValidSlot(slot: int) {
    0 <= slot < SLOT_COUNT
  }

  function SetChannel(r: Registry, slot: int, c: Channel): Registry
    requires 0 <= slot < |r.channels|
  {
    r.(channels := r.channels[slot := c])
  }

  function SetDevices(r: Registry, slot: int, ds: seq<Device>): Registry
    requires 0 <= slot < |r.channels|
  {
    SetChannel(r, slot, r.channels[slot].(devices := ds))
  }

  predicate PortUsedByOther(r: Registry, slot: int, port: string) {
    exists i :: 0 <= i < |r.channels| && i != slot && r.channels[i].connected && r.channels[i].port == port
  }

  function Connect(r: Registry, slot: int, port: string, baud: int, openOk: bool, writeOk: bool): (Registry, Reason)
    requires |r.channels| == SLOT_COUNT
  {
    if !ValidSlot(slot) || port == "" || baud <= 0 then (r, InvalidRequest)
    else if PortUsedByOther(r, slot, port) then (r, PortAlreadyConnected)
    else if !openOk then (SetChannel(r, slot, CLOSED), OpenPortFailed)
    else (Write(SetChannel(r, slot, Channel(true, port, baud, Load([], Items(r.file), slot, port))), writeOk),
          if writeOk then Done else ConfigWriteFailed)
  }

  /** Runtime only: the file, the port name and the baud rate stay. */
  function Disconnect(r: Registry, slot: int): (Registry, Reason)
    requires |r.channels| == SLOT_COUNT
  {
    if !ValidSlot(slot) then (r, InvalidRequest)
    else if !r.channels[slot].connected then (r, NotConnected)
    else (SetChannel(r, slot, r.channels[slot].(connected := false, devices := [])), Done)
  }

  function AddDevice(r: Registry, slot: int, slaveId: int, typeName: string, intervalMs: int,
                     threshold: Option<Threshold>, online: bool, writeOk: bool): (Registry, Reason)
    requires |r.channels| == SLOT_COUNT
  {
    if !ValidSlot(slot) || slaveId <= 0 then (r, InvalidRequest)
    else if ParseType(typeName).None? then (r, UnsupportedDeviceType)
    else if intervalMs < MIN_POLL_INTERVAL_MS then (r, InvalidArgument)
    else if !r.channels[slot].connected then (r, PortNotFound)
    else if Has(r.channels[slot].devices, slaveId) then (r, SlaveAddressConflict)
    else if !online then (r, DeviceNoResponse)
    else if !writeOk then (r, ConfigWriteFailed)
    else (Write(SetDevices(r, slot, r.channels[slot].devices +
                                    [CreateDevice(ParseType(typeName).value, slaveId, intervalMs, threshold)]), true),
          Done)
  }

  /** A failed write restores the old thresholds, or all-zero ones when there were none. */
  function SetThreshold(r: Registry, slot: int, slaveId: int, threshold: Threshold, writeOk: bool): (Registry, Reason)
    requires |r.channels| == SLOT_COUNT
  {
    if !ValidSlot(slot) || slaveId <= 0 then (r, InvalidRequest)
    else
      var ds := r.channels[slot].devices;
      var i := IndexOf(ds, slaveId);
      if !r.channels[slot].connected then (r, NotConnected)
      else if i == |ds| then (r, DeviceNotFound)
      else if ds[i].kind != SensorTh then (r, UnsupportedDeviceType)
      else if writeOk then (Write(SetDevices(r, slot, ds[i := ds[i].(threshold := Some(threshold))]), true), Done)
      else
        var before := if ds[i].threshold.Some? then ds[i].threshold.value else ZERO_THRESHOLD;
        (SetDevices(r, slot, ds[i := ds[i].(threshold := Some(before))]), ConfigWriteFailed)
  }

  /** A failed write puts the device back, at the end. */
  function RemoveDevice(r: Registry, slot: int, slaveId: int, writeOk: bool): (Registry, Reason)
    requires |r.channels| == SLOT_COUNT
  {
    if !ValidSlot(slot) || slaveId <= 0 then (r, InvalidRequest)
    else
      var ds := r.channels[slot].devices;
      var i := IndexOf(ds, slaveId);
      if !r.channels[slot].connected then (r, NotConnected)
      else if i == |ds| then (r, DeviceNotFound)
      else if writeOk then (Write(SetDevices(r, slot, ds[..i] + ds[i + 1..]), true), Done)
      else (SetDevices(r, slot, ds[..i] + ds[i + 1..] + [ds[i]]), ConfigWriteFailed)
  }

  /** Changes the two cache flags and keeps everything else in the file. */
  function SaveCacheFlags(r: Registry, cacheEnabled: bool, flushEnabled: bool, writeOk: bool): Registry {
    if !writeOk then r
    else r.(file := Some(if r.file.Some? then r.file.value.(cacheEnabled := cacheEnabled, flushEnabled := flushEnabled)
                         else ConfigFile(cacheEnabled, flushEnabled, [], [])))
  }

  datatype Event =
    | ConnectPort(slot: int, port: string, baud: int, openOk: bool, writeOk: bool)
    | DisconnectPort(slot: int)
    | Add(slot: int, slaveId: int, typeName: string, intervalMs: int, threshold: Option<Threshold>,
          online: bool, writeOk: bool)
    | SetLimits(slot: int, slaveId: int, limits: Threshold, writeOk: bool)
    | Remove(slot: int, slaveId: int, writeOk: bool)
    | SaveFlags(cacheEnabled: bool, flushEnabled: bool, writeOk: bool)

  function Step(r: Registry, e: Event): (t: Registry)
    requires |r.channels| == SLOT_COUNT
    ensures |t.channels| == SLOT_COUNT
  {
    match e
    case ConnectPort(slot, port, baud, openOk, writeOk) => Connect(r, slot, port, baud, openOk, writeOk).0
    case DisconnectPort(slot) => Disconnect(r, slot).0
    case Add(slot, id, typeName, interval, threshold, online, writeOk) =>
      AddDevice(r, slot, id, typeName, interval, threshold, online, writeOk).0
    case SetLimits(slot, id, limits, writeOk) => SetThreshold(r, slot, id, limits, writeOk).0
    case Remove(slot, id, writeOk) => RemoveDevice(r, slot, id, writeOk).0
    case SaveFlags(c, f, writeOk) => SaveCacheFlags(r, c, f, writeOk)
  }

  function Run(r: Registry, es: seq<Event>): (t: Registry)
    requires |r.channels| == SLOT_COUNT
    ensures |t.channels| == SLOT_COUNT
  {
    if es == [] then r else Step(Run(r, es[..|es| - 1]), es[|es| - 1])
  }
}
