# Verification model of the telemetry gateway

A Dafny model of the parts of the gateway-and-PC telemetry system that keep state, with proofs of what
they keep over every run. `dafny verify dfyconfig.toml` checks it.

Code that changes things step by step is a class or a method with loops, proved against a specification
on values; the lemmas about runs are about that specification.

| Files | Part of the system |
|---|---|
| ConfigSync, ConfigSyncProofs, ConfigSyncStore | the configuration-sync protocol: active message, eight-slot side queue, ACKs, retries, telemetry gate |
| OfflineStore, OfflineFlush, OfflineInterleaving, OfflineRefusals, OfflineSettling, OfflineOverlap, OfflineEviction, OfflinePolicy, OfflineQueue | the store-and-forward queue: SQL table, one flush, flushes that overlap, retry budget, eviction, sampling policy |
| PortRegistry, PortRegistryProofs, PortExport, PortManager, PollHealth | ports and devices with their configuration file, snapshot export, offline detection, poll timing |
| Thresholds, ThresholdAlarm | the two alarm latches of the temperature/humidity sensor |
| TelemetryIntake, TelemetryWriter, LatestPublisher | the PC pipeline: bounded queue, coalescing database writer, dirty-flag publisher |
| SlaveList | the touch panel's device list and its reconciliation with a snapshot |
| Framers, TextSearch, JsonText, JsonScan, Topics, DottedKeys, RelayBits, StatusCache | newline framers, JSON text, topics and port ids, keys, relay bits, the status cache |
| Wrappers | the option type |

Opening a port, a bus or database answer, a file write, the clock and the broker's replies are
parameters, so every statement holds for whatever they do.

## What does not hold

These claims fail in the code; each has a lemma with a failing input, and the condition under which the
code does meet it.

- A retry's new seq is always fresh: a message queued behind another one of its command must use a seq
  that was handed out before (`ForeignSeqCollides`, `ForeignSeqIff`).
- The acknowledged configuration version never exceeds the current one: only if ACKs name existing
  versions (`FutureAckOpensGate`, `StepKeepsAckedBoundIff`).
- The cache table holds at most 5000 rows: only if the rows of priority 2 and above fit and no eviction
  statement fails (`AlarmsExceedCapacity`, `CapacityIff`, `EveryRunKeepsBoundIff`).
- A cached message is delivered at most once: not when two flushes overlap, nor when its DELETE fails; only
  while no query answers with a row that another flush holds or that was accepted before
  (`OverlapSendsTwice`, `FailedDeleteSendsTwice`, `AtMostOnceIff`).
- A cached message is given up at its fifth refusal: overlapping flushes can take it to a sixth; only while
  queries leave room for every refusal still to come (`OverlapRefusesOnceMore`, `FifthIsLastIff`).
- A device is read at most once per interval: not when an earlier device of its slot is slow in the first
  of two turns (`RushedRead`, `ReadsApartIff`).
- Every humidity excursion is reported: not when temperature hides it (`HiddenExcursion`,
  `ExcursionReportedIff`).
- Coalescing writes equals writing each batch: only for batches that renew all pending points of their
  devices, since a save replaces a device's points, and for failing saves that would have brought nothing
  new (`PartialPackRun`, `TelemetryWriter.LosingRun`, `EveryInterleavingIsDirectIff`).
- The PC client ends up with the latest points: not when a reply is overtaken between its read and its
  send, nor when a greeting is cut short, nor when a device is removed while the publisher holds a snapshot
  that has it, nor when the reply to a removal is cut short or missing (`StaleReplyLosesUpdate`,
  `CutGreetingLosesUpdate`, `RemovedDeviceComesBack`, `CutRemovalLosesUpdate`,
  `UnansweredRemovalLosesUpdate`); an update is lost exactly when nobody is at work any more and the last
  delivery was read before the last change (`LostIff`).
- Reading JSON text back returns it: not for LF, CR and TAB (`ExtractDocument`), and on larger objects
  not when an earlier value looks like the key (`ExtractObject`, `DecoyAnswers`).
- Dotted keys are unique: only without dots in the leading ids (`DotsCollide`, `SampleKeyUniqueIff`,
  `PointIdUniqueIff`).
- A status change is always noticed: only for up to 64 devices (`LatecomerIsNeverReported`,
  `CacheIsExactIff`).
- Saved devices survive: not those of a disconnected slot when another slot's change is written
  (`PortExport.LosingRun`, `WriteKeepsSavedIff`).

Where code and documentation disagree the model follows the code. Rule 22 of the repository's README.md (line 660)
wants registrations and configuration snapshots cached while the broker is away; the cache policy rejects
them (`RegistrationsAreDropped`). Rule 19 (line 657) has a return to normal reported as an alarm event;
the sensor reports only the start of an excursion (`AlarmIff`). Rule 21 (line 659) has cached messages
sent in order; the order is by priority, then age (`InterleavedFlushesDeliverInOrder`).

## Model

| member | source | states |
|---|---|---|
| ConfigSyncProofs.RunKeepsInv | Linux_data/data/data_config_sync.c:114-504 | every run of mark-sent, publish, ACK and tick steps, from any good state and with seqs handed out before use, keeps the protocol invariant: a used queue slot implies an active item, no two tracked items share (seq, cmd), every tracked seq is at most the last one handed out, and the status is never "success" while something is active |
| ConfigSyncProofs.InitInv | Linux_data/data/data_config_sync.c:25-53 | the initial globals satisfy the invariant |
| ConfigSyncProofs.StepKeepsInv | Linux_data/data/data_config_sync.c:114-504 | each single operation keeps the invariant and advances the seq counter by at most one |
| ConfigSyncProofs.PromoteIsIdle | Linux_data/data/data_config_sync.c:162-178 | between operations the queue never waits without an active item, so a tick never has anything to promote |
| ConfigSyncProofs.TrackTracksIff | Linux_data/data/data_config_sync.c:119-160 | accepting a message makes exactly its (seq, cmd) tracked and forgets nothing; it is refused exactly when an item is active, the name is new and all eight slots are used |
| ConfigSyncProofs.SeqZeroIsNotTracked | Linux_data/data/data_config_sync.c:114-131 | a message sent under seq 0 is accepted although no item is active afterwards |
| ConfigSyncProofs.StepTracksIff | Linux_data/data/data_config_sync.c:194-504 | a tracked item leaves tracking in a step if and only if the step is an ACK of its current (seq, cmd), and an ok one when the item is active |
| ConfigSyncProofs.TrackedUntilAcked | Linux_data/data/data_config_sync.c:194-504 | over whole runs an item stays tracked, under the name its retries gave it, until such an ACK |
| ConfigSyncProofs.ForeignSeqIff | Linux_data/data/data_config_sync.c:194-449 | the condition on a caller: a message, register or snapshot, that goes into the side queue under seq n keeps names unique, whatever ACKs arrive and however often messages are re-sent, if and only if n is at most the last seq handed out, or no item of its command is active or in a lower slot |
| ConfigSyncProofs.ForeignSeqCollides | Linux_data/data/data_config_sync.c:194-504 | any other message is accepted, and some ACKs and exactly n - last retries later two tracked items share their name |
| ConfigSyncProofs.StepVersions | Linux_data/data/data_config_sync.c:206-210 | each step creates at most one configuration version, and only an ok snapshot ACK moves the acknowledged one |
| ConfigSyncProofs.StepKeepsAckedBoundIff | Linux_data/data/data_config_sync.c:398-403 | a step keeps the acknowledged version at most the current one if and only if it is not an ok snapshot ACK of a later version |
| ConfigSyncProofs.TelemetryAllowedIff | Linux_data/data/data_config_sync.c:506-518 | over every run with ACKs of existing versions: acknowledged <= current, and telemetry is allowed if and only if the last ok snapshot ACK was for the then current version and no newer version was created since |
| ConfigSyncProofs.FutureAckOpensGate | Linux_data/data/data_config_sync.c:398-403 | an ACK of a version that does not exist yet opens the gate for a snapshot nobody acknowledged |
| ConfigSyncStore.Store.FindSlot | Linux_data/data/data_config_sync.c:133-192 | the slot scans find the lowest free, used or matching slot |
| ConfigSyncStore.Store.EnqueuePending | Linux_data/data/data_config_sync.c:133-160 | in place: replaces the payload of a queued (seq, cmd), else takes the lowest free slot, else reports a full queue |
| ConfigSyncStore.Store.PromoteNext | Linux_data/data/data_config_sync.c:162-178 | in place: the lowest used slot becomes active when nothing is |
| ConfigSyncStore.Store.MarkSentMessage | Linux_data/data/data_config_sync.c:194-231 | in place: version bump, tracking and status of a sent message |
| ConfigSyncStore.Store.PublishLatestSnapshot | Linux_data/data/data_config_sync.c:270-315 | in place: the version grows even when rendering fails; a full queue is ignored |
| ConfigSyncStore.Store.HandleAckMessage | Linux_data/data/data_config_sync.c:328-449 | in place: stale and foreign ACKs change nothing; a processed one retires its item, records versions and promotes |
| ConfigSyncStore.Store.TickOnce | Linux_data/data/data_config_sync.c:451-504 | in place: promotion, offline and timeout status, and the retry that renames the active seq |
| ConfigSyncStore.Store.IsTelemetryAllowed | Linux_data/data/data_config_sync.c:506-518 | whatever run of honest ACKs led to the fields: telemetry is allowed if and only if some ok snapshot ACK of it named the then current version and neither another such ACK nor a new version followed |
| OfflineInterleaving.AtMostOnceIff | Linux_data/offline_cache/OfflinePublishQueue.cpp:104-138 | over every interleaving, at the granularity of the lock scopes, of any number of flushes with caching and clearing, with statements that may fail: the flushes under way can never end in a row delivered twice if and only if no query answered with a row another flush still held or that had been accepted before |
| OfflineInterleaving.SafeToFinishIff | Linux_data/offline_cache/OfflinePublishQueue.cpp:114-137 | at any one moment: every way for the flushes under way to end delivers no row twice if and only if no two hold the same row and none holds one accepted before |
| OfflineInterleaving.OverlapSendsTwice | Linux_data/offline_cache/OfflinePublishQueue.cpp:114-137 | two overlapping flushes deliver a row twice although every statement succeeds |
| OfflineInterleaving.OverlapRefusesOnceMore | Linux_data/offline_cache/OfflinePublishQueue.cpp:130-137 | two overlapping refusals take a row at its fourth refusal to its sixth |
| OfflineInterleaving.SoloFlush | Linux_data/offline_cache/OfflinePublishQueue.cpp:104-138 | a flush that nothing interrupts is such a run, and ends as the sequential flush does |
| OfflineRefusals.FifthIsLastIff | Linux_data/offline_cache/OfflineCacheDatabase.cpp:204-233 | over every such interleaving: the flushes under way can never end in a row refused more than 5 times if and only if every row a query answered with had a refusal left beside those the other flushes holding it may record |
| OfflineRefusals.WillStopIff | Linux_data/offline_cache/OfflineCacheDatabase.cpp:204-233 | at any one moment: every way for them to end leaves each row with at most 5 refusals, and failed at exactly 5, if and only if each row's refusals and the flushes that hold it add up to at most 5 |
| OfflineSettling.OverlappingFlushesSettle | Linux_data/offline_cache/OfflinePublishQueue.cpp:104-138 | however k flushes overlap, with statements that succeed and whatever the sender answers: once they have made 5kn queries and are through, each of n fresh pending rows has been accepted at least once and is gone, or never was accepted and is kept as failed |
| OfflineSettling.RunPays | Linux_data/offline_cache/OfflinePublishQueue.cpp:104-138 | the progress behind it: while rows are pending, every query is paid for by a fall of the retry budget (the sum of 5 - send_count over pending rows) before its flush ends |
| OfflineOverlap.EveryRowSettles | Linux_data/offline_cache/OfflinePublishQueue.cpp:104-138 | if moreover no query answers with a row another flush is busy with, as when flushes do not overlap, 5n queries do, and each row is delivered exactly once and deleted, or never delivered and kept as failed with exactly 5 recorded refusals |
| OfflineOverlap.OverlapTakesTies | Linux_data/offline_cache/OfflineCacheDatabase.cpp:146-178 | an overlapping query that meets that condition answers with 50 rows that tie on priority and age with each row the other flush still holds |
| OfflineOverlap.InterleavedFlushesDeliverInOrder | Linux_data/offline_cache/OfflineCacheDatabase.cpp:146-178 | under that condition and with an accepting sender all rows go out in one sequence, sorted by priority then age; delivered and still pending rows together are the rows there were; and once the flushes are through nothing is pending if and only if they made at least ceil(n/50) queries |
| OfflineOverlap.StepIsEffect | Linux_data/offline_cache/OfflinePublishQueue.cpp:114-137 | the lock scopes of such flushes act like single sends on the table without the rows whose DELETE is still to come |
| OfflineFlush.FailedDeleteSendsTwice | Linux_data/offline_cache/OfflinePublishQueue.cpp:123-129 | one flush after the other, a row whose DELETE fails after a successful send is sent again |
| OfflineStore.OrderByOrders | Linux_data/offline_cache/OfflineCacheDatabase.cpp:152-157 | the ordered query returns a sorted permutation of the rows |
| OfflineStore.DeleteSize | Linux_data/offline_cache/OfflineCacheDatabase.cpp:337-364 | deleting a set of known ids removes exactly that many rows |
| OfflineQueue.Database.InsertRow | Linux_data/offline_cache/OfflineCacheDatabase.cpp:101-144 | in place: one pending row with no sends, stamped with the message time or the clock |
| OfflineQueue.Database.LoadPending | Linux_data/offline_cache/OfflineCacheDatabase.cpp:146-178 | returns the first rows of some lawful order of the pending ones, none on a failed statement or a limit of 0 or less |
| OfflineQueue.Database.Remove | Linux_data/offline_cache/OfflineCacheDatabase.cpp:180-202 | in place: deletes exactly the row of the id |
| OfflineQueue.Database.MarkSendFailed | Linux_data/offline_cache/OfflineCacheDatabase.cpp:204-233 | in place: counts one more refusal and gives the row up at the fifth |
| OfflineQueue.Database.CountPending | Linux_data/offline_cache/OfflineCacheDatabase.cpp:235-251 | answers how many different ids are pending, 0 when the statement fails |
| OfflineQueue.Database.ClearPendingRows | Linux_data/offline_cache/OfflineCacheDatabase.cpp:253-261 | in place: deletes exactly the pending rows |
| OfflineQueue.Database.DeleteOldByPriority | Linux_data/offline_cache/OfflineCacheDatabase.cpp:337-364 | in place: deletes the oldest rows of one priority, as many as asked for or as there are |
| OfflineQueue.Database.EnforceMaxRecords | Linux_data/offline_cache/OfflineCacheDatabase.cpp:263-287 | in place: the nested loop ends where its statement replies lead; only old rows of priority 0 and 1 go, none below 4901 rows; the table is bounded if and only if it fits anyway or no statement failed that had rows to delete; and then priority 0 went before priority 1 |
| OfflineEviction.CapacityIff | Linux_data/offline_cache/OfflineCacheDatabase.cpp:263-287 | after such an eviction the table is within 5000 rows if and only if the rows of other priorities are |
| OfflineEviction.EnforceMeans | Linux_data/offline_cache/OfflineCacheDatabase.cpp:263-364 | the same of an eviction as a run of statement replies, whatever they are |
| OfflineEviction.EveryRunKeepsBoundIff | Linux_data/offline_cache/OfflinePublishQueue.cpp:94-101 | over every run of caching with evictions, flushing and clearing: "at most 5000 rows, or none of priority 0 or 1" holds throughout if and only if every cached message that took the table above it was followed by an eviction without a failed statement that had rows to delete |
| OfflineEviction.AlarmsExceedCapacity | Linux_data/offline_cache/OfflineCacheDatabase.cpp:263-287 | any number of cached alarms stays in the table although no statement fails: with 5001 it is above its capacity |
| OfflineQueue.PublishQueue.CacheMessage | Linux_data/offline_cache/OfflinePublishQueue.cpp:76-102 | in place: when a message is cached, that the table then takes its row and an eviction, and that a refused one changes nothing |
| OfflineQueue.PublishQueue.PublishOrCache | Linux_data/offline_cache/OfflinePublishQueue.cpp:50-74 | in place: return code and table for a direct send that works, fails, or has no sender |
| OfflineQueue.PublishQueue.SendBatch | Linux_data/offline_cache/OfflinePublishQueue.cpp:123-137 | in place: the batch loop stops at the first refusal and settles every row before it |
| OfflineQueue.PublishQueue.FlushToMqttOnce | Linux_data/offline_cache/OfflinePublishQueue.cpp:104-138 | in place: one uninterrupted flush of the table, or nothing when a switch is off or the query fails |
| OfflineQueue.PublishQueue.ClearPendingMessages | Linux_data/offline_cache/OfflinePublishQueue.cpp:149-156 | in place: clears the pending rows |
| OfflinePolicy.CachePolicy.AllowSample | Linux_data/offline_cache/OfflineCachePolicy.cpp:40-56 | in place: the sampling decision and the remembered time |
| OfflinePolicy.CachePolicy.CheckCache | Linux_data/offline_cache/OfflineCachePolicy.cpp:19-38 | in place: which message types are cached and when the sampling clock moves |
| OfflinePolicy.SampledIff | Linux_data/offline_cache/OfflineCachePolicy.cpp:19-56 | over every run with dot-free gateway and port ids and positive times, in any order: the policy accepts a normal sample for the cache if and only if the last accepted sample of the same point, if any, is at least 60000 ms older, stored or not; other points do not matter |
| OfflinePolicy.SamplesAreApart | Linux_data/offline_cache/OfflineCachePolicy.cpp:40-56 | any two accepted samples of one point are at least 60000 ms apart |
| OfflinePolicy.RegistrationsAreDropped | Linux_data/offline_cache/OfflineCachePolicy.cpp:19-38 | registrations and configuration snapshots are never cached |
| DottedKeys.SampleKeyUniqueIff | Linux_data/offline_cache/OfflineCachePolicy.cpp:9-15 | a sample key tells its gateway and port from all others if and only if both ids are dot-free |
| DottedKeys.PointIdUniqueIff | Pc_data/model/ModelConverter.cpp:68-81 | a point id tells its factory, area, gateway and port from all others if and only if the four ids are dot-free |
| DottedKeys.SampleKeyInjective | Linux_data/offline_cache/OfflineCachePolicy.cpp:9-15 | sample keys are injective, device and key included, when gateway and port ids hold no dot |
| DottedKeys.PointIdInjective | Pc_data/model/ModelConverter.cpp:68-81 | point ids are injective when factory, area, gateway and port ids hold no dot |
| DottedKeys.DotsCollide | Linux_data/offline_cache/OfflineCachePolicy.cpp:9-15 | a dot inside an id lets two different points share a key |
| PortRegistryProofs.EveryRunAgrees | Linux_data/port/port_manager.cpp:854-1659 | from any file, over every sequence of connect, disconnect, add, remove, set-threshold and flag-saving, with writes that may fail: a slot has distinct positive addresses and intervals >= 500, and none while disconnected; and from the first successful write on, or from the start if the file is as the registry writes it, the file says of a connected slot exactly what memory says (no thresholds counting as all-zero ones) |
| PortRegistryProofs.StepKeepsInv | Linux_data/port/port_manager.cpp:854-1659 | each operation keeps that agreement |
| PortRegistryProofs.WriteAgrees | Linux_data/port/port_manager.cpp:854-930 | a successful write leaves a file that says of every slot what memory says |
| PortRegistryProofs.LoadAllAgrees | Linux_data/port/port_manager.cpp:973-1051 | loading a clean file restores exactly the slot's entries |
| PortRegistry.JsonRoundTrip | Linux_data/port/port_manager.cpp:182-266 | thresholds survive the file exactly when unset limits are zero; file text survives always |
| PortExport.SnapshotListsFile | Linux_data/port/port_manager.cpp:1745-1921 | in every reachable state a slot's snapshot lists exactly the filter-accepted devices of the file, each once, with the file's data |
| PortExport.ExportedPorts | Linux_data/port/port_manager.cpp:1745-1921 | exactly the accepted ports are exported |
| PortExport.ExportedInOrder | Linux_data/port/port_manager.cpp:1745-1921 | ports come in slot order, each once |
| PortExport.ListedIff | Linux_data/port/port_manager.cpp:314-371 | a device is in the snapshot if and only if the file has it and the filter accepts it |
| PortExport.AddedIsListed | Linux_data/port/port_manager.cpp:1514-1575 | a device just added is in the next snapshot |
| PortExport.RemovedIsNotListed | Linux_data/port/port_manager.cpp:1623-1659 | a device just removed is in no snapshot |
| PortExport.FailedChangeIsInvisible | Linux_data/port/port_manager.cpp:1514-1659 | a change that is refused for any reason, or whose write fails, leaves the slot's devices and every later snapshot as they were |
| PortExport.WriteKeepsSavedIff | Linux_data/port/port_manager.cpp:854-930 | a successful write keeps the saved devices of a slot if and only if the slot is connected or has none |
| PortExport.LosingRun | Linux_data/port/port_manager.cpp:1293-1575 | from an empty start: a device is registered, its port disconnected, another port connected, and the file has lost the device |
| PortManagers.PortManager.WriteConfigLocked | Linux_data/port/port_manager.cpp:854-930 | in place: the whole registry replaces the file, or nothing changes |
| PortManagers.PortManager.LoadDevicesForSlotLocked | Linux_data/port/port_manager.cpp:973-1051 | in place: the loop restores the valid, new entries of the slot |
| PortManagers.PortManager.IsPortUsedByOtherSlot | Linux_data/port/port_manager.cpp:401-409 | answers whether another connected slot has the port |
| PortManagers.PortManager.ConnectPort | Linux_data/port/port_manager.cpp:1293-1336 | in place: every refusal and the connected state, with load and write |
| PortManagers.PortManager.DisconnectPort | Linux_data/port/port_manager.cpp:1354-1388 | in place: runtime state is cleared, the file is not |
| PortManagers.PortManager.AddDeviceToSlot | Linux_data/port/port_manager.cpp:1514-1575 | in place: every refusal in order, and the rollback of a failed write |
| PortManagers.PortManager.SetDeviceThreshold | Linux_data/port/port_manager.cpp:1577-1621 | in place: thresholds of a sensor, restored when the write fails |
| PortManagers.PortManager.RemoveDeviceFromSlot | Linux_data/port/port_manager.cpp:1623-1659 | in place: removal, and re-insertion at the end when the write fails |
| PortManagers.PortManager.SaveOfflineCacheConfig | Linux_data/port/port_manager.cpp:932-971 | in place: the two flags change, the rest of the file stays |
| PortManagers.PortManager.ExportConfigSnapshot | Linux_data/port/port_manager.cpp:1709-1933 | computes the merged snapshot for a filter |
| PollHealth.Device.RecordPollFailure | Linux_data/port/port_manager.cpp:1164-1186 | in place: failure count and the one offline report |
| PollHealth.Device.RecordPollSuccess | Linux_data/port/port_manager.cpp:1146-1162 | in place: a success clears count and report |
| PollHealth.Device.TakeIfDue | Linux_data/port/port_manager.cpp:1390-1418 | in place: polls a due device and sets its next time |
| PollHealth.ReportsIff | Linux_data/port/port_manager.cpp:1164-1186 | over every trace of outcomes a device is reported offline at exactly the third failure of each failure run |
| PollHealth.ReportsCountLongRuns | Linux_data/port/port_manager.cpp:1146-1186 | as many reports as maximal failure runs of length 3 or more |
| PollHealth.PollSlot | Linux_data/port/port_manager.cpp:1390-1422 | in place: one turn of a slot takes the due devices in order and sets every next time |
| PollHealth.ReadsApartIff | Linux_data/port/port_manager.cpp:1395-1422 | a turn reads its due devices one after the other, so: two reads of a device are its interval apart however long reads take if and only if the first turn takes no device before it, or the turn after that one is already an interval before the second |
| PollHealth.ReadsAreApart | Linux_data/port/port_manager.cpp:1395-1422 | they always are for the first device of a slot, and for any whose wait for the devices before it does not shrink |
| PollHealth.RushedRead | Linux_data/port/port_manager.cpp:1395-1422 | interval 500, turns at 0 and 1100, an earlier device that takes a second in the first: two reads 100 ms apart |
| PollHealth.TurnsAreApart | Linux_data/port/port_manager.cpp:1390-1418 | two turns that take a device lie at least its interval apart, however often the loop runs |
| PollHealth.PolledWhenDue | Linux_data/port/port_manager.cpp:1390-1418 | between them, the next turn that takes it is the first one an interval later |
| ThresholdAlarm.Sensor.SetThresholdConfig | Linux_data/sensors/temperature_humidity_sensor.cpp:61-67 | in place: a new configuration clears both latches |
| ThresholdAlarm.Sensor.CheckPointLatch | Linux_data/sensors/temperature_humidity_sensor.cpp:69-109 | the latch and alarm of one point |
| ThresholdAlarm.Sensor.CheckThreshold | Linux_data/sensors/temperature_humidity_sensor.cpp:111-130 | in place: temperature first; humidity only when temperature did not fire |
| ThresholdAlarm.AlarmIff | Linux_data/sensors/temperature_humidity_sensor.cpp:69-130 | the complete rule: temperature fires exactly where an out-of-range run starts; humidity fires exactly where it is out of range, temperature does not fire, and it was in range when last looked at |
| ThresholdAlarm.TemperatureNeverFiresTwiceInARow | Linux_data/sensors/temperature_humidity_sensor.cpp:69-130 | temperature never fires on two consecutive checked samples |
| ThresholdAlarm.TemperatureAlarmsCountRuns | Linux_data/sensors/temperature_humidity_sensor.cpp:69-130 | as many temperature alarms as maximal out-of-range runs |
| ThresholdAlarm.ExcursionReportedIff | Linux_data/sensors/temperature_humidity_sensor.cpp:111-130 | a humidity excursion is reported exactly once unless temperature fires on its only sample, or on the only in-range sample before it; then never |
| ThresholdAlarm.HiddenExcursion | Linux_data/sensors/temperature_humidity_sensor.cpp:111-130 | one sample out of range at both points: the humidity excursion is never reported |
| ThresholdAlarm.LongExcursionReportedOnce | Linux_data/sensors/temperature_humidity_sensor.cpp:111-130 | an excursion of 2 or more samples after 2 or more in-range samples, or the start, is reported exactly once |
| TelemetryIntake.TelemetryQueue.Enqueue | Pc_data/mqtt/MqttMessageHandler.cpp:2379-2391 | in place: a full queue drops its oldest message |
| TelemetryIntake.TelemetryQueue.TakeNext | Pc_data/mqtt/MqttMessageHandler.cpp:2393-2413 | in place: the front message, or the end when stopped and empty |
| TelemetryIntake.EveryRunKeepsOrder | Pc_data/mqtt/MqttMessageHandler.cpp:2379-2413 | in every run the queue holds at most 256 messages, the newest arrivals; messages are handled in arrival order, none twice; nothing is missing if and only if nothing was dropped |
| TelemetryWriter.Writer.EnqueueStorage | Pc_data/mqtt/MqttMessageHandler.cpp:2415-2431 | in place: the last value per non-empty id becomes pending |
| TelemetryWriter.Writer.TakePending | Pc_data/mqtt/MqttMessageHandler.cpp:2433-2464 | in place: the whole pending map is taken; the loop ends exactly when stopped with nothing pending |
| TelemetryWriter.CoalescingIff | Pc_data/storage/PcDatabase.cpp:102-177 | saving two batches merged equals saving them in turn if and only if the second renews every pending point of the devices it mentions, because a save replaces all latest points of a device |
| TelemetryWriter.EnqueueKeepsViewIff | Pc_data/mqtt/MqttMessageHandler.cpp:2415-2431 | so one enqueue keeps database, batch in flight and pending map together equal to direct writing if and only if it does that |
| TelemetryWriter.PartialPackRun | Pc_data/mqtt/MqttMessageHandler.cpp:2415-2431 | a pack with one point of a device, pending behind a pack with two: direct writing would have removed the other point |
| TelemetryWriter.FailedSaveKeepsViewIff | Pc_data/mqtt/MqttMessageHandler.cpp:2454-2462 | a failed save keeps that equality if and only if, on every device it mentions and the pending points do not, database and batch agree |
| TelemetryWriter.EveryInterleavingIsDirectIff | Pc_data/mqtt/MqttMessageHandler.cpp:2415-2464 | over every interleaving of producers and writer the three together equal direct writing throughout if and only if every enqueue renews what is pending of its devices and every failing save meets that condition |
| TelemetryWriter.StoppedMeansWritten | Pc_data/mqtt/MqttMessageHandler.cpp:2433-2464 | and then, once the writer has stopped, the database alone does |
| TelemetryWriter.LosingRun | Pc_data/mqtt/MqttMessageHandler.cpp:2454-2462 | from the start: the first point, its save fails, and the database never gets it |
| LatestPublisher.LostIff | Pc_data/mqtt/MqttMessageHandler.cpp:2466-2521 | over every run of handlers, publisher, removals, replies, and clients that come and go, with writes that arrive, are cut or break: an update is lost if and only if nobody is at work any more and what the greeted client received last was read before the last update or removal |
| LatestPublisher.StepKeepsInv | Pc_data/ipc/PcUiPublisher.cpp:14-33 | each critical section keeps the invariant when no reply is overtaken between read and send, nor the publisher unless what its snapshot lacks is owed, greetings and removal replies arrive or break, and removals go unanswered only without a client |
| LatestPublisher.EveryInterleavingKeepsUpdates | Pc_data/mqtt/MqttMessageHandler.cpp:2466-2521 | so in every such interleaving, removals included, no update is ever lost |
| LatestPublisher.QuietMeansCurrent | Pc_data/mqtt/MqttMessageHandler.cpp:2770-2775 | and when all threads rest, a greeted client has the current snapshot |
| LatestPublisher.DeliveryGoesBackIff | Pc_data/ipc/PcUiPublisher.cpp:14-33 | over every run: a delivery takes the client back if and only if what the client has was read later than what is delivered, with an update or removal in between |
| LatestPublisher.InTurnNeverGoesBack | Pc_data/ipc/PcUiPublisher.cpp:14-33 | over every run: a delivery that was not overtaken between its read and its send never does |
| LatestPublisher.StaleReplyLosesUpdate | Pc_data/ipc/PcUiPublisher.cpp:14-33 | each condition is needed: with the client connected and every write arriving, a reply read before and sent after a publisher turn leaves the client behind for good |
| LatestPublisher.RemovedDeviceComesBack | Pc_data/ipc/IpcMessageHandler.cpp:432-438 | so does a removal whose reply is in turn, while the publisher holds a snapshot that has the device: the publisher brings it back |
| LatestPublisher.CutRemovalLosesUpdate | Pc_data/mqtt/MqttMessageHandler.cpp:1755-1761 | so does a removal reply that is cut short |
| LatestPublisher.UnansweredRemovalLosesUpdate | Pc_data/mqtt/MqttMessageHandler.cpp:2028-2030 | and a removal that is not answered, as when a configuration snapshot answers no known request |
| LatestPublisher.CutGreetingLosesUpdate | Pc_data/ipc/IpcServer.cpp:210-255 | a publisher turn finds no client, and the greeting of the next one is cut short: it is left behind |
| LatestPublisher.Publisher.MarkLatestPointsDirty | Pc_data/mqtt/MqttMessageHandler.cpp:2466-2473 | in place: the Mark step of a handler, or the publisher's after a failed send, of the runs above |
| LatestPublisher.Publisher.ClearDirty | Pc_data/mqtt/MqttMessageHandler.cpp:2475-2499 | in place: the Clear step of those runs, taken exactly when it is enabled and the publisher is not stopped |
| SlaveList.ReconcileMeans | Linux_ui/ui/widget.cpp:872-943 | after a snapshot a mentioned slot holds exactly the devices listed for it, under their last listed names, survivors with their online flag and new ones offline; other slots are as before |
| SlaveList.OtherSlotsUntouched | Linux_ui/ui/widget.cpp:924-940 | the entries of unmentioned slots keep their order |
| SlaveList.HalfDoneStep | Linux_ui/ui/widget.cpp:924-940 | one turn of the backward loop: with unique keys, the nested removal takes out index i and leaves the entries below it in place |
| SlaveList.EveryRunStaysInRange | Linux_ui/ui/widget.cpp:924-940 | in every run of registrations, removals, snapshots and status changes no key is held twice, since an entry is appended only after a search for its key; so each removal of the loop takes out the entry at its index alone and the next index is in range |
| SlaveList.KeyTextInjective | Linux_ui/ui/widget.cpp:929-932 | the text keys of the snapshot set are injective |
| SlaveList.Panel.UpsertRegisteredSlave | Linux_ui/ui/widget.cpp:1056-1089 | in place: renames the entry or appends an offline one; keys stay unique |
| SlaveList.Panel.RemoveRegisteredSlave | Linux_ui/ui/widget.cpp:1091-1109 | in place: removes every entry of the key, others keep their order |
| SlaveList.Panel.HandleRuntimeStateSnapshot | Linux_ui/ui/widget.cpp:872-943 | in place: the reconciled list, in bounds, with unique keys, and the connected slots |
| Framers.ChunksDoNotMatter | Linux_data/ipc/ipc_server.c:58-93 | on either side, however a stream is cut into reads that stay within the limit, the messages are those of the whole stream and the rest is kept |
| Framers.ShortLinesFit | Linux_data/ipc/ipc_server.c:58-93 | a stream whose lines leave room for one read stays within the limit however it is cut |
| Framers.LinesArrive | Pc_data/ipc/IpcServer.cpp:168-207 | end to end: such lines arrive one for one, and nothing is left over |
| Framers.CrLfLinesArrive | Pc_data/ipc/IpcServer.cpp:190-198 | on the PC lines ended by CR LF arrive the same, without the CR |
| Framers.JoinPieces | Linux_data/ipc/ipc_server.c:66-93 | pieces and rest are newline-free and make up the text |
| Framers.PiecesOfJoin | Linux_data/ipc/ipc_server.c:66-93 | and they are the only such split |
| Framers.OverflowCutsLine | Linux_data/ipc/ipc_server.c:60-61 | a read over the gateway's limit loses the waiting text and hands the remainder of the line on as a message of its own |
| Framers.Receiver.ProcessReceivedData | Linux_data/ipc/ipc_server.c:58-93 | in place on the 4096-byte array: messages and kept text of one read |
| Framers.Receiver.ReadCString | Linux_data/ipc/ipc_server.c:72-74 | the message a C function sees ends at the first NUL |
| Framers.IpcServer.ProcessReceivedData | Pc_data/ipc/IpcServer.cpp:168-207 | in place: messages and kept text of one read on the PC |
| JsonText.JsonEscape | Pc_data/common/JsonUtils.cpp:5-34 | computes the escaped text |
| JsonText.ExtractJsonStringValue | Pc_data/common/JsonUtils.cpp:45-86 | computes what the key scan finds |
| JsonText.ScanEscaped | Pc_data/common/JsonUtils.cpp:64-83 | an escaped text never ends the scan early, whatever follows it |
| JsonText.ExtractDocument | Pc_data/common/JsonUtils.cpp:5-86 | reading back a one-field object returns the value if and only if it holds no LF, CR or TAB; those come back as letters |
| JsonText.DecodeEscaped | Pc_data/common/JsonUtils.cpp:5-34 | a decoder after section 7 of RFC 8259 gets every text back, LF, CR and TAB included, if and only if it holds no other control character |
| JsonScan.ExtractObject | Pc_data/common/JsonUtils.cpp:45-86 | on a flat object of string fields the scan answers the first field of the key, or the field after the first one whose value looks like the quoted key |
| JsonScan.ExtractFindsField | Pc_data/common/JsonUtils.cpp:45-86 | so it finds the field asked for when no earlier value looks like its key |
| JsonScan.DecoyAnswers | Pc_data/common/JsonUtils.cpp:45-86 | and answers the wrong field when one does |
| Topics.ParsePortUpTopicIff | Pc_data/mqtt/MqttMessageHandler.cpp:403-430 | the parser accepts exactly gateway/G/P/up with non-empty slash-free G and P, and returns them |
| Topics.GatewayOfUpTopicIff | Pc_data/mqtt/MqttMessageHandler.cpp:517-535 | the gateway check accepts exactly gateway/G/up for that gateway |
| Topics.TopicsAreDisjoint | Pc_data/mqtt/MqttMessageHandler.cpp:403-535 | no topic is both |
| Topics.ReadSlotFromPortId | Pc_data/ipc/IpcMessageHandler.cpp:153-169 | the digit-collecting loop, its fallback and its failure on numbers beyond int |
| Topics.SlotRoundTrip | Pc_data/mqtt/MqttMessageHandler.cpp:39-54 | a port id read back gives the slot it was made from, for every slot whose number fits |
| Topics.PortNameIsNoPortId | Pc_data/mqtt/MqttMessageHandler.cpp:56-65 | a port name read as a port id never gives its slot |
| RelayBits.RelayStatesToArray | Linux_ui/ui/widget.cpp:817-823 | four booleans, the low four bits |
| RelayBits.MaskFromArray | Linux_data/data/data_command.c:539-552 | the mask of the first 16 flags, nothing for an empty array |
| RelayBits.RelayDevice.WriteStates | Linux_data/sensors/relay.cpp:45-52 | in place: four coils, unchanged when the bus fails |
| RelayBits.RelayDevice.Read | Linux_data/sensors/relay.cpp:19-43 | the bitmap of the coils |
| RelayBits.CoilsFollowFlags | Linux_data/data/data_command.c:539-552 | for every command array each coil is what its flag says, and the read-back shows exactly the coils |
| RelayBits.RelayRoundTrip | Linux_ui/ui/widget.cpp:817-823 | panel integer to array to mask to coils to bitmap gives the low four bits |
| RelayBits.PressTurnsOneCoil | Linux_ui/ui/widget.cpp:471-481 | pressing one switch turns its coil and leaves the other three as the panel knew them |
| StatusCache.Cache.CheckDeviceStatusChanged | Linux_data/data/data_publish.c:69-105 | in place on the 64-entry array: reports a change, and the array stands for the updated map |
| StatusCache.Cache.FindSlot | Linux_data/data/data_publish.c:77-91 | the scan finds the device's own entry, else the first free one |
| StatusCache.CacheIsExactIff | Linux_data/data/data_publish.c:59-105 | over every run the cache knows every device's last status if and only if at most 64 devices reported |
| StatusCache.ChangeMeansDifferent | Linux_data/data/data_publish.c:93-101 | then a change is reported exactly when the previous status was another one |
| StatusCache.LatecomerIsNeverReported | Linux_data/data/data_publish.c:59-105 | a device that comes when the cache is full is never reported as changed |

## Left out

- Sockets, pipes, MQTT, Modbus, GPIO, SQLite and file calls: their success or failure is a parameter.
- JSON documents: messages are datatypes, and field aliases, missing or mistyped fields and null pointers are not modelled; a snapshot that cannot be rendered is one value.
- Floating point: limits, measurements and saved values are reals, so rounding and NaN are not modelled.
- Status, reason and log texts, and the notifications sent to the panel and the PC after an operation.
- RunKeepsInv: assumes the 32-bit seq counter does not wrap during the run; the operations themselves model the wrap.
- TelemetryAllowedIff: assumes the run is shorter than 2^32 - 1 events, so that versions do not wrap.
- ACKs without a cmd: the source matches them as wildcards in its queue scan, but such an ACK is dropped before it gets there.
- EveryRowSettles: for flushes whose queries answer with no row another flush is busy with, which overlapping ones do only among ties (OverlapTakesTies); OverlappingFlushesSettle, AtMostOnceIff and FifthIsLastIff are for the others.
- OverlappingFlushesSettle: while nothing is cached or cleared, and for statements that succeed; what holds without that is AtMostOnceIff and FifthIsLastIff.
- InterleavedFlushesDeliverInOrder: under the conditions of EveryRowSettles; a row cached meanwhile may rank before one already delivered.
- ForeignSeqIff: for register and snapshot commands, the only ones callers send, and continuations without new messages, whose retries stay below 2^32, where the seq counter wraps.
- EveryInterleavingKeepsUpdates: under the conditions of StepKeepsInv; what holds of all runs is LostIff and DeliveryGoesBackIff.
- ReadsApartIff: for a slot whose devices stay the same meanwhile.
- The delete commands that change the database beside the telemetry writer, and the publisher thread's stop after a turn.
- The history rows and the descriptive columns that a save also writes, and devices unknown to the database beyond their points being skipped.
- connectPort releases its lock between stopping the old poll thread and opening the port; each port operation is one step here.
- Restoring connections at start, port scanning, relay writes through the registry, last-value publishing and poll threads.
- RecordPollFailure: a device that is removed and registered again starts with fresh health, which is a new object here.
- SetThresholdConfig: the runs of the alarm lemmas are under one configuration; a new one restarts them.
- The panel's port table, relay states, pages and pending commands; handleRemoteRemoveDeviceAck, whose loop has the shape of the snapshot loop.
- MaskFromArray: the integer form of a relay command (its low 16 bits) is not modelled.
- normalizeTelemetryPointKey, linuxDataSeqFrom and the converters that append a device's points: tables and short loops without state.
- Decode: escaped surrogate pairs are refused instead of combined.
- PC entry points that dispatch on message types, and the services behind them.
