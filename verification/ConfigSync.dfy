/**
  The gateway's configuration-sync protocol (Linux_data/data/data_config_sync.c).

  One register or snapshot message is "active" (awaiting its ACK); further ones wait in an
  eight-slot side queue.  The state is a value here; module ConfigSyncStore holds the class that
  updates it in place.
 */
module ConfigSync {
  import opened Wrappers

  const WORD := 0x1_0000_0000
  const FIRST_SEQ := 50000
  const QUEUE_SLOTS := 8
  const ACK_TIMEOUT_MS := 5000
  const RETRY_INTERVAL_MS := 8000
  const MAX_FAST_RETRIES := 3
  const CMD_SIZE := 32
  const PORT_SIZE := 32
  const PAYLOAD_SIZE := 65536
  const DEFAULT_PORT := "port_001"

  /** uint32_t: increments wrap. */
  type Word = x: nat | x < WORD

  function Inc(x: Word): Word {
    if x + 1 == WORD then 0 else x + 1
  }

  /** snprintf("%s") into a buffer of the given size, terminator included. */
  function Clip(s: string, size: nat): string
    requires size > 0
  {
    if |s| < size then s else s[..size - 1]
  }

  datatype Item = Item(seqNo: Word, cmd: string, portId: string, payload: string) {
    function Name(): (Word, string) { (seqNo, cmd) }
  }

  type Slots = seq<Option<Item>>

  const NO_ITEM := Item(0, "", "", "")

  datatype Status = Idle | Syncing | Offline | Success | Failed | PartialFailed | Timeout | Retrying

  datatype Sync = Sync(active: Item, queue: Slots, lastSeq: Word, version: Word, ackedVersion: Word,
                       ackedSnapshot: bool, status: Status, retries: nat, retryable: bool, lastSendMs: int)

  const INIT := Sync(NO_ITEM, [None, None, None, None, None, None, None, None],
                      FIRST_SEQ, 0, 0, false, Idle, 0, true, 0)

  predicate IsSnapshotCmd(cmd: string) {
    cmd == "config_snapshot" || cmd == "device_config_snapshot"
  }

  predicate IsRegisterCmd(cmd: string) {
    cmd == "gateway_register" || cmd == "port_register" || cmd == "port_status" ||
    cmd == "device_register" || IsSnapshotCmd(cmd)
  }

  // ---------- Scanning the side queue ----------

  datatype Probe = AnyFree | AnyUsed | Named(name: (Word, string))

  predicate Hits(slot: Option<Item>, p: Probe) {
    match p
    case AnyFree => slot.None?
    case AnyUsed => slot.Some?
    case Named(n) => slot.Some? && slot.value.Name() == n
  }

  /** Index of the lowest slot the probe hits, or the number of slots. */
  function FindFirst(q: Slots, p: Probe): (i: nat)
    ensures i <= |q|
    ensures i < |q| ==> Hits(q[i], p)
    ensures forall j :: 0 <= j < i ==> !Hits(q[j], p)
  {
    if q == [] || Hits(q[0], p) then 0 else 1 + FindFirst(q[1..], p)
  }

  lemma FindFirstIs(q: Slots, p: Probe, i: nat)
    requires i <= |q|
    requires i < |q| ==> Hits(q[i], p)
    requires forall j :: 0 <= j < i ==> !Hits(q[j], p)
    ensures FindFirst(q, p) == i
  {
  }

  // ---------- Operations ----------

  predicate IsLive(it: Item) {
    it.payload != "" && it.seqNo != 0
  }

  predicate HasActive(s: Sync) {
    IsLive(s.active)
  }

  function Activate(s: Sync, it: Item, now: int): Sync {
    s.(active := it, retries := 0, retryable := true, lastSendMs := now)
  }

  datatype SendCode = Ok | InvalidArg | JsonError | QueueFull

  function Enqueue(s: Sync, it: Item, cmd: string): (Sync, SendCode) {
    var same := FindFirst(s.queue, Named((it.seqNo, cmd)));
    var free := FindFirst(s.queue, AnyFree);
    if same < |s.queue| then
      (s.(queue := s.queue[same := Some(s.queue[same].value.(portId := it.portId, payload := it.payload))]), Ok)
    else if free < |s.queue| then
      (s.(queue := s.queue[free := Some(it)]), Ok)
    else
      (s, QueueFull)
  }

  function Promote(s: Sync, now: int): Sync {
    var i := FindFirst(s.queue, AnyUsed);
    if HasActive(s) || i == |s.queue| then s
    else Activate(s, s.queue[i].value, now).(queue := s.queue[i := None])
  }

  function Stored(seqNo: Word, cmd: string, payload: string, portId: string): Item {
    Item(seqNo, Clip(cmd, CMD_SIZE), Clip(portId, PORT_SIZE), Clip(payload, PAYLOAD_SIZE))
  }

  /** Track a freshly sent message: as the active one when none is active or it is the same
      (seq, cmd), in the side queue otherwise. */
  function Track(s: Sync, seqNo: Word, cmd: string, payload: string, portId: string, now: int): (Sync, SendCode) {
    var it := Stored(seqNo, cmd, payload, portId);
    if !HasActive(s) || s.active.Name() == (seqNo, cmd) then (Activate(s, it, now), Ok)
    else Enqueue(s, it, cmd)
  }

  function BumpVersion(s: Sync): Sync {
    var v := Inc(s.version);
    s.(version := if v == 0 then 1 else v)
  }

  function MarkSent(s: Sync, seqNo: Word, cmd: string, payload: string, portId: string,
                    connected: bool, now: int): (Sync, SendCode) {
    if payload == "" then (s, InvalidArg) else
      var s1 := if IsSnapshotCmd(cmd) then BumpVersion(s)
                else if s.version == 0 then s.(version := 1) else s;
      var (s2, code) := Track(s1, seqNo, cmd, payload, portId, now);
      (s2.(status := if connected then Syncing else Offline), code)
  }

  /** What the JSON layer made of the exported snapshot. */
  datatype Rendering = ExportFailed | RenderFailed | Rendered(json: string)

  function PublishSnapshot(s: Sync, seqNo: Word, snapshot: Rendering, connected: bool, now: int): Sync {
    match snapshot
    case ExportFailed => s
    case RenderFailed => BumpVersion(s)
    case Rendered(json) =>
      Track(BumpVersion(s), seqNo, "config_snapshot", json, DEFAULT_PORT, now).0
        .(status := if connected then Syncing else Offline)
  }

  datatype Ack = Ack(kind: string, cmd: string, seqNo: Word, version: Word, ok: bool,
                     partial: bool, retryable: bool) {
    function Name(): (Word, string) { (seqNo, cmd) }
  }

  predicate NamesActive(s: Sync, m: Ack) {
    m.seqNo != 0 && s.active.Name() == m.Name()
  }

  /** Slot of the queued item the ACK names (the ACK must not name the active one). */
  function NamedSlot(s: Sync, m: Ack): (i: nat)
    ensures i <= |s.queue|
  {
    if m.seqNo == 0 || NamesActive(s, m) then |s.queue| else FindFirst(s.queue, Named(m.Name()))
  }

  /** A snapshot ACK for some other message than the active one is dropped unless it is queued. */
  predicate IsStale(s: Sync, m: Ack) {
    IsSnapshotCmd(m.cmd) && m.seqNo != 0 && s.active.seqNo != 0 && m.seqNo != s.active.seqNo &&
    NamedSlot(s, m) == |s.queue|
  }

  predicate IsProcessed(s: Sync, m: Ack) {
    m.kind == "ack" && IsRegisterCmd(m.cmd) && !IsStale(s, m)
  }

  function Settle(s: Sync): Sync {
    s.(status := if s.active.payload != "" then Syncing else Success)
  }

  /** The ACK's item leaves: a queued one whatever the verdict, the active one on success only. */
  function Retire(s: Sync, m: Ack): Sync {
    var at := NamedSlot(s, m);
    s.(queue := if at < |s.queue| then s.queue[at := None] else s.queue,
       active := if m.ok && NamesActive(s, m) then NO_ITEM else s.active)
  }

  /** What a successful ACK does once its item is gone. */
  function Confirm(s: Sync, m: Ack, wasActive: bool, now: int): Sync {
    var t := s.(retries := 0,
                ackedVersion := if !IsSnapshotCmd(m.cmd) then s.ackedVersion
                                else if m.version > 0 then m.version else s.version,
                ackedSnapshot := s.ackedSnapshot || IsSnapshotCmd(m.cmd));
    Settle(if IsSnapshotCmd(m.cmd) || wasActive then Promote(t, now) else t)
  }

  function HandleAck(s: Sync, m: Ack, now: int): Sync {
    if !IsProcessed(s, m) then s else
      var t := Retire(s, m).(retryable := m.retryable);
      if m.ok then Confirm(t, m, NamesActive(s, m), now)
      else t.(status := if m.partial then PartialFailed else Failed)
  }

  /** Re-send the active message under a new seq; None when its payload no longer parses. */
  function Resend(s: Sync, seqNo: Word, rewritten: Option<string>, now: int): Sync {
    if s.active.payload == "" || rewritten.None? then s
    else s.(active := s.active.(seqNo := seqNo, payload := Clip(rewritten.value, PAYLOAD_SIZE)), lastSendMs := now)
  }

  predicate RetryDue(s: Sync, connected: bool, now: int) {
    HasActive(s) && connected && s.retryable && now - s.lastSendMs >= RETRY_INTERVAL_MS
  }

  function Tick(s0: Sync, connected: bool, rewritten: Option<string>, now: int): Sync {
    var s := Promote(s0, now);
    if !HasActive(s) then s
    else if !connected then s.(status := Offline)
    else if !s.retryable || now - s.lastSendMs < ACK_TIMEOUT_MS then s
    else if now - s.lastSendMs < RETRY_INTERVAL_MS then s.(status := Timeout)
    else
      var s1 := s.(retries := s.retries + 1, lastSeq := Inc(s.lastSeq),
                   status := if s.retries + 1 > MAX_FAST_RETRIES then Retrying else Timeout);
      Resend(s1, s1.lastSeq, rewritten, now)
  }

  predicate TelemetryAllowed(s: Sync) {
    s.ackedVersion > 0 && s.ackedVersion == s.version && s.ackedSnapshot
  }

  // ---------- Runs ----------

  datatype Event =
    | NextSeq
    | Mark(seqNo: Word, cmd: string, payload: string, portId: string, connected: bool, now: int)
    | Publish(seqNo: Word, snapshot: Rendering, connected: bool, now: int)
    | Acked(ack: Ack, now: int)
    | Ticked(connected: bool, rewritten: Option<string>, now: int)

  function Step(s: Sync, e: Event): Sync {
    match e
    case NextSeq => s.(lastSeq := Inc(s.lastSeq))
    case Mark(n, cmd, payload, portId, connected, now) => MarkSent(s, n, cmd, payload, portId, connected, now).0
    case Publish(n, snapshot, connected, now) => PublishSnapshot(s, n, snapshot, connected, now)
    case Acked(ack, now) => HandleAck(s, ack, now)
    case Ticked(connected, rewritten, now) => Tick(s, connected, rewritten, now)
  }

  function Run(s: Sync, es: seq<Event>): Sync {
    if es == [] then s else Step(Run(s, es[..|es| - 1]), es[|es| - 1])
  }

  /** What the protocol expects of its environment: a non-zero seq that was handed out earlier, a
      command that fits its buffer, and a JSON writer that never prints nothing. */
  predicate CallerOk(s: Sync, e: Event) {
    match e
    case Mark(n, cmd, _, _, _, _) => 0 < n <= s.lastSeq && |cmd| < CMD_SIZE
    case Publish(n, snapshot, _, _) => 0 < n <= s.lastSeq && (snapshot.Rendered? ==> snapshot.json != "")
    case Ticked(_, rewritten, _) => rewritten.Some? ==> rewritten.value != ""
    case _ => true
  }

  ghost predicate CallersOk(s: Sync, es: seq<Event>) {
    forall i :: 0 <= i < |es| ==> CallerOk(Run(s, es[..i]), es[i])
  }
}
