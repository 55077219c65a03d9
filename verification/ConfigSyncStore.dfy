/**
  The in-place form of the configuration-sync protocol: the fields of g_sync, the array
  g_pending_queue and the counter g_sync_seq, updated by loops that scan the array.
  State() is the value the protocol's specification speaks about.
 */
module ConfigSyncStore {
  import opened ConfigSync
  import opened ConfigSyncProofs
  import opened Wrappers

  class Store {
    var pendingSeq: Word
    var pendingCmd: string
    var pendingPortId: string
    var pendingSnapshot: string
    const queue: array<Option<Item>>
    var lastSeq: Word
    var configVersion: Word
    var lastAckedVersion: Word
    var lastAckedSnapshot: bool
    var status: Status
    var retryCount: nat
    var retryable: bool
    var lastSendMs: int

    function Active(): Item
      reads this
    {
      Item(pendingSeq, pendingCmd, pendingPortId, pendingSnapshot)
    }

    ghost function State(): Sync
      reads this, queue
    {
      Sync(Active(), queue[..], lastSeq, configVersion, lastAckedVersion, lastAckedSnapshot,
           status, retryCount, retryable, lastSendMs)
    }

    constructor ()
      ensures State() == INIT && fresh(queue)
    {
      pendingSeq, pendingCmd, pendingPortId, pendingSnapshot := 0, "", "", "";
      lastSeq, configVersion, lastAckedVersion, lastAckedSnapshot := FIRST_SEQ, 0, 0, false;
      status, retryCount, retryable, lastSendMs := Idle, 0, true, 0;
      queue := new Option<Item>[QUEUE_SLOTS](_ => None);
    }

    /** The scan every queue operation starts with. */
    method FindSlot(p: Probe) returns (i: nat)
      ensures i == FindFirst(queue[..], p)
    {
      i := 0;
      while i < queue.Length && !Hits(queue[i], p)
        invariant i <= queue.Length
        invariant forall j :: 0 <= j < i ==> !Hits(queue[j], p)
      {
        i := i + 1;
      }
      FindFirstIs(queue[..], p, i);
    }

    method NextSeq() returns (seqNo: Word)
      modifies this`lastSeq
      ensures State() == Step(old(State()), Event.NextSeq) && seqNo == State().lastSeq
    {
      lastSeq := Inc(lastSeq);
      seqNo := lastSeq;
    }

    method SetActive(it: Item, now: int)
      modifies this
      ensures State() == Activate(old(State()), it, now)
    {
      pendingSeq, pendingCmd, pendingPortId, pendingSnapshot := it.seqNo, it.cmd, it.portId, it.payload;
      retryCount, retryable, lastSendMs := 0, true, now;
    }

    method EnqueuePending(it: Item, cmd: string) returns (code: SendCode)
      modifies queue
      ensures (State(), code) == Enqueue(old(State()), it, cmd)
    {
      var same := FindSlot(Named((it.seqNo, cmd)));
      if same < queue.Length {
        queue[same] := Some(queue[same].value.(portId := it.portId, payload := it.payload));
        return Ok;
      }
      var free := FindSlot(AnyFree);
      if free < queue.Length {
        queue[free] := Some(it);
        return Ok;
      }
      return QueueFull;
    }

    method PromoteNext(now: int)
      modifies this, queue
      ensures State() == Promote(old(State()), now)
    {
      if IsLive(Active()) {
        return;
      }
      var i := FindSlot(AnyUsed);
      if i < queue.Length {
        SetActive(queue[i].value, now);
        queue[i] := None;
      }
    }

    method TrackSent(seqNo: Word, cmd: string, payload: string, portId: string, now: int) returns (code: SendCode)
      modifies this, queue
      ensures (State(), code) == Track(old(State()), seqNo, cmd, payload, portId, now)
    {
      var it := Stored(seqNo, cmd, payload, portId);
      if !IsLive(Active()) || (pendingSeq == seqNo && pendingCmd == cmd) {
        SetActive(it, now);
        code := Ok;
      } else {
        code := EnqueuePending(it, cmd);
      }
    }

    method BumpConfigVersion()
      modifies this`configVersion
      ensures State() == BumpVersion(old(State()))
    {
      configVersion := Inc(configVersion);
      if configVersion == 0 {
        configVersion := 1;
      }
    }

    method MarkSentMessage(seqNo: Word, cmd: string, payload: string, portId: string, connected: bool, now: int)
      returns (code: SendCode)
      modifies this, queue
      ensures (State(), code) == MarkSent(old(State()), seqNo, cmd, payload, portId, connected, now)
    {
      if payload == "" {
        return InvalidArg;
      }
      if IsSnapshotCmd(cmd) {
        BumpConfigVersion();
      }
      if configVersion == 0 {
        configVersion := 1;
      }
      code := TrackSent(seqNo, cmd, payload, portId, now);
      status := if connected then Syncing else Offline;
    }

    method PublishLatestSnapshot(seqNo: Word, snapshot: Rendering, connected: bool, now: int, sent: SendCode)
      returns (code: SendCode)
      modifies this, queue
      ensures State() == PublishSnapshot(old(State()), seqNo, snapshot, connected, now)
      ensures code == if snapshot.Rendered? then sent else JsonError
    {
      if snapshot.ExportFailed? {
        return JsonError;
      }
      BumpConfigVersion();
      if snapshot.RenderFailed? {
        return JsonError;
      }
      var _ := TrackSent(seqNo, "config_snapshot", snapshot.json, DEFAULT_PORT, now);
      status := if connected then Syncing else Offline;
      code := sent;
    }

    method RetireAcked(m: Ack)
      modifies this, queue
      ensures State() == Retire(old(State()), m)
    {
      if m.seqNo != 0 && pendingSeq == m.seqNo && pendingCmd == m.cmd {
        if m.ok {
          pendingSeq, pendingCmd, pendingPortId, pendingSnapshot := 0, "", "", "";
        }
      } else if m.seqNo != 0 {
        var at := FindSlot(Named(m.Name()));
        if at < queue.Length {
          queue[at] := None;
        }
      }
    }

    method HandleAckMessage(m: Ack, now: int)
      modifies this, queue
      ensures State() == HandleAck(old(State()), m, now)
    {
      if m.kind != "ack" || !IsRegisterCmd(m.cmd) {
        return;
      }
      var activeMatch := m.seqNo != 0 && pendingSeq == m.seqNo && pendingCmd == m.cmd;
      var at := queue.Length;
      if !activeMatch && m.seqNo != 0 {
        at := FindSlot(Named(m.Name()));
      }
      if IsSnapshotCmd(m.cmd) && m.seqNo != 0 && pendingSeq != 0 && m.seqNo != pendingSeq && at == queue.Length {
        return;
      }
      RetireAcked(m);
      retryable := m.retryable;
      if !m.ok {
        status := if m.partial then PartialFailed else Failed;
        return;
      }
      ConfirmAcked(m, activeMatch, now);
    }

    method ConfirmAcked(m: Ack, activeMatch: bool, now: int)
      modifies this, queue
      ensures State() == Confirm(old(State()), m, activeMatch, now)
    {
      retryCount := 0;
      if IsSnapshotCmd(m.cmd) {
        lastAckedVersion := if m.version > 0 then m.version else configVersion;
        lastAckedSnapshot := true;
      }
      if IsSnapshotCmd(m.cmd) || activeMatch {
        PromoteNext(now);
      }
      status := if pendingSnapshot != "" then Syncing else Success;
    }

    /** The periodic retry; rewritten is what the JSON layer makes of the payload under the new seq. */
    method TickOnce(connected: bool, rewritten: Option<string>, now: int)
      modifies this, queue
      ensures State() == Tick(old(State()), connected, rewritten, now)
    {
      PromoteNext(now);
      if !IsLive(Active()) {
        return;
      }
      if !connected {
        status := Offline;
        return;
      }
      if !retryable || now - lastSendMs < ACK_TIMEOUT_MS {
        return;
      }
      if now - lastSendMs < RETRY_INTERVAL_MS {
        status := Timeout;
        return;
      }
      retryCount := retryCount + 1;
      lastSeq := Inc(lastSeq);
      status := if retryCount > MAX_FAST_RETRIES then Retrying else Timeout;
      if rewritten.Some? {
        pendingSnapshot := Clip(rewritten.value, PAYLOAD_SIZE);
        pendingSeq := lastSeq;
        lastSendMs := now;
      }
    }

    /** Allowed, in a state that a run of operations with honest ACKs has led to, exactly when an ok
        snapshot ACK opened the gate and nothing since has closed it. */
    method IsTelemetryAllowed() returns (allowed: bool)
      ensures forall es :: State() == Run(INIT, es) && AcksHonest(es) && |es| + 1 < WORD ==>
                (allowed <==> exists k: nat :: OpensGate(es, k))
      ensures allowed == TelemetryAllowed(State())
    {
      allowed := lastAckedVersion > 0 && lastAckedVersion == configVersion && lastAckedSnapshot;
      forall es | State() == Run(INIT, es) && AcksHonest(es) && |es| + 1 < WORD
        ensures allowed <==> exists k: nat :: OpensGate(es, k)
      {
        TelemetryAllowedIff(es);
      }
    }
  }
}
