/** What every run of the configuration-sync protocol keeps. */
module ConfigSyncProofs {
  import opened ConfigSync
  import opened Wrappers

  // ---------- The invariant ----------

  predicate Used(q: Slots, i: int) {
    0 <= i < |q| && q[i].Some?
  }

  ghost predicate WellShaped(active: Item, q: Slots) {
    && |q| == QUEUE_SLOTS
    && (IsLive(active) || active == NO_ITEM)
    && forall i :: Used(q, i) ==> IsLive(q[i].value)
  }

  ghost predicate QueueNeedsActive(active: Item, q: Slots) {
    forall i :: Used(q, i) ==> IsLive(active)
  }

  ghost predicate NamesUnique(active: Item, q: Slots) {
    && (forall i, j :: Used(q, i) && Used(q, j) && i != j ==> q[i].value.Name() != q[j].value.Name())
    && forall i :: Used(q, i) && IsLive(active) ==> q[i].value.Name() != active.Name()
  }

  ghost predicate SeqsBounded(active: Item, q: Slots, last: Word) {
    && active.seqNo <= last
    && forall i :: Used(q, i) ==> q[i].value.seqNo <= last
  }

  ghost predicate Sound(active: Item, q: Slots, last: Word) {
    WellShaped(active, q) && NamesUnique(active, q) && SeqsBounded(active, q, last)
  }

  ghost predicate Inv(s: Sync) {
    && Sound(s.active, s.queue, s.lastSeq)
    && QueueNeedsActive(s.active, s.queue)
    && (s.status == Success ==> !HasActive(s))
  }

  lemma PlaceKeepsSound(active: Item, q: Slots, last: Word, at: nat, it: Item)
    requires Sound(active, q, last) && IsLive(active) && at < |q|
    requires IsLive(it) && it.seqNo <= last && it.Name() != active.Name()
    requires forall i :: Used(q, i) && i != at ==> q[i].value.Name() != it.Name()
    ensures Sound(active, q[at := Some(it)], last)
  {
    var r := q[at := Some(it)];
    assert forall i :: Used(r, i) && i != at ==> Used(q, i) && r[i] == q[i];
  }

  lemma TrackKeepsSound(s: Sync, n: Word, cmd: string, payload: string, portId: string, now: int)
    requires Sound(s.active, s.queue, s.lastSeq) && QueueNeedsActive(s.active, s.queue)
    requires 0 < n <= s.lastSeq && |cmd| < CMD_SIZE && payload != ""
    ensures var t := Track(s, n, cmd, payload, portId, now).0;
            Sound(t.active, t.queue, t.lastSeq) && HasActive(t) && t.lastSeq == s.lastSeq
  {
    var it := Stored(n, cmd, payload, portId);
    if HasActive(s) && s.active.Name() != (n, cmd) {
      var same := FindFirst(s.queue, Named((n, cmd)));
      var free := FindFirst(s.queue, AnyFree);
      if same < |s.queue| {
        assert Used(s.queue, same);
        PlaceKeepsSound(s.active, s.queue, s.lastSeq, same,
                        s.queue[same].value.(portId := it.portId, payload := it.payload));
      } else if free < |s.queue| {
        assert forall i :: Used(s.queue, i) ==> !Hits(s.queue[i], Named((n, cmd)));
        PlaceKeepsSound(s.active, s.queue, s.lastSeq, free, it);
      }
    }
  }

  lemma PromoteKeepsSound(s: Sync, now: int)
    requires Sound(s.active, s.queue, s.lastSeq)
    ensures var t := Promote(s, now);
            Sound(t.active, t.queue, t.lastSeq) && QueueNeedsActive(t.active, t.queue) && t.lastSeq == s.lastSeq
  {
  }

  lemma ForgetKeepsSound(active: Item, q: Slots, last: Word, at: nat)
    requires Sound(active, q, last) && at < |q|
    ensures Sound(active, q[at := None], last) && Sound(NO_ITEM, q[at := None], last)
    ensures QueueNeedsActive(active, q) ==> QueueNeedsActive(active, q[at := None])
  {
    var r := q[at := None];
    assert forall i :: Used(r, i) ==> Used(q, i) && r[i] == q[i];
  }

  lemma RetireKeepsSound(s: Sync, m: Ack)
    requires Sound(s.active, s.queue, s.lastSeq) && QueueNeedsActive(s.active, s.queue)
    ensures var t := Retire(s, m);
            Sound(t.active, t.queue, t.lastSeq) && (t.active == s.active ==> QueueNeedsActive(t.active, t.queue))
  {
    var at := NamedSlot(s, m);
    if at < |s.queue| { ForgetKeepsSound(s.active, s.queue, s.lastSeq, at); }
  }

  lemma ConfirmKeepsInv(s: Sync, m: Ack, wasActive: bool, now: int)
    requires Sound(s.active, s.queue, s.lastSeq) && (!wasActive ==> QueueNeedsActive(s.active, s.queue))
    ensures Inv(Confirm(s, m, wasActive, now)) && Confirm(s, m, wasActive, now).lastSeq == s.lastSeq
  {
    PromoteKeepsSound(s.(retries := 0,
                         ackedVersion := if !IsSnapshotCmd(m.cmd) then s.ackedVersion
                                         else if m.version > 0 then m.version else s.version,
                         ackedSnapshot := s.ackedSnapshot || IsSnapshotCmd(m.cmd)), now);
  }

  lemma AckKeepsInv(s: Sync, m: Ack, now: int)
    requires Inv(s)
    ensures Inv(HandleAck(s, m, now)) && HandleAck(s, m, now).lastSeq == s.lastSeq
  {
    if IsProcessed(s, m) {
      RetireKeepsSound(s, m);
      if m.ok { ConfirmKeepsInv(Retire(s, m).(retryable := m.retryable), m, NamesActive(s, m), now); }
    }
  }

  lemma TickKeepsInv(s: Sync, connected: bool, rewritten: Option<string>, now: int)
    requires Inv(s) && s.lastSeq + 1 < WORD && (rewritten.Some? ==> rewritten.value != "")
    ensures var t := Tick(s, connected, rewritten, now);
            Inv(t) && s.lastSeq <= t.lastSeq <= s.lastSeq + 1
  {
    PromoteIsIdle(s, now);
    var t := Tick(s, connected, rewritten, now);
    if t.lastSeq > s.lastSeq {
      FreshSeqKeepsSound(s.active, s.queue, s.lastSeq, t.active);
    }
  }

  /** Outside an operation the queue never waits without an active item. */
  lemma PromoteIsIdle(s: Sync, now: int)
    requires Inv(s)
    ensures Promote(s, now) == s
  {
    var i := FindFirst(s.queue, AnyUsed);
    assert i < |s.queue| ==> Used(s.queue, i);
  }

  /** A seq above all others never collides. */
  lemma FreshSeqKeepsSound(active: Item, q: Slots, last: Word, it: Item)
    requires Sound(active, q, last) && QueueNeedsActive(active, q) && last + 1 < WORD
    requires IsLive(active) && IsLive(it) && (it == active || it.seqNo == last + 1)
    ensures Sound(it, q, last + 1) && QueueNeedsActive(it, q)
  {
  }

  lemma {:induction false} StepKeepsInv(s: Sync, e: Event)
    requires Inv(s) && CallerOk(s, e) && s.lastSeq + 1 < WORD
    ensures Inv(Step(s, e)) && s.lastSeq <= Step(s, e).lastSeq <= s.lastSeq + 1
  {
    match e
    case NextSeq =>
    case Mark(n, cmd, payload, portId, _, now) =>
      if payload != "" {
        var s1 := if IsSnapshotCmd(cmd) then BumpVersion(s) else if s.version == 0 then s.(version := 1) else s;
        TrackKeepsSound(s1, n, cmd, payload, portId, now);
      }
    case Publish(n, snapshot, _, now) =>
      if snapshot.Rendered? {
        TrackKeepsSound(BumpVersion(s), n, "config_snapshot", snapshot.json, DEFAULT_PORT, now);
      }
    case Acked(m, now) => AckKeepsInv(s, m, now);
    case Ticked(connected, rewritten, now) => TickKeepsInv(s, connected, rewritten, now);
  }

  // ---------- Safety over every run ----------

  /** As long as seqs cannot wrap, every run of well-behaved callers keeps the invariant. */
  lemma {:induction false} RunKeepsInv(s: Sync, es: seq<Event>)
    requires Inv(s) && CallersOk(s, es) && s.lastSeq + |es| < WORD
    ensures Inv(Run(s, es)) && s.lastSeq <= Run(s, es).lastSeq <= s.lastSeq + |es|
  {
    if es != [] {
      var pre := es[..|es| - 1];
      PrefixOk(s, es, |es| - 1);
      RunKeepsInv(s, pre);
      StepKeepsInv(Run(s, pre), es[|es| - 1]);
    }
  }

  lemma InitInv()
    ensures Inv(INIT)
  {
  }

  lemma PrefixOk(s: Sync, es: seq<Event>, n: nat)
    requires CallersOk(s, es) && n <= |es|
    ensures CallersOk(s, es[..n])
    ensures n < |es| ==> CallerOk(Run(s, es[..n]), es[n])
  {
    forall i | 0 <= i < n ensures CallerOk(Run(s, es[..n][..i]), es[..n][i]) {
      assert es[..n][..i] == es[..i];
    }
  }

  // ---------- Seqs that were not handed out ----------

  /** What comes without any new message: ACKs, and the clock. */
  predicate IsAnswer(e: Event) {
    e.Acked? || (e.Ticked? && (e.rewritten.Some? ==> e.rewritten.value != ""))
  }

  predicate AllAnswers(es: seq<Event>) {
    es != [] ==> AllAnswers(es[..|es| - 1]) && IsAnswer(es[|es| - 1])
  }

  /** At most as many seqs as ticks are handed out. */
  function Ticks(es: seq<Event>): nat {
    if es == [] then 0 else Ticks(es[..|es| - 1]) + if es[|es| - 1].Ticked? then 1 else 0
  }

  /** Whatever ACKs arrive and however often the active message is re-sent before seqs wrap, names stay
      unique. */
  ghost predicate StaysUnique(s: Sync) {
    forall es :: AllAnswers(es) && s.lastSeq + Ticks(es) < WORD ==> NamesUnique(Run(s, es).active, Run(s, es).queue)
  }

  /** One item may have a seq that was not handed out, namely n under cmd; if it is queued, no item of the
      command is ahead of it. */
  ghost predicate Foreign(s: Sync, n: Word, cmd: string) {
    && s.lastSeq <= n && Inv(s.(lastSeq := n))
    && (s.active.seqNo > s.lastSeq ==> s.active.Name() == (n, cmd))
    && forall i :: Used(s.queue, i) && s.queue[i].value.seqNo > s.lastSeq ==>
         s.queue[i].value.Name() == (n, cmd) && s.active.cmd != cmd &&
         forall j :: Used(s.queue, j) && j < i ==> s.queue[j].value.cmd != cmd
  }

  ghost predicate Tame(s: Sync, n: Word, cmd: string) {
    Inv(s) || Foreign(s, n, cmd)
  }

  ghost predicate Promoted(before: Slots, active: Item, q: Slots) {
    exists k :: Used(before, k) && active == before[k].value && forall i :: Used(q, i) ==> k < i
  }

  ghost predicate Subslots(q: Slots, before: Slots) {
    forall i :: Used(q, i) ==> Used(before, i) && q[i] == before[i]
  }

  lemma PromoteShape(s: Sync, now: int)
    ensures var t := Promote(s, now);
            && t.lastSeq == s.lastSeq && Subslots(t.queue, s.queue)
            && (t.active == s.active || Promoted(s.queue, t.active, t.queue))
  {
    var k := FindFirst(s.queue, AnyUsed);
    if k < |s.queue| { assert Used(s.queue, k); }
  }

  lemma PromoteIgnoresCounter(s: Sync, n: Word, now: int)
    ensures Promote(s.(lastSeq := n), now) == Promote(s, now).(lastSeq := n)
  {
  }

  lemma ConfirmShape(s: Sync, m: Ack, wasActive: bool, now: int)
    ensures var t := Confirm(s, m, wasActive, now);
            && t.lastSeq == s.lastSeq && Subslots(t.queue, s.queue)
            && (t.active == s.active || Promoted(s.queue, t.active, t.queue))
  {
    PromoteShape(s.(retries := 0,
                    ackedVersion := if !IsSnapshotCmd(m.cmd) then s.ackedVersion
                                    else if m.version > 0 then m.version else s.version,
                    ackedSnapshot := s.ackedSnapshot || IsSnapshotCmd(m.cmd)), now);
  }

  lemma ConfirmIgnoresCounter(s: Sync, n: Word, m: Ack, wasActive: bool, now: int)
    ensures Confirm(s.(lastSeq := n), m, wasActive, now) == Confirm(s, m, wasActive, now).(lastSeq := n)
  {
    PromoteIgnoresCounter(s.(retries := 0,
                             ackedVersion := if !IsSnapshotCmd(m.cmd) then s.ackedVersion
                                             else if m.version > 0 then m.version else s.version,
                             ackedSnapshot := s.ackedSnapshot || IsSnapshotCmd(m.cmd)), n, now);
  }

  /** An ACK takes items away and may promote the lowest that is left. */
  lemma AckShape(s: Sync, m: Ack, now: int)
    ensures var t := HandleAck(s, m, now);
            && t.lastSeq == s.lastSeq && Subslots(t.queue, s.queue)
            && (t.active == s.active || t.active == NO_ITEM || Promoted(s.queue, t.active, t.queue))
  {
    if IsProcessed(s, m) {
      var r := Retire(s, m).(retryable := m.retryable);
      assert Subslots(r.queue, s.queue);
      if m.ok {
        ConfirmShape(r, m, NamesActive(s, m), now);
        var t := HandleAck(s, m, now);
        if Promoted(r.queue, t.active, t.queue) {
          var k :| Used(r.queue, k) && t.active == r.queue[k].value && forall i :: Used(t.queue, i) ==> k < i;
          assert Used(s.queue, k);
        }
      }
    }
  }

  lemma AckIgnoresCounter(s: Sync, n: Word, m: Ack, now: int)
    ensures HandleAck(s.(lastSeq := n), m, now) == HandleAck(s, m, now).(lastSeq := n)
  {
    ConfirmIgnoresCounter(Retire(s, m).(retryable := m.retryable), n, m, NamesActive(s, m), now);
  }

  lemma AckKeepsForeign(s: Sync, n: Word, cmd: string, m: Ack, now: int)
    requires Foreign(s, n, cmd)
    ensures Foreign(HandleAck(s, m, now), n, cmd) && HandleAck(s, m, now).lastSeq == s.lastSeq
  {
    AckKeepsInv(s.(lastSeq := n), m, now);
    AckIgnoresCounter(s, n, m, now);
    AckShape(s, m, now);
  }

  lemma TickKeepsForeign(s: Sync, n: Word, cmd: string, e: Event)
    requires Foreign(s, n, cmd) && n > s.lastSeq && e.Ticked? && IsAnswer(e)
    ensures Tame(Step(s, e), n, cmd) && Step(s, e).lastSeq <= s.lastSeq + 1
  {
    var t := Step(s, e);
    TickIsRetry(s, n, e);
    if t.lastSeq > s.lastSeq && t.active != s.active {
      assert forall i :: Used(s.queue, i) ==> s.queue[i].value.Name() != t.active.Name();
      if s.active.seqNo > s.lastSeq {
        assert Inv(t);
      } else {
        assert Foreign(t, n, cmd);
      }
    }
  }

  /** A tick leaves the queue alone and renames the active item, if anything. */
  lemma TickIsRetry(s: Sync, n: Word, e: Event)
    requires Inv(s.(lastSeq := n)) && n > s.lastSeq && e.Ticked? && IsAnswer(e)
    ensures var t := Step(s, e);
            && t.queue == s.queue && s.lastSeq <= t.lastSeq <= s.lastSeq + 1
            && (t.status == Success ==> !HasActive(t))
            && (t.active == s.active || (t.lastSeq == s.lastSeq + 1 && HasActive(s) && IsLive(t.active) &&
                                         t.active.Name() == (t.lastSeq, s.active.cmd)))
  {
    PromoteIsIdle(s.(lastSeq := n), e.now);
  }

  lemma StepKeepsTame(s: Sync, n: Word, cmd: string, e: Event)
    requires Tame(s, n, cmd) && IsAnswer(e) && (e.Ticked? ==> s.lastSeq + 1 < WORD)
    ensures Tame(Step(s, e), n, cmd) && Step(s, e).lastSeq <= s.lastSeq + if e.Ticked? then 1 else 0
  {
    if Inv(s) {
      AnswerKeepsInv(s, e);
    } else if e.Acked? {
      AckKeepsForeign(s, n, cmd, e.ack, e.now);
    } else {
      TickKeepsForeign(s, n, cmd, e);
    }
  }

  lemma AnswerKeepsInv(s: Sync, e: Event)
    requires Inv(s) && IsAnswer(e) && (e.Ticked? ==> s.lastSeq + 1 < WORD)
    ensures Inv(Step(s, e)) && Step(s, e).lastSeq <= s.lastSeq + if e.Ticked? then 1 else 0
  {
    match e
    case Acked(m, now) => AckKeepsInv(s, m, now);
    case Ticked(connected, rewritten, now) => TickKeepsInv(s, connected, rewritten, now);
  }

  lemma {:induction false} RunStaysTame(s: Sync, n: Word, cmd: string, es: seq<Event>)
    requires Tame(s, n, cmd) && AllAnswers(es) && s.lastSeq + Ticks(es) < WORD
    ensures Tame(Run(s, es), n, cmd) && Run(s, es).lastSeq <= s.lastSeq + Ticks(es)
  {
    if es != [] {
      RunStaysTame(s, n, cmd, es[..|es| - 1]);
      StepKeepsTame(Run(s, es[..|es| - 1]), n, cmd, es[|es| - 1]);
    }
  }

  // ---------- How they collide ----------

  lemma {:induction false} RunFirst(s: Sync, e: Event, es: seq<Event>)
    ensures Run(s, [e] + es) == Run(Step(s, e), es)
    ensures AllAnswers([e] + es) <==> IsAnswer(e) && AllAnswers(es)
    ensures Ticks([e] + es) == (if e.Ticked? then 1 else 0) + Ticks(es)
  {
    if es == [] {
      assert [e] + es == [e] && [e][..0] == [];
    } else {
      var pre := es[..|es| - 1];
      RunFirst(s, e, pre);
      assert ([e] + es)[..|[e] + es| - 1] == [e] + pre;
    }
  }

  /** A tick that is due and re-sends. */
  predicate IsDueRetry(s: Sync, e: Event) {
    e.Ticked? && e.rewritten.Some? && e.rewritten.value != "" && RetryDue(s, e.connected, e.now)
  }

  lemma RetryRenames(s: Sync, e: Event)
    requires IsDueRetry(s, e) && s.lastSeq + 1 < WORD
    ensures var t := Step(s, e);
            && HasActive(t) && t.queue == s.queue && t.lastSeq == s.lastSeq + 1 && t.retryable == s.retryable
            && t.active.Name() == (t.lastSeq, s.active.cmd)
  {
  }

  /** The seq counter reaches a seq that is ahead of it. */
  lemma {:induction false} RetriesReach(s: Sync, n: Word) returns (es: seq<Event>)
    requires HasActive(s) && s.retryable && n > s.lastSeq
    ensures AllAnswers(es) && Ticks(es) == n - s.lastSeq
    ensures var t := Run(s, es); HasActive(t) && t.queue == s.queue && t.active.Name() == (n, s.active.cmd)
    decreases n - s.lastSeq
  {
    var e := Ticked(true, Some("x"), s.lastSendMs + RETRY_INTERVAL_MS);
    var t := Step(s, e);
    RetryRenames(s, e);
    var rest := [];
    if n > t.lastSeq { rest := RetriesReach(t, n); }
    RunFirst(s, e, rest);
    es := [e] + rest;
  }

  ghost predicate Registers(active: Item, q: Slots) {
    (IsLive(active) ==> IsRegisterCmd(active.cmd)) && forall i :: Used(q, i) ==> IsRegisterCmd(q[i].value.cmd)
  }

  /** An item of the command is active, or queued below slot at. */
  ghost predicate IsAhead(active: Item, q: Slots, at: nat, cmd: string) {
    active.cmd == cmd || exists j :: Used(q, j) && j < at && q[j].value.cmd == cmd
  }

  /** Slot at holds a seq that was not handed out. */
  ghost predicate HoldsForeign(s: Sync, at: nat, n: Word, cmd: string) {
    && n > s.lastSeq && Inv(s.(lastSeq := n)) && Registers(s.active, s.queue)
    && Used(s.queue, at) && s.queue[at].value.Name() == (n, cmd)
    && s.active.seqNo <= s.lastSeq && forall i :: Used(s.queue, i) && i != at ==> s.queue[i].value.seqNo <= s.lastSeq
  }

  /** The peer acknowledges the active message: with success, or with a failure that may be retried. */
  function AckOfActive(s: Sync, ok: bool): Event {
    Acked(Ack("ack", s.active.cmd, s.active.seqNo, 0, ok, false, true), 0)
  }

  lemma FailureKeepsItem(s: Sync)
    requires HasActive(s) && IsRegisterCmd(s.active.cmd)
    ensures Step(s, AckOfActive(s, false)) == s.(retryable := true, status := Failed)
  {
  }

  lemma SuccessPromotes(s: Sync)
    requires HasActive(s) && IsRegisterCmd(s.active.cmd) && FindFirst(s.queue, AnyUsed) < |s.queue|
    ensures var t, k := Step(s, AckOfActive(s, true)), FindFirst(s.queue, AnyUsed);
            t.active == s.queue[k].value && t.queue == s.queue[k := None] && t.lastSeq == s.lastSeq
  {
  }

  /** When the active item is of the command, its retries take the queued item's name. */
  lemma ActiveCollides(s: Sync, at: nat, n: Word, cmd: string) returns (es: seq<Event>)
    requires HoldsForeign(s, at, n, cmd) && s.active.cmd == cmd
    ensures AllAnswers(es) && Ticks(es) == n - s.lastSeq && !NamesUnique(Run(s, es).active, Run(s, es).queue)
  {
    var e := AckOfActive(s, false);
    FailureKeepsItem(s);
    var rest := RetriesReach(Step(s, e), n);
    RunFirst(s, e, rest);
    es := [e] + rest;
    assert Used(Run(s, es).queue, at);
  }

  /** Otherwise ACKs promote one slot after the other until it is. */
  lemma {:induction false} ForeignCollides(s: Sync, at: nat, n: Word, cmd: string) returns (es: seq<Event>)
    requires HoldsForeign(s, at, n, cmd) && IsAhead(s.active, s.queue, at, cmd)
    ensures AllAnswers(es) && Ticks(es) == n - s.lastSeq && !NamesUnique(Run(s, es).active, Run(s, es).queue)
    decreases |s.queue| - FindFirst(s.queue, AnyUsed)
  {
    if s.active.cmd == cmd {
      es := ActiveCollides(s, at, n, cmd);
    } else {
      var e := AckOfActive(s, true);
      PromotedStillForeign(s, at, n, cmd);
      var rest := ForeignCollides(Step(s, e), at, n, cmd);
      RunFirst(s, e, rest);
      es := [e] + rest;
    }
  }

  lemma PromotedStillForeign(s: Sync, at: nat, n: Word, cmd: string)
    requires HoldsForeign(s, at, n, cmd) && IsAhead(s.active, s.queue, at, cmd) && s.active.cmd != cmd
    ensures var t := Step(s, AckOfActive(s, true));
            && HoldsForeign(t, at, n, cmd) && IsAhead(t.active, t.queue, at, cmd) && t.lastSeq == s.lastSeq
            && |t.queue| == |s.queue| && FindFirst(t.queue, AnyUsed) > FindFirst(s.queue, AnyUsed)
  {
    var e, k := AckOfActive(s, true), FindFirst(s.queue, AnyUsed);
    var j :| Used(s.queue, j) && j < at && s.queue[j].value.cmd == cmd;
    assert HasActive(s) && k <= j;
    SuccessPromotes(s);
    AckKeepsInv(s.(lastSeq := n), e.ack, e.now);
    AckIgnoresCounter(s, n, e.ack, e.now);
    SlotsAfterPromotion(s.queue, k);
    TakenStillForeign(s, Step(s, e), k, j, at, n, cmd);
  }

  lemma SlotsAfterPromotion(q: Slots, k: nat)
    requires k < |q| && k == FindFirst(q, AnyUsed)
    ensures Used(q, k) && FindFirst(q[k := None], AnyUsed) > k
    ensures forall i :: Used(q[k := None], i) <==> Used(q, i) && i != k
  {
    var r := q[k := None];
    assert Hits(q[k], AnyUsed) && r[k].None?;
    forall i | 0 <= i <= k ensures !Hits(r[i], AnyUsed) {
      assert i < k ==> r[i] == q[i] && !Hits(q[i], AnyUsed);
    }
    forall i ensures Used(r, i) <==> Used(q, i) && i != k {}
  }

  lemma TakenStillForeign(s: Sync, t: Sync, k: nat, j: nat, at: nat, n: Word, cmd: string)
    requires HoldsForeign(s, at, n, cmd) && Used(s.queue, k) && k <= j < at
    requires Used(s.queue, j) && s.queue[j].value.cmd == cmd
    requires t.active == s.queue[k].value && t.queue == s.queue[k := None] && t.lastSeq == s.lastSeq
    requires Inv(t.(lastSeq := n)) && forall i :: Used(t.queue, i) <==> Used(s.queue, i) && i != k
    ensures HoldsForeign(t, at, n, cmd) && IsAhead(t.active, t.queue, at, cmd)
  {
    assert k != j ==> Used(t.queue, j);
  }

  // ---------- The exact condition on a caller ----------

  /** The message a caller tracks. */
  function Tracked(e: Event): (Word, string)
    requires e.Mark? || e.Publish?
  {
    if e.Mark? then (e.seqNo, e.cmd) else (e.seqNo, "config_snapshot")
  }

  function TrackedPayload(e: Event): string
    requires e.Mark? || e.Publish?
  {
    if e.Mark? then e.payload else if e.snapshot.Rendered? then e.snapshot.json else ""
  }

  /** A message, register or snapshot, that goes into the side queue. */
  predicate IsQueued(s: Sync, e: Event) {
    && HasActive(s) && (e.Mark? || e.Publish?) && TrackedPayload(e) != "" && e.seqNo != 0
    && IsRegisterCmd(Tracked(e).1) && Tracked(e) != s.active.Name()
    && (FindFirst(s.queue, AnyFree) < |s.queue| || FindFirst(s.queue, Named(Tracked(e))) < |s.queue|)
  }

  /** The slot a message gets. */
  function SlotOf(q: Slots, name: (Word, string)): nat {
    var same := FindFirst(q, Named(name));
    if same < |q| then same else FindFirst(q, AnyFree)
  }

  function SlotFor(s: Sync, e: Event): nat
    requires e.Mark? || e.Publish?
  {
    SlotOf(s.queue, Tracked(e))
  }

  ghost predicate StoredAt(s: Sync, t: Sync, at: nat, name: (Word, string)) {
    && at < |s.queue| && t.active == s.active && t.lastSeq == s.lastSeq
    && Used(t.queue, at) && IsLive(t.queue[at].value) && t.queue[at].value.Name() == name
    && t.queue == s.queue[at := t.queue[at]]
  }

  lemma TrackStores(s: Sync, n: Word, cmd: string, payload: string, portId: string, now: int)
    requires WellShaped(s.active, s.queue) && HasActive(s) && (n, cmd) != s.active.Name()
    requires payload != "" && n != 0 && |cmd| < CMD_SIZE && SlotOf(s.queue, (n, cmd)) < |s.queue|
    ensures StoredAt(s, Track(s, n, cmd, payload, portId, now).0, SlotOf(s.queue, (n, cmd)), (n, cmd))
  {
    var it := Stored(n, cmd, payload, portId);
    var same := FindFirst(s.queue, Named((n, cmd)));
    assert IsLive(it) && it.Name() == (n, cmd);
    assert same < |s.queue| ==> Used(s.queue, same);
  }

  lemma QueuedIsStored(s: Sync, e: Event)
    requires Inv(s) && IsQueued(s, e)
    ensures StoredAt(s, Step(s, e), SlotFor(s, e), Tracked(e)) && Step(s, e).status != Success
  {
    if e.Mark? {
      var s1 := if IsSnapshotCmd(e.cmd) then BumpVersion(s) else if s.version == 0 then s.(version := 1) else s;
      TrackStores(s1, e.seqNo, e.cmd, e.payload, e.portId, e.now);
    } else {
      TrackStores(BumpVersion(s), e.seqNo, "config_snapshot", e.snapshot.json, DEFAULT_PORT, e.now);
    }
  }

  /** After it, names are unique, and at most this one seq was not handed out. */
  lemma QueuedIsSound(s: Sync, e: Event)
    requires Inv(s) && IsQueued(s, e)
    ensures var t := Step(s, e);
            && (e.seqNo <= s.lastSeq ==> Inv(t))
            && (e.seqNo > s.lastSeq ==> Inv(t.(lastSeq := e.seqNo)))
            && (e.seqNo > s.lastSeq ==> SlotFor(s, e) == FindFirst(s.queue, AnyFree))
            && forall i :: Used(t.queue, i) && i != SlotFor(s, e) ==> Used(s.queue, i) && t.queue[i] == s.queue[i]
  {
    var t, at := Step(s, e), SlotFor(s, e);
    QueuedIsStored(s, e);
    if Used(s.queue, at) { assert s.queue[at].value.Name() == Tracked(e); }
    forall i | Used(t.queue, i) && i != at
      ensures Used(s.queue, i) && t.queue[i] == s.queue[i] && s.queue[i].value.Name() != Tracked(e)
    {
      assert Used(s.queue, i);
      if !Used(s.queue, at) { assert !Hits(s.queue[i], Named(Tracked(e))); }
    }
  }

  /** Whatever command is ahead when the message goes into the queue. */
  ghost predicate CommandAhead(s: Sync, e: Event)
    requires e.Mark? || e.Publish?
  {
    IsAhead(s.active, s.queue, SlotFor(s, e), Tracked(e).1)
  }

  lemma QueuedIsForeign(s: Sync, e: Event)
    requires Inv(s) && Registers(s.active, s.queue) && IsQueued(s, e) && e.seqNo > s.lastSeq
    ensures var t := Step(s, e);
            && HoldsForeign(t, SlotFor(s, e), e.seqNo, Tracked(e).1)
            && (IsAhead(t.active, t.queue, SlotFor(s, e), Tracked(e).1) <==> CommandAhead(s, e))
  {
    QueuedIsStored(s, e);
    QueuedIsSound(s, e);
    assert forall j :: j < SlotFor(s, e) ==> (Used(Step(s, e).queue, j) <==> Used(s.queue, j));
  }

  /** The exact condition on a caller: a message that goes into the side queue under seq n keeps names
      unique, whatever ACKs arrive and however often messages are re-sent, if and only if n had been handed
      out, or no item of its command is active or in a lower slot. */
  lemma ForeignSeqIff(s: Sync, e: Event)
    requires Inv(s) && Registers(s.active, s.queue) && IsQueued(s, e)
    ensures StaysUnique(Step(s, e)) <==> e.seqNo <= s.lastSeq || !CommandAhead(s, e)
  {
    var t := Step(s, e);
    QueuedIsStored(s, e);
    QueuedIsSound(s, e);
    if e.seqNo <= s.lastSeq || !CommandAhead(s, e) {
      if e.seqNo > s.lastSeq { QueuedIsForeign(s, e); }
      assert Tame(t, e.seqNo, Tracked(e).1);
      forall es | AllAnswers(es) && t.lastSeq + Ticks(es) < WORD
        ensures NamesUnique(Run(t, es).active, Run(t, es).queue)
      {
        RunStaysTame(t, e.seqNo, Tracked(e).1, es);
      }
    } else {
      var es := ForeignSeqCollides(s, e);
    }
  }

  /** Any other message is accepted, and after as many retries as its seq is ahead two tracked items share
      a name. */
  lemma ForeignSeqCollides(s: Sync, e: Event) returns (es: seq<Event>)
    requires Inv(s) && Registers(s.active, s.queue) && IsQueued(s, e) && e.seqNo > s.lastSeq && CommandAhead(s, e)
    ensures var t := Step(s, e);
            && NamesUnique(t.active, t.queue) && t.lastSeq == s.lastSeq
            && AllAnswers(es) && Ticks(es) == e.seqNo - s.lastSeq
            && !NamesUnique(Run(t, es).active, Run(t, es).queue)
  {
    QueuedIsForeign(s, e);
    QueuedIsStored(s, e);
    es := ForeignCollides(Step(s, e), SlotFor(s, e), e.seqNo, Tracked(e).1);
  }

  // ---------- Who leaves tracking, and why ----------

  ghost predicate TracksIn(active: Item, q: Slots, name: (Word, string)) {
    (IsLive(active) && active.Name() == name) || exists i :: Used(q, i) && q[i].value.Name() == name
  }

  ghost predicate Tracks(s: Sync, name: (Word, string)) {
    TracksIn(s.active, s.queue, name)
  }

  /** The only event that ends the tracking of `name`: an ACK that names it, and a successful one
      when the item is the active one. */
  predicate Retires(s: Sync, e: Event, name: (Word, string)) {
    e.Acked? && e.ack.kind == "ack" && IsRegisterCmd(e.ack.cmd) && e.ack.Name() == name &&
    (HasActive(s) && s.active.Name() == name ==> e.ack.ok)
  }

  /** The name a tracked item bears after the event: a retry renames the active one. */
  function Renamed(s: Sync, e: Event, name: (Word, string)): (Word, string) {
    if e.Ticked? && HasActive(s) && s.active.Name() == name then Step(s, e).active.Name() else name
  }

  function NameAfter(s: Sync, es: seq<Event>, name: (Word, string)): (Word, string) {
    if es == [] then name
    else var pre := es[..|es| - 1]; Renamed(Run(s, pre), es[|es| - 1], NameAfter(s, pre, name))
  }

  /** Accepting a message adds its name and nothing else; only a full side queue refuses. */
  lemma TrackTracksIff(s: Sync, n: Word, cmd: string, payload: string, portId: string, now: int, name: (Word, string))
    requires Inv(s) && 0 < n && |cmd| < CMD_SIZE && payload != ""
    ensures var (t, code) := Track(s, n, cmd, payload, portId, now);
            && (Tracks(t, name) <==> Tracks(s, name) || (code == Ok && name == (n, cmd)))
            && (code == QueueFull <==>
                HasActive(s) && !Tracks(s, (n, cmd)) && forall i :: 0 <= i < QUEUE_SLOTS ==> Used(s.queue, i))
            && (code == Ok || code == QueueFull)
  {
    var (t, code) := Track(s, n, cmd, payload, portId, now);
    if HasActive(s) && s.active.Name() != (n, cmd) {
      var same := FindFirst(s.queue, Named((n, cmd)));
      var free := FindFirst(s.queue, AnyFree);
      EnqueueTracksIff(s, Stored(n, cmd, payload, portId), cmd, name);
      if i :| Used(s.queue, i) && s.queue[i].value.Name() == (n, cmd) {
        assert Hits(s.queue[i], Named((n, cmd)));
      }
      if same < |s.queue| { assert Used(s.queue, same); }
      if free < |s.queue| { assert !Used(s.queue, free); }
      else { assert forall i :: 0 <= i < |s.queue| ==> !Hits(s.queue[i], AnyFree); }
    }
  }

  /** A message sent under seq 0 is accepted, and forgotten: no item is active afterwards. */
  lemma SeqZeroIsNotTracked(s: Sync, cmd: string, payload: string, portId: string, now: int)
    requires !HasActive(s) && payload != ""
    ensures var (t, code) := Track(s, 0, cmd, payload, portId, now);
            code == Ok && !HasActive(t) && t.active.payload == Clip(payload, PAYLOAD_SIZE) != ""
  {
    var it := Stored(0, cmd, payload, portId);
    assert it.payload != "" && !IsLive(it);
  }

  lemma EnqueueTracksIff(s: Sync, it: Item, cmd: string, name: (Word, string))
    requires HasActive(s) && it.cmd == cmd
    ensures var (t, code) := Enqueue(s, it, cmd);
            Tracks(t, name) <==> Tracks(s, name) || (code == Ok && name == it.Name())
  {
    var (t, code) := Enqueue(s, it, cmd);
    if code == Ok {
      var same := FindFirst(s.queue, Named((it.seqNo, cmd)));
      var at := if same < |s.queue| then same else FindFirst(s.queue, AnyFree);
      assert Used(t.queue, at) && t.queue[at].value.Name() == it.Name();
      if i :| Used(s.queue, i) && s.queue[i].value.Name() == name { assert Used(t.queue, i); }
      if i :| Used(t.queue, i) && t.queue[i].value.Name() == name && i != at { assert Used(s.queue, i); }
    }
  }

  lemma PromoteKeepsTracking(s: Sync, now: int, name: (Word, string))
    requires Sound(s.active, s.queue, s.lastSeq)
    ensures Tracks(Promote(s, now), name) <==> Tracks(s, name)
  {
    var t := Promote(s, now);
    var at := FindFirst(s.queue, AnyUsed);
    if t != s {
      assert Used(s.queue, at) && t.active == s.queue[at].value && t.queue == s.queue[at := None];
      if i :| Used(s.queue, i) && s.queue[i].value.Name() == name {
        if i != at { assert Used(t.queue, i); }
      }
      if i :| Used(t.queue, i) && t.queue[i].value.Name() == name {
        assert Used(s.queue, i);
      }
    }
  }

  lemma RetireTracksIff(s: Sync, m: Ack, name: (Word, string))
    requires Inv(s) && Tracks(s, name)
    ensures Tracks(Retire(s, m), name) <==> !(m.Name() == name && (HasActive(s) && s.active.Name() == name ==> m.ok))
  {
    var t := Retire(s, m);
    var at := NamedSlot(s, m);
    assert HasActive(s);
    if s.active.Name() == name {
      assert forall i :: Used(t.queue, i) ==> Used(s.queue, i) && t.queue[i] == s.queue[i];
    } else {
      var i :| Used(s.queue, i) && s.queue[i].value.Name() == name;
      if m.Name() == name {
        assert Hits(s.queue[i], Named(name));
        assert Used(s.queue, at) && at == i;
        assert forall j :: Used(t.queue, j) ==> Used(s.queue, j) && j != at;
      } else {
        assert at != i;
        assert Used(t.queue, i);
      }
    }
  }

  lemma StepTracksIff(s: Sync, e: Event, name: (Word, string))
    requires Inv(s) && CallerOk(s, e) && s.lastSeq + 1 < WORD && Tracks(s, name)
    ensures Tracks(Step(s, e), Renamed(s, e, name)) <==> !Retires(s, e, name)
  {
    match e
    case NextSeq =>
    case Mark(n, cmd, payload, portId, _, now) =>
      if payload != "" {
        var s1 := if IsSnapshotCmd(cmd) then BumpVersion(s) else if s.version == 0 then s.(version := 1) else s;
        TrackTracksIff(s1, n, cmd, payload, portId, now, name);
      }
    case Publish(n, snapshot, _, now) =>
      if snapshot.Rendered? {
        TrackTracksIff(BumpVersion(s), n, "config_snapshot", snapshot.json, DEFAULT_PORT, now, name);
      }
    case Acked(m, now) => AckTracksIff(s, m, now, name);
    case Ticked(connected, rewritten, now) => TickTracks(s, connected, rewritten, now, name);
  }

  lemma ConfirmKeepsTracking(s: Sync, m: Ack, wasActive: bool, now: int, name: (Word, string))
    requires Sound(s.active, s.queue, s.lastSeq)
    ensures Tracks(Confirm(s, m, wasActive, now), name) <==> Tracks(s, name)
  {
    PromoteKeepsTracking(s.(retries := 0,
                            ackedVersion := if !IsSnapshotCmd(m.cmd) then s.ackedVersion
                                            else if m.version > 0 then m.version else s.version,
                            ackedSnapshot := s.ackedSnapshot || IsSnapshotCmd(m.cmd)), now, name);
  }

  lemma AckTracksIff(s: Sync, m: Ack, now: int, name: (Word, string))
    requires Inv(s) && Tracks(s, name)
    ensures Tracks(HandleAck(s, m, now), name) <==> !Retires(s, Acked(m, now), name)
  {
    if IsProcessed(s, m) {
      RetireTracksIff(s, m, name);
      RetireKeepsSound(s, m);
      if m.ok { ConfirmKeepsTracking(Retire(s, m).(retryable := m.retryable), m, NamesActive(s, m), now, name); }
    } else if m.Name() == name {
      if i :| Used(s.queue, i) && s.queue[i].value.Name() == name {
        assert Hits(s.queue[i], Named(name));
      }
    }
  }

  lemma TickTracks(s: Sync, connected: bool, rewritten: Option<string>, now: int, name: (Word, string))
    requires Inv(s) && s.lastSeq + 1 < WORD && (rewritten.Some? ==> rewritten.value != "") && Tracks(s, name)
    ensures Tracks(Tick(s, connected, rewritten, now), Renamed(s, Ticked(connected, rewritten, now), name))
  {
    var t := Tick(s, connected, rewritten, now);
    assert HasActive(s) && t.queue == s.queue && HasActive(t);
  }

  /** Over a whole run from any reachable state: an item stays tracked, under the name its retries
      gave it, until the ACK that names it arrives. */
  lemma {:induction false} TrackedUntilAcked(s: Sync, es: seq<Event>, name: (Word, string))
    requires Inv(s) && CallersOk(s, es) && s.lastSeq + |es| < WORD && Tracks(s, name)
    requires forall i :: 0 <= i < |es| ==> !Retires(Run(s, es[..i]), es[i], NameAfter(s, es[..i], name))
    ensures Tracks(Run(s, es), NameAfter(s, es, name))
  {
    if es != [] {
      var n := |es| - 1;
      var pre := es[..n];
      PrefixOk(s, es, n);
      forall i | 0 <= i < n ensures !Retires(Run(s, pre[..i]), pre[i], NameAfter(s, pre[..i], name)) {
        assert pre[..i] == es[..i] && pre[i] == es[i];
      }
      TrackedUntilAcked(s, pre, name);
      RunKeepsInv(s, pre);
      StepTracksIff(Run(s, pre), es[n], NameAfter(s, pre, name));
    }
  }

  // ---------- The telemetry gate ----------

  predicate CreatesVersion(e: Event) {
    (e.Mark? && e.payload != "" && IsSnapshotCmd(e.cmd)) || (e.Publish? && !e.snapshot.ExportFailed?)
  }

  predicate IsOkSnapshotAck(s: Sync, e: Event) {
    e.Acked? && IsProcessed(s, e.ack) && IsSnapshotCmd(e.ack.cmd) && e.ack.ok
  }

  /** No ACK speaks of a configuration version that does not exist yet. */
  predicate AckHonest(s: Sync, e: Event) {
    e.Acked? ==> e.ack.version <= s.version
  }

  ghost predicate AcksHonest(es: seq<Event>) {
    forall i :: 0 <= i < |es| ==> AckHonest(Run(INIT, es[..i]), es[i])
  }

  /** Event k is an ok snapshot ACK of the then current version, and neither a newer version nor
      another ok snapshot ACK follows it. */
  ghost predicate OpensGate(es: seq<Event>, k: nat) {
    && k < |es|
    && IsOkSnapshotAck(Run(INIT, es[..k]), es[k])
    && 0 < Run(INIT, es[..k]).version
    && (es[k].ack.version == 0 || es[k].ack.version == Run(INIT, es[..k]).version)
    && forall j :: k < j < |es| ==> !CreatesVersion(es[j]) && !IsOkSnapshotAck(Run(INIT, es[..j]), es[j])
  }

  ghost predicate SameVersions(s: Sync, t: Sync) {
    t.version == s.version && t.ackedVersion == s.ackedVersion && t.ackedSnapshot == s.ackedSnapshot
  }

  lemma TrackKeepsVersions(s: Sync, n: Word, cmd: string, payload: string, portId: string, now: int)
    ensures SameVersions(s, Track(s, n, cmd, payload, portId, now).0)
  {
  }

  lemma TickKeepsVersions(s: Sync, connected: bool, rewritten: Option<string>, now: int)
    ensures SameVersions(s, Tick(s, connected, rewritten, now))
  {
  }

  lemma AckVersions(s: Sync, m: Ack, now: int)
    ensures var t := HandleAck(s, m, now);
            if IsProcessed(s, m) && IsSnapshotCmd(m.cmd) && m.ok
            then SameVersions(t, s.(ackedVersion := if m.version > 0 then m.version else s.version,
                                    ackedSnapshot := true))
            else SameVersions(s, t)
  {
  }

  lemma {:induction false} StepVersions(s: Sync, e: Event)
    requires s.version + 1 < WORD
    ensures var t := Step(s, e);
            && t.version == (if CreatesVersion(e) then s.version + 1
                             else if s.version == 0 && e.Mark? && e.payload != "" then 1 else s.version)
            && t.ackedVersion == (if !IsOkSnapshotAck(s, e) then s.ackedVersion
                                  else if e.ack.version > 0 then e.ack.version else s.version)
            && t.ackedSnapshot == (s.ackedSnapshot || IsOkSnapshotAck(s, e))
  {
    match e
    case NextSeq =>
    case Mark(n, cmd, payload, portId, _, now) =>
      var s1 := if IsSnapshotCmd(cmd) then BumpVersion(s) else if s.version == 0 then s.(version := 1) else s;
      TrackKeepsVersions(s1, n, cmd, payload, portId, now);
    case Publish(n, snapshot, _, now) =>
      if snapshot.Rendered? {
        TrackKeepsVersions(BumpVersion(s), n, "config_snapshot", snapshot.json, DEFAULT_PORT, now);
      }
    case Acked(m, now) => AckVersions(s, m, now);
    case Ticked(connected, rewritten, now) => TickKeepsVersions(s, connected, rewritten, now);
  }

  /** The acknowledged version stays at most the current one through a step exactly when the step is
      not an ok snapshot ACK of a later version. */
  lemma {:induction false} StepKeepsAckedBoundIff(s: Sync, e: Event)
    requires s.ackedVersion <= s.version && s.version + 1 < WORD
    ensures Step(s, e).ackedVersion <= Step(s, e).version <==> (IsOkSnapshotAck(s, e) ==> e.ack.version <= s.version)
  {
    StepVersions(s, e);
  }

  /** Telemetry goes out exactly when the newest configuration version has been acknowledged by the
      last ok snapshot ACK. */
  lemma {:induction false} TelemetryAllowedIff(es: seq<Event>)
    requires AcksHonest(es) && |es| + 1 < WORD
    ensures Run(INIT, es).ackedVersion <= Run(INIT, es).version <= |es|
    ensures TelemetryAllowed(Run(INIT, es)) <==> exists k: nat :: OpensGate(es, k)
  {
    if es != [] {
      var n := |es| - 1;
      var pre, e := es[..n], es[n];
      var s := Run(INIT, pre);
      HonestPrefix(es, n);
      TelemetryAllowedIff(pre);
      StepVersions(s, e);
      if IsOkSnapshotAck(s, e) {
        assert OpensGate(es, n) <==> 0 < s.version && (e.ack.version == 0 || e.ack.version == s.version);
        LastAckDecides(es, n);
      } else if CreatesVersion(e) {
        CreationClosesGate(es, n);
      } else {
        QuietEventKeepsOpeners(es, pre, n);
      }
    }
  }

  lemma HonestPrefix(es: seq<Event>, n: nat)
    requires n + 1 == |es| && AcksHonest(es)
    ensures AcksHonest(es[..n])
  {
    forall i | 0 <= i < n ensures es[..n][..i] == es[..i] && es[..n][i] == es[i] {}
  }

  lemma CreationClosesGate(es: seq<Event>, n: nat)
    requires n + 1 == |es| && CreatesVersion(es[n]) && !IsOkSnapshotAck(Run(INIT, es[..n]), es[n])
    ensures !exists k: nat :: OpensGate(es, k)
  {
  }

  lemma QuietEventKeepsOpeners(es: seq<Event>, pre: seq<Event>, n: nat)
    requires n + 1 == |es| && pre == es[..n]
    requires !IsOkSnapshotAck(Run(INIT, pre), es[n]) && !CreatesVersion(es[n])
    ensures (exists k: nat :: OpensGate(es, k)) <==> exists k: nat :: OpensGate(pre, k)
  {
    forall k: nat ensures OpensGate(es, k) <==> OpensGate(pre, k) { QuietEventKeepsOpener(es, pre, n, k); }
  }

  lemma LastAckDecides(es: seq<Event>, n: nat)
    requires n + 1 == |es| && IsOkSnapshotAck(Run(INIT, es[..n]), es[n])
    ensures (exists k: nat :: OpensGate(es, k)) <==> OpensGate(es, n)
  {
  }

  lemma QuietEventKeepsOpener(es: seq<Event>, pre: seq<Event>, n: nat, k: nat)
    requires n + 1 == |es| && pre == es[..n]
    requires !IsOkSnapshotAck(Run(INIT, pre), es[n]) && !CreatesVersion(es[n])
    ensures OpensGate(es, k) <==> OpensGate(pre, k)
  {
    forall j | 0 <= j < n ensures es[..j] == pre[..j] && es[j] == pre[j] {}
    if OpensGate(pre, k) {
      forall j | k < j < |es| ensures !CreatesVersion(es[j]) && !IsOkSnapshotAck(Run(INIT, es[..j]), es[j]) {
        if j < n { assert !CreatesVersion(pre[j]) && !IsOkSnapshotAck(Run(INIT, pre[..j]), pre[j]); }
      }
    }
  }

  /** In any state, an ACK that names the next version opens the gate for a snapshot sent after it. */
  lemma FutureAckOpensGate(s: Sync, n: Word, payload: string, portId: string, now: int)
    requires s.version + 2 < WORD && payload != ""
    ensures var early := Acked(Ack("ack", "config_snapshot", 0, s.version + 1, true, false, true), now);
            var t := Step(Step(s, early), Mark(n, "config_snapshot", payload, portId, true, now));
            TelemetryAllowed(t) && t.version == s.version + 1
  {
    var early := Acked(Ack("ack", "config_snapshot", 0, s.version + 1, true, false, true), now);
    StepVersions(s, early);
    StepVersions(Step(s, early), Mark(n, "config_snapshot", payload, portId, true, now));
  }
}
