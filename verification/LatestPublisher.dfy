/**
  Who tells the PC client the latest points (Pc_data/mqtt/MqttMessageHandler.cpp: markLatestPointsDirty,
  latestPublisherLoop and the update in handleTelemetryMessage; Pc_data/ipc/PcUiPublisher.cpp:
  sendLatestPoints; Pc_data/ipc/IpcServer.cpp: the connect callback and sendMessage).

  Telemetry handlers update the snapshot and then, in a second critical section, mark it dirty; the
  publisher clears the mark, reads the snapshot and sends it.  Other threads read the snapshot and send
  it as a reply, the IPC thread among them: it greets a new client and answers its requests.  A thread
  that removes a device from the snapshot marks nothing and owes such a reply itself.  Every event below
  is one critical section.  Snapshots are numbered by how many changes they contain.
 */
module LatestPublisher {
  import opened Wrappers

  /** The thread that accepts clients, greets them and answers their requests. */
  const GREETER: nat := 0

  /** The client has received nothing since it connected. */
  const NOTHING := -1

  /** A snapshot read and not yet sent; seen: how many snapshots had been delivered when it was read;
      owed: it is to tell the client of a removal. */
  datatype Held = Held(snapshot: nat, seen: nat, owed: bool)

  /** Where the publisher thread stands between its critical sections. */
  datatype Phase = Idle | Cleared | Ready | Holding(held: Held) | SendFailed

  /** client: the snapshot the connected client received last; greeting: it has just connected and the
      greeter has not sent it the points yet; updating: handlers that updated the snapshot and have
      not marked it yet; removing: threads that removed a device and have not read the snapshot yet. */
  datatype State = State(current: nat, client: int, delivered: nat, connected: bool, greeting: bool, dirty: bool,
                         updating: nat, phase: Phase, removing: set<nat>, replies: map<nat, Held>)

  const START := State(0, NOTHING, 0, false, false, false, 0, Idle, {}, map[])

  /** A write may arrive, be cut short, or find the pipe broken, which disconnects the client. */
  datatype Sent = Delivered | Partial | Broken

  /** Leave: a thread that removed a device ends without a reply, because it finds no client or the
      request it works on is unknown. */
  datatype Event =
    | Update | Mark
    | Clear | CheckClient | Read | Send(sent: Sent) | Remark
    | Connect | Disconnect
    | Remove(t: nat) | Leave(t: nat)
    | ReplyRead(t: nat) | ReplySend(t: nat, sent: Sent)

  predicate Enabled(s: State, e: Event) {
    match e
    case Update => true
    case Mark => s.updating > 0
    case Clear => s.phase == Idle && s.dirty
    case CheckClient => s.phase == Cleared
    case Read => s.phase == Ready
    case Send(sent) => s.phase.Holding? && (sent.Broken? || s.connected)
    case Remark => s.phase == SendFailed
    case Connect => !s.connected && GREETER !in s.replies && GREETER !in s.removing
    case Disconnect => s.connected
    case Remove(t) => t !in s.replies
    case Leave(t) => t in s.removing
    case ReplyRead(t) => t !in s.replies
    case ReplySend(t, sent) => t in s.replies && (sent.Broken? || s.connected)
  }

  /** What a write does to the client. */
  function Deliver(s: State, h: Held, sent: Sent): State {
    match sent
    case Delivered => s.(client := h.snapshot, delivered := s.delivered + 1)
    case Partial => s
    case Broken => s.(connected := false, greeting := false)
  }

  function Step(s: State, e: Event): State
    requires Enabled(s, e)
  {
    match e
    case Update => s.(current := s.current + 1, updating := s.updating + 1)
    case Mark => s.(dirty := true, updating := s.updating - 1)
    case Clear => s.(dirty := false, phase := Cleared)
    case CheckClient => s.(phase := if s.connected then Ready else Idle)
    case Read => s.(phase := Holding(Held(s.current, s.delivered, false)))
    case Send(sent) => Deliver(s, s.phase.held, sent).(phase := if sent.Delivered? then Idle else SendFailed)
    case Remark => s.(dirty := true, phase := Idle)
    case Connect => s.(connected := true, greeting := true, client := NOTHING)
    case Disconnect => s.(connected := false, greeting := false)
    case Remove(t) => s.(current := s.current + 1, removing := s.removing + {t})
    case Leave(t) => s.(removing := s.removing - {t})
    case ReplyRead(t) =>
      s.(replies := s.replies[t := Held(s.current, s.delivered, t in s.removing)], removing := s.removing - {t})
    case ReplySend(t, sent) =>
      Deliver(s.(greeting := s.greeting && t != GREETER), s.replies[t], sent).(replies := s.replies - {t})
  }

  function Run(es: seq<Event>): State
    requires IsRun(es)
    decreases |es|, 1
  {
    if es == [] then START else Step(Run(es[..|es| - 1]), es[|es| - 1])
  }

  predicate IsRun(es: seq<Event>)
    decreases |es|, 0
  {
    es != [] ==> IsRun(es[..|es| - 1]) && Enabled(Run(es[..|es| - 1]), es[|es| - 1])
  }

  // ---------- What the client has, told by the history ----------

  datatype Sender = ThePublisher | Replier(t: nat)

  predicate Reads(e: Event, w: Sender) {
    match w case ThePublisher => e == Read case Replier(t) => e == ReplyRead(t)
  }

  predicate Holds(s: State, w: Sender) {
    match w case ThePublisher => s.phase.Holding? case Replier(t) => t in s.replies
  }

  function HeldBy(s: State, w: Sender): Held
    requires Holds(s, w)
  {
    match w case ThePublisher => s.phase.held case Replier(t) => s.replies[t]
  }

  /** The event sends what w holds, and the client receives it. */
  predicate Delivers(e: Event, w: Sender) {
    match w case ThePublisher => e == Send(Delivered) case Replier(t) => e == ReplySend(t, Delivered)
  }

  /** How many events came before the sender's last read. */
  function ReadAt(es: seq<Event>, w: Sender): nat {
    if es == [] then 0 else if Reads(es[|es| - 1], w) then |es| - 1 else ReadAt(es[..|es| - 1], w)
  }

  /** How many events came before the read of what the client received last, if it received anything
      since it connected. */
  function LastReadAt(es: seq<Event>): Option<nat> {
    if es == [] then None
    else
      var pre := es[..|es| - 1];
      match es[|es| - 1]
      case Connect => None
      case Send(Delivered) => Some(ReadAt(pre, ThePublisher))
      case ReplySend(t, Delivered) => Some(ReadAt(pre, Replier(t)))
      case _ => LastReadAt(pre)
  }

  predicate IsChange(e: Event) {
    e.Update? || e.Remove?
  }

  predicate ChangedBetween(es: seq<Event>, i: nat, n: nat) {
    exists k :: i <= k < n && k < |es| && IsChange(es[k])
  }

  lemma {:induction false} PrefixIsRun(es: seq<Event>, i: nat)
    requires IsRun(es) && i <= |es|
    ensures IsRun(es[..i])
  {
    if i < |es| {
      PrefixIsRun(es[..|es| - 1], i);
      assert es[..|es| - 1][..i] == es[..i];
    } else {
      assert es[..i] == es;
    }
  }

  /** The snapshot's number after the first i events. */
  function CurrentAt(es: seq<Event>, i: nat): nat
    requires IsRun(es) && i <= |es|
  {
    PrefixIsRun(es, i);
    Run(es[..i]).current
  }

  lemma CurrentInPrefix(es: seq<Event>, i: nat)
    requires IsRun(es) && i < |es|
    ensures IsRun(es[..|es| - 1]) && CurrentAt(es, i) == CurrentAt(es[..|es| - 1], i)
  {
    assert es[..|es| - 1][..i] == es[..i];
  }

  lemma StepChanges(s: State, e: Event)
    requires Enabled(s, e)
    ensures Step(s, e).current == s.current + if IsChange(e) then 1 else 0
  {
  }

  lemma ChangedSnoc(es: seq<Event>, i: nat)
    requires i < |es|
    ensures var n := |es| - 1; ChangedBetween(es, i, |es|) <==> ChangedBetween(es[..n], i, n) || IsChange(es[n])
  {
    var n := |es| - 1;
    assert forall k :: 0 <= k < n ==> es[..n][k] == es[k];
  }

  lemma {:induction false} CurrentGrowsIff(es: seq<Event>, i: nat)
    requires IsRun(es) && i <= |es|
    ensures CurrentAt(es, i) <= Run(es).current
    ensures CurrentAt(es, i) < Run(es).current <==> ChangedBetween(es, i, |es|)
  {
    if i == |es| {
      assert es[..i] == es;
    } else {
      CurrentInPrefix(es, i);
      CurrentGrowsIff(es[..|es| - 1], i);
      StepChanges(Run(es[..|es| - 1]), es[|es| - 1]);
      ChangedSnoc(es, i);
    }
  }

  /** What a sender holds is the snapshot as it was at its last read. */
  lemma {:induction false} HeldIs(es: seq<Event>, w: Sender)
    requires IsRun(es) && Holds(Run(es), w)
    ensures ReadAt(es, w) < |es| && HeldBy(Run(es), w).snapshot == CurrentAt(es, ReadAt(es, w))
  {
    var pre, e := es[..|es| - 1], es[|es| - 1];
    if !Reads(e, w) {
      StillHeld(Run(pre), e, w);
      HeldIs(pre, w);
      CurrentInPrefix(es, ReadAt(pre, w));
    }
  }

  lemma StillHeld(s: State, e: Event, w: Sender)
    requires Enabled(s, e) && Holds(Step(s, e), w) && !Reads(e, w)
    ensures Holds(s, w) && HeldBy(s, w) == HeldBy(Step(s, e), w)
  {
  }

  /** What the client has is the snapshot as it was at the read of what it received last. */
  lemma {:induction false} ClientIs(es: seq<Event>)
    requires IsRun(es)
    ensures match LastReadAt(es)
            case None => Run(es).client == NOTHING
            case Some(i) => i < |es| && Run(es).client == CurrentAt(es, i)
  {
    if es != [] {
      var pre, e := es[..|es| - 1], es[|es| - 1];
      ClientIs(pre);
      match e
      case Send(Delivered) =>
        HeldIs(pre, ThePublisher);
        CurrentInPrefix(es, ReadAt(pre, ThePublisher));
      case ReplySend(t, Delivered) =>
        HeldIs(pre, Replier(t));
        CurrentInPrefix(es, ReadAt(pre, Replier(t)));
      case _ =>
        if LastReadAt(pre).Some? { CurrentInPrefix(es, LastReadAt(pre).value); }
    }
  }

  /** The client has received nothing, or what it received last was read before the last change. */
  predicate IsBehind(es: seq<Event>) {
    match LastReadAt(es) case None => true case Some(i) => ChangedBetween(es, i, |es|)
  }

  lemma BehindIff(es: seq<Event>)
    requires IsRun(es)
    ensures Run(es).client <= Run(es).current
    ensures Run(es).client < Run(es).current <==> IsBehind(es)
  {
    ClientIs(es);
    if LastReadAt(es).Some? { CurrentGrowsIff(es, LastReadAt(es).value); }
  }

  /** Over every run: a delivery takes the client back if and only if the snapshot it has was read later
      than the one delivered, and after a change in between. */
  lemma DeliveryGoesBackIff(es: seq<Event>, e: Event, w: Sender)
    requires IsRun(es) && Enabled(Run(es), e) && Delivers(e, w)
    ensures Step(Run(es), e).client < Run(es).client
       <==> LastReadAt(es).Some? && ChangedBetween(es, ReadAt(es, w), LastReadAt(es).value)
  {
    ClientIs(es);
    HeldIs(es, w);
    if LastReadAt(es).Some? {
      var i, last := ReadAt(es, w), LastReadAt(es).value;
      CurrentGrowsBetween(es, i, last);
      CurrentGrowsBetween(es, last, i);
    }
  }

  lemma CurrentGrowsBetween(es: seq<Event>, i: nat, n: nat)
    requires IsRun(es) && i <= |es| && n <= |es|
    ensures i <= n ==> CurrentAt(es, i) <= CurrentAt(es, n)
    ensures i <= n ==> (CurrentAt(es, i) < CurrentAt(es, n) <==> ChangedBetween(es, i, n))
    ensures i > n ==> !ChangedBetween(es, i, n)
  {
    if i <= n {
      var pre := es[..n];
      PrefixIsRun(es, n);
      CurrentGrowsIff(pre, i);
      assert pre[..i] == es[..i];
      assert forall k :: 0 <= k < n ==> pre[k] == es[k];
    }
  }

  /** No snapshot has been delivered since this one was read. */
  predicate InTurn(s: State, h: Held) {
    h.seen == s.delivered
  }

  /** Nobody holds a snapshot from the future, and one that was not overtaken is not behind the client. */
  predicate Forward(s: State, h: Held) {
    h.snapshot <= s.current && h.seen <= s.delivered && (InTurn(s, h) ==> h.snapshot >= s.client)
  }

  predicate AllForward(s: State) {
    && s.client <= s.current
    && (s.greeting ==> s.connected)
    && (s.phase.Holding? ==> Forward(s, s.phase.held))
    && (forall t :: t in s.replies ==> Forward(s, s.replies[t]))
  }

  lemma HeldStaysForward(s: State, e: Event, w: Sender)
    requires AllForward(s) && Enabled(s, e) && Holds(Step(s, e), w)
    ensures Forward(Step(s, e), HeldBy(Step(s, e), w))
  {
    if Reads(e, w) {
    } else {
      StillHeld(s, e, w);
      assert Forward(s, HeldBy(s, w)) by {
        if w.Replier? { assert Forward(s, s.replies[w.t]); }
      }
      ForwardStays(s, e, HeldBy(s, w));
    }
  }

  lemma ForwardStays(s: State, e: Event, h: Held)
    requires Enabled(s, e) && Forward(s, h)
    ensures Forward(Step(s, e), h)
  {
  }

  lemma ClientStaysPast(s: State, e: Event)
    requires AllForward(s) && Enabled(s, e)
    ensures Step(s, e).client <= Step(s, e).current && (Step(s, e).greeting ==> Step(s, e).connected)
  {
    if e.ReplySend? { assert Forward(s, s.replies[e.t]); }
  }

  lemma StepKeepsForward(s: State, e: Event)
    requires AllForward(s) && Enabled(s, e)
    ensures AllForward(Step(s, e))
  {
    var u := Step(s, e);
    ClientStaysPast(s, e);
    if u.phase.Holding? { HeldStaysForward(s, e, ThePublisher); }
    forall t | t in u.replies ensures Forward(u, u.replies[t]) { HeldStaysForward(s, e, Replier(t)); }
  }

  lemma {:induction false} RunIsForward(es: seq<Event>)
    requires IsRun(es)
    ensures AllForward(Run(es))
  {
    if es != [] {
      RunIsForward(es[..|es| - 1]);
      StepKeepsForward(Run(es[..|es| - 1]), es[|es| - 1]);
    }
  }

  /** So a delivery that was not overtaken between its read and its send never takes the client back. */
  lemma InTurnNeverGoesBack(es: seq<Event>, e: Event, w: Sender)
    requires IsRun(es) && Enabled(Run(es), e) && Delivers(e, w) && InTurn(Run(es), HeldBy(Run(es), w))
    ensures Step(Run(es), e).client >= Run(es).client
  {
    RunIsForward(es);
    if w.Replier? { assert Forward(Run(es), Run(es).replies[w.t]); }
  }

  // ---------- When an update is lost ----------

  /** The flag and the handlers still owe the client a snapshot. */
  predicate Owed(s: State) {
    s.dirty || s.updating > 0
  }

  /** The thread still owes the client the news of a removal. */
  predicate Owes(s: State, t: nat) {
    t in s.removing || (t in s.replies && s.replies[t].owed)
  }

  ghost predicate AnyoneOwes(s: State) {
    exists t: nat :: Owes(s, t)
  }

  ghost predicate OtherOwes(s: State, t: nat) {
    exists u: nat :: u != t && Owes(s, u)
  }

  /** Somebody is still at work to serve the client. */
  ghost predicate UnderWay(s: State) {
    Owed(s) || s.phase != Idle || AnyoneOwes(s)
  }

  /** A client that has been greeted and is behind will be served. */
  ghost predicate NoLostUpdate(s: State) {
    s.connected && !s.greeting ==> s.client == s.current || UnderWay(s)
  }

  /** Over every run, with clients that come and go, removals, and writes that are cut or break: an update
      is lost if and only if nobody is at work any more and what the greeted client received last was read
      before the last change. */
  lemma LostIff(es: seq<Event>)
    requires IsRun(es)
    ensures !NoLostUpdate(Run(es)) <==>
            Run(es).connected && !Run(es).greeting && !UnderWay(Run(es)) && IsBehind(es)
  {
    BehindIff(es);
  }

  // ---------- Senders that do not overtake each other ----------

  /** A step of a system whose replies are not overtaken between read and send, whose publisher is not
      overtaken unless what its snapshot lacks is owed, whose greetings and removal replies arrive or
      break, and whose removals stay unanswered only while no client is there. */
  predicate Serial(s: State, e: Event)
    requires Enabled(s, e)
  {
    match e
    case Send(Delivered) => InTurn(s, s.phase.held) || s.phase.held.snapshot == s.current || Owed(s)
    case ReplySend(t, Delivered) => InTurn(s, s.replies[t])
    case ReplySend(t, Partial) => !(s.greeting && t == GREETER) && !s.replies[t].owed
    case Leave(_) => !s.connected
    case _ => true
  }

  /** The publisher will serve the client with the current snapshot. */
  predicate Serving(s: State) {
    Owed(s) || s.phase in {Cleared, Ready, SendFailed} || (s.phase.Holding? && s.phase.held.snapshot == s.current)
  }

  /** A greeted client that is behind will be told. */
  ghost predicate Promised(s: State) {
    s.connected && !s.greeting ==> s.client == s.current || Serving(s) || AnyoneOwes(s)
  }

  /** A publisher that was not overtaken is current, or what it lacks is owed. */
  ghost predicate TurnIsFresh(s: State) {
    s.phase.Holding? && InTurn(s, s.phase.held) && s.connected && !s.greeting ==> Serving(s) || AnyoneOwes(s)
  }

  /** The same of a reply, which may be the greeting itself. */
  ghost predicate ReplyIsFresh(s: State, t: nat) {
    t in s.replies && InTurn(s, s.replies[t]) && s.connected && !(s.greeting && t != GREETER) ==>
      s.replies[t].snapshot == s.current || Serving(s) || OtherOwes(s, t)
  }

  ghost predicate Inv(s: State) {
    AllForward(s) && Promised(s) && TurnIsFresh(s) && forall t: nat :: ReplyIsFresh(s, t)
  }

  /** A debt is paid by a reply, or the client goes. */
  lemma OwesStays(s: State, e: Event, t: nat)
    requires Enabled(s, e) && Serial(s, e) && Owes(s, t)
    ensures var w := Step(s, e); Owes(w, t) || !w.connected || (e.ReplySend? && e.t == t && e.sent.Delivered?)
  {
  }

  lemma OtherStillOwes(s: State, e: Event, t: nat)
    requires Enabled(s, e) && Serial(s, e) && OtherOwes(s, t)
    ensures var w := Step(s, e); OtherOwes(w, t) || !w.connected || (e.ReplySend? && e.t != t && e.sent.Delivered?)
  {
    var u: nat :| u != t && Owes(s, u);
    OwesStays(s, e, u);
  }

  lemma StillOwed(s: State, e: Event)
    requires Enabled(s, e) && Serial(s, e) && AnyoneOwes(s)
    ensures var w := Step(s, e); AnyoneOwes(w) || !w.connected || (e.ReplySend? && e.sent.Delivered?)
  {
    var u: nat :| Owes(s, u);
    OwesStays(s, e, u);
  }

  lemma RemovalIsOwed(s: State, e: Event, t: nat)
    requires Enabled(s, e) && e.Remove?
    ensures AnyoneOwes(Step(s, e)) && (t in s.replies ==> OtherOwes(Step(s, e), t))
  {
    assert Owes(Step(s, e), e.t);
  }

  /** The publisher stays at work until it has delivered, or the snapshot is changed by a removal. */
  lemma ServingStays(s: State, e: Event)
    requires Enabled(s, e) && Serving(s)
    ensures var w := Step(s, e); Serving(w) || !w.connected || e.Remove? || e == Send(Delivered)
  {
  }

  lemma StepKeepsReplyFresh(s: State, e: Event, t: nat)
    requires Inv(s) && Enabled(s, e) && Serial(s, e)
    ensures ReplyIsFresh(Step(s, e), t)
  {
    assert ReplyIsFresh(s, t);
    if e.Remove? { RemovalIsOwed(s, e, t); }
    if Serving(s) { ServingStays(s, e); }
    if OtherOwes(s, t) { OtherStillOwes(s, e, t); }
  }

  lemma StepKeepsTurnFresh(s: State, e: Event)
    requires Inv(s) && Enabled(s, e) && Serial(s, e)
    ensures TurnIsFresh(Step(s, e))
  {
    if e.Remove? { RemovalIsOwed(s, e, 0); }
    if Serving(s) { ServingStays(s, e); }
    if AnyoneOwes(s) { StillOwed(s, e); }
  }

  lemma StepKeepsPromise(s: State, e: Event)
    requires Inv(s) && Enabled(s, e) && Serial(s, e)
    ensures Promised(Step(s, e))
  {
    if e.Remove? { RemovalIsOwed(s, e, 0); }
    if Serving(s) { ServingStays(s, e); }
    if AnyoneOwes(s) { StillOwed(s, e); }
    if e.ReplySend? && e.sent.Delivered? { ReplyKeepsPromise(s, e.t); }
  }

  lemma ReplyKeepsPromise(s: State, t: nat)
    requires Inv(s) && Enabled(s, ReplySend(t, Delivered)) && Serial(s, ReplySend(t, Delivered))
    ensures Promised(Step(s, ReplySend(t, Delivered)))
  {
    var e := ReplySend(t, Delivered);
    assert ReplyIsFresh(s, t);
    if Serving(s) { ServingStays(s, e); }
    if OtherOwes(s, t) {
      OtherStillOwes(s, e, t);
      var u: nat :| u != t && Owes(Step(s, e), u);
      assert AnyoneOwes(Step(s, e));
    }
  }

  lemma StepKeepsInv(s: State, e: Event)
    requires Inv(s) && Enabled(s, e) && Serial(s, e)
    ensures Inv(Step(s, e))
  {
    StepKeepsForward(s, e);
    StepKeepsPromise(s, e);
    StepKeepsTurnFresh(s, e);
    forall t: nat ensures ReplyIsFresh(Step(s, e), t) { StepKeepsReplyFresh(s, e, t); }
  }

  predicate AllSerial(es: seq<Event>)
    requires IsRun(es)
  {
    es != [] ==> AllSerial(es[..|es| - 1]) && Serial(Run(es[..|es| - 1]), es[|es| - 1])
  }

  /** At no point of the run is an update lost. */
  ghost predicate AlwaysKept(es: seq<Event>)
    requires IsRun(es)
  {
    NoLostUpdate(Run(es)) && (es != [] ==> AlwaysKept(es[..|es| - 1]))
  }

  /** In every interleaving of handlers, publisher, removals and such replies, with clients that come and
      go, no update is ever lost. */
  lemma {:induction false} EveryInterleavingKeepsUpdates(es: seq<Event>)
    requires IsRun(es) && AllSerial(es)
    ensures Inv(Run(es)) && AlwaysKept(es)
  {
    if es != [] {
      var pre := es[..|es| - 1];
      EveryInterleavingKeepsUpdates(pre);
      StepKeepsInv(Run(pre), es[|es| - 1]);
    }
  }

  /** When all threads are at rest, a greeted client has the current snapshot. */
  lemma QuietMeansCurrent(es: seq<Event>)
    requires IsRun(es) && AllSerial(es)
    requires Run(es).connected && !Run(es).greeting && !UnderWay(Run(es))
    ensures Run(es).client == Run(es).current
  {
    EveryInterleavingKeepsUpdates(es);
  }

  // ---------- Each of these conditions is needed ----------

  /** The client stays connected, every write arrives, every removal is answered. */
  predicate IsSmooth(e: Event) {
    !e.Disconnect? && !e.Leave? && (e.Send? || e.ReplySend? ==> e.sent == Delivered)
  }

  predicate AllSmooth(es: seq<Event>) {
    forall e :: e in es ==> IsSmooth(e)
  }

  /** Every step but the last is serial. */
  predicate SerialButLast(es: seq<Event>) {
    es != [] && IsRun(es) && AllSerial(es[..|es| - 1])
  }

  lemma Then(es: seq<Event>, e: Event) returns (fs: seq<Event>)
    requires IsRun(es) && Enabled(Run(es), e)
    ensures IsRun(fs) && Run(fs) == Step(Run(es), e)
    ensures AllSerial(fs) <==> AllSerial(es) && Serial(Run(es), e)
    ensures SerialButLast(fs) <==> AllSerial(es)
    ensures AllSmooth(fs) <==> AllSmooth(es) && IsSmooth(e)
  {
    fs := es + [e];
    assert fs[..|fs| - 1] == es && fs[|fs| - 1] == e;
    assert forall x :: x in fs <==> x in es || x == e;
  }

  /** A client connects and is greeted. */
  lemma Greeted() returns (es: seq<Event>)
    ensures IsRun(es) && AllSerial(es) && AllSmooth(es)
    ensures Run(es) == State(0, 0, 1, true, false, false, 0, Idle, {}, map[])
  {
    es := Then([], Connect);
    es := Then(es, ReplyRead(GREETER));
    es := Then(es, ReplySend(GREETER, Delivered));
    assert Run(es).replies == map[] && Run(es).removing == {};
  }

  lemma MarkedState(s: State)
    requires s.phase == Idle && s.updating == 0
    ensures Enabled(s, Update) && Enabled(Step(s, Update), Mark) && Enabled(Step(Step(s, Update), Mark), Clear)
    ensures Step(Step(Step(s, Update), Mark), Clear) == s.(current := s.current + 1, dirty := false, phase := Cleared)
  {
  }

  /** A handler updates and marks, and the publisher clears the mark. */
  lemma Marked(es: seq<Event>) returns (fs: seq<Event>)
    requires IsRun(es) && Run(es).phase == Idle && Run(es).updating == 0
    ensures IsRun(fs) && (AllSerial(es) ==> AllSerial(fs)) && (AllSmooth(es) ==> AllSmooth(fs))
    ensures Run(fs) == Run(es).(current := Run(es).current + 1, dirty := false, phase := Cleared)
  {
    MarkedState(Run(es));
    var updated := Then(es, Update);
    var marked := Then(updated, Mark);
    fs := Then(marked, Clear);
  }

  /** And the publisher reads the snapshot. */
  lemma ReadToSend(es: seq<Event>) returns (fs: seq<Event>)
    requires IsRun(es) && Run(es).phase == Cleared && Run(es).connected
    ensures IsRun(fs) && (AllSerial(es) ==> AllSerial(fs)) && (AllSmooth(es) ==> AllSmooth(fs))
    ensures Run(fs) == Run(es).(phase := Holding(Held(Run(es).current, Run(es).delivered, false)))
  {
    fs := Then(es, CheckClient);
    fs := Then(fs, Read);
  }

  function AfterRemoval(s: State): State {
    s.(current := s.current + 1, removing := s.removing + {1} - {1},
       replies := s.replies[1 := Held(s.current + 1, s.delivered, true)])
  }

  lemma RemovedState(s: State)
    requires 1 !in s.replies
    ensures Enabled(s, Remove(1)) && Enabled(Step(s, Remove(1)), ReplyRead(1))
    ensures Step(Step(s, Remove(1)), ReplyRead(1)) == AfterRemoval(s)
  {
  }

  /** A thread removes a device and reads the snapshot for its reply. */
  lemma RemovedAndRead(es: seq<Event>) returns (fs: seq<Event>)
    requires IsRun(es) && 1 !in Run(es).replies
    ensures IsRun(fs) && (AllSerial(es) ==> AllSerial(fs)) && (AllSmooth(es) ==> AllSmooth(fs))
    ensures Run(fs) == AfterRemoval(Run(es))
  {
    RemovedState(Run(es));
    var removed := Then(es, Remove(1));
    fs := Then(removed, ReplyRead(1));
  }

  /** A request is answered with a snapshot that the publisher overtakes between its read and its send:
      the client is left behind for good. */
  lemma StaleReplyLosesUpdate() returns (es: seq<Event>)
    ensures IsRun(es) && !NoLostUpdate(Run(es)) && AllSmooth(es) && SerialButLast(es)
  {
    es := Greeted();
    es := Then(es, ReplyRead(GREETER));
    es := Marked(es);
    es := ReadToSend(es);
    es := Then(es, Send(Delivered));
    es := Then(es, ReplySend(GREETER, Delivered));
  }

  /** A device is removed while the publisher holds a snapshot that has it.  The removal's own reply is
      not overtaken, but then the publisher brings the device back. */
  lemma RemovedDeviceComesBack() returns (es: seq<Event>)
    ensures IsRun(es) && !NoLostUpdate(Run(es)) && AllSmooth(es) && SerialButLast(es)
  {
    es := Greeted();
    es := Marked(es);
    es := ReadToSend(es);
    es := RemovedAndRead(es);
    es := Then(es, ReplySend(1, Delivered));
    es := Then(es, Send(Delivered));
  }

  /** A removal whose reply is cut short is not told. */
  lemma CutRemovalLosesUpdate() returns (es: seq<Event>)
    ensures IsRun(es) && !NoLostUpdate(Run(es)) && SerialButLast(es)
  {
    es := Greeted();
    es := RemovedAndRead(es);
    es := Then(es, ReplySend(1, Partial));
  }

  /** Nor is one that is not answered. */
  lemma UnansweredRemovalLosesUpdate() returns (es: seq<Event>)
    ensures IsRun(es) && !NoLostUpdate(Run(es)) && SerialButLast(es)
  {
    es := Greeted();
    es := Then(es, Remove(1));
    es := Then(es, Leave(1));
  }

  /** A turn of the publisher finds no client, and then one connects. */
  lemma SkippedAndConnected() returns (es: seq<Event>)
    ensures IsRun(es) && AllSerial(es)
    ensures Run(es) == State(1, NOTHING, 0, true, true, false, 0, Idle, {}, map[])
  {
    es := Marked([]);
    es := Then(es, CheckClient);
    es := Then(es, Connect);
  }

  /** If the greeting is cut short, the client is left behind. */
  lemma CutGreetingLosesUpdate() returns (es: seq<Event>)
    ensures IsRun(es) && !NoLostUpdate(Run(es)) && SerialButLast(es)
  {
    es := SkippedAndConnected();
    es := Then(es, ReplyRead(GREETER));
    es := Then(es, ReplySend(GREETER, Partial));
  }

  // ---------- The handler's fields ----------

  /** s: the state the critical sections of all threads have led to. */
  class Publisher {
    var latestPointsDirty: bool
    var stop: bool
    ghost var s: State

    ghost predicate Valid()
      reads this
    {
      latestPointsDirty == s.dirty
    }

    constructor ()
      ensures Valid() && s == START && !stop
    {
      latestPointsDirty, stop, s := false, false, START;
    }

    /** The second critical section of a handler, or the publisher's after a failed send. */
    method MarkLatestPointsDirty(ghost e: Event)
      requires Valid() && (e == Mark || e == Remark) && Enabled(s, e)
      modifies this`latestPointsDirty, this`s
      ensures Valid() && s == Step(old(s), e)
    {
      latestPointsDirty := true;
      s := Step(s, e);
    }

    /** The critical section at the end of the coalescing pause: publish tells whether to go on. */
    method ClearDirty() returns (done: bool, publish: bool)
      requires Valid() && s.phase == Idle
      modifies this`latestPointsDirty, this`s
      ensures Valid() && done == stop && (publish <==> !stop && Enabled(old(s), Clear))
      ensures s == if publish then Step(old(s), Clear) else old(s)
    {
      if stop {
        return true, false;
      }
      if !latestPointsDirty {
        return false, false;
      }
      latestPointsDirty := false;
      s := Step(s, Clear);
      return false, true;
    }
  }
}
