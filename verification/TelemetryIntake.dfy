/**
  The bounded queue of received telemetry packs on the PC side
  (Pc_data/mqtt/MqttMessageHandler.cpp: enqueueTelemetry, telemetryWorkerLoop).
 */
module TelemetryIntake {

  const MAX_QUEUE := 256

  datatype Message = Message(topic: string, payload: string)

  function Push(q: seq<Message>, m: Message): seq<Message> {
    (if |q| >= MAX_QUEUE then q[1..] else q) + [m]
  }

  /** The handler's queue; every method is one scope of its mutex. */
  class TelemetryQueue {
    var queue: seq<Message>
    var stop: bool

    constructor ()
      ensures queue == [] && !stop
    {
      queue, stop := [], false;
    }

    method Enqueue(m: Message)
      modifies this`queue
      ensures queue == Push(old(queue), m)
    {
      if |queue| >= MAX_QUEUE {
        queue := queue[1..];
      }
      queue := queue + [m];
    }

    /** One turn of the worker once it is woken: the message to handle, or the end of the loop. */
    method TakeNext() returns (done: bool, m: Message)
      requires stop || queue != []
      modifies this`queue
      ensures done <==> stop && old(queue) == []
      ensures if done then queue == [] else [m] + queue == old(queue)
    {
      if stop && queue == [] {
        return true, Message("", "");
      }
      m := queue[0];
      queue := queue[1..];
      done := false;
    }
  }

  // ---------- Runs ----------

  /** arrived and handled: all messages so far, in order; dropped counts those given up. */
  datatype Intake = Intake(queue: seq<Message>, arrived: seq<Message>, handled: seq<Message>, dropped: nat)

  datatype Event = Arrive(m: Message) | Handle

  function Step(s: Intake, e: Event): Intake {
    match e
    case Arrive(m) => Intake(Push(s.queue, m), s.arrived + [m], s.handled,
                             s.dropped + if |s.queue| >= MAX_QUEUE then 1 else 0)
    case Handle => if s.queue == [] then s else s.(queue := s.queue[1..], handled := s.handled + [s.queue[0]])
  }

  function Run(es: seq<Event>): Intake {
    if es == [] then Intake([], [], [], 0) else Step(Run(es[..|es| - 1]), es[|es| - 1])
  }

  /** a is b with some elements left out. */
  predicate IsSubsequence(a: seq<Message>, b: seq<Message>) {
    a == [] ||
    (b != [] && (IsSubsequence(a, b[..|b| - 1]) ||
                 (a[|a| - 1] == b[|b| - 1] && IsSubsequence(a[..|a| - 1], b[..|b| - 1]))))
  }

  lemma SubsequenceSnoc(a: seq<Message>, b: seq<Message>, m: Message)
    requires IsSubsequence(a, b)
    ensures IsSubsequence(a + [m], b + [m]) && IsSubsequence(a, b + [m])
  {
    assert (a + [m])[..|a + [m]| - 1] == a && (b + [m])[..|b + [m]| - 1] == b;
  }

  lemma {:induction false} SubsequenceLength(a: seq<Message>, b: seq<Message>)
    requires IsSubsequence(a, b)
    ensures |a| <= |b| && (|a| == |b| ==> a == b)
  {
    if a != [] {
      var a', b' := a[..|a| - 1], b[..|b| - 1];
      assert a == a' + [a[|a| - 1]] && b == b' + [b[|b| - 1]];
      if IsSubsequence(a, b') { SubsequenceLength(a, b'); } else { SubsequenceLength(a', b'); }
    }
  }

  function Older(s: Intake): seq<Message>
    requires |s.queue| <= |s.arrived|
  {
    s.arrived[..|s.arrived| - |s.queue|]
  }

  ghost predicate Inv(s: Intake) {
    && |s.queue| <= MAX_QUEUE
    && |s.arrived| == |s.handled| + s.dropped + |s.queue|
    && s.arrived == Older(s) + s.queue
    && IsSubsequence(s.handled, Older(s))
  }

  lemma ArriveKeepsInv(s: Intake, m: Message)
    requires Inv(s) && |s.queue| < MAX_QUEUE
    ensures Inv(Step(s, Arrive(m)))
  {
    var t := Step(s, Arrive(m));
    assert Older(t) == Older(s);
    assert t.arrived == Older(s) + (s.queue + [m]);
  }

  /** The oldest queued message leaves the queue, handled or dropped. */
  lemma FrontLeaves(s: Intake)
    requires Inv(s) && s.queue != []
    ensures var older := s.arrived[..|s.arrived| - |s.queue| + 1];
            && s.arrived == older + s.queue[1..]
            && IsSubsequence(s.handled, older) && IsSubsequence(s.handled + [s.queue[0]], older)
  {
    assert s.queue == [s.queue[0]] + s.queue[1..];
    var older := s.arrived[..|s.arrived| - |s.queue| + 1];
    assert older == Older(s) + [s.queue[0]];
    SubsequenceSnoc(s.handled, Older(s), s.queue[0]);
  }

  lemma StepKeepsInv(s: Intake, e: Event)
    requires Inv(s)
    ensures Inv(Step(s, e))
  {
    var t := Step(s, e);
    if e.Arrive? && |s.queue| < MAX_QUEUE {
      ArriveKeepsInv(s, e.m);
    } else if s.queue != [] {
      FrontLeaves(s);
      var older := s.arrived[..|s.arrived| - |s.queue| + 1];
      assert Older(t) == older;
      if e.Arrive? { assert t.arrived == older + (s.queue[1..] + [e.m]); }
    }
  }

  /** In every run the queue holds at most MAX_QUEUE messages, and they are the newest arrivals;
      messages are handled in arrival order, each at most once; and when none was dropped, handled
      and queued messages together are exactly the arrivals. */
  lemma {:induction false} EveryRunKeepsOrder(es: seq<Event>)
    ensures var s := Run(es);
            && Inv(s)
            && (s.arrived == s.handled + s.queue <==> s.dropped == 0)
  {
    if es != [] {
      EveryRunKeepsOrder(es[..|es| - 1]);
      StepKeepsInv(Run(es[..|es| - 1]), es[|es| - 1]);
    }
    SubsequenceLength(Run(es).handled, Older(Run(es)));
  }
}
