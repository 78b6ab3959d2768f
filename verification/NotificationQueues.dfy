/** The two notification queues of rpcwebsocket.go, as loops over the events their `select` statements pick. */
module NotificationQueues {
  import opened Base

  lemma Join<T>(a: seq<T>, b: seq<T>, c: seq<T>)
    ensures (a + b) + c == a + (b + c)
  {
  }

  lemma JoinNone<T>(a: seq<T>)
    ensures a + [] == a && [] + a == a
  {
  }

  // ---------------------------------------------------------------------------
  // queueHandler

  /**
    A value arrives, with or without a reader ready to take it at once; the reader is ready; or the handler
    is told to stop.
  */
  datatype QueueEvent<T> = Arrives(value: T, readerReady: bool) | ReaderReady | Stops

  /** The values that arrive before the handler stops. */
  function Arrived<T>(events: seq<QueueEvent<T>>): seq<T>
  {
    if events == [] || events[0].Stops? then []
    else (if events[0].Arrives? then [events[0].value] else []) + Arrived(events[1..])
  }

  /** The state of the loop: the queue, the two switched channels and the value offered next. */
  datatype Queue<T> = Queue(q: seq<T>, dequeue: bool, skipQueue: bool, next: Option<T>)

  /** A send is offered exactly while the queue is not empty, and it offers the oldest value. */
  predicate QueueOk<T(==)>(s: Queue<T>)
  {
    && (s.dequeue <==> s.q != []) && (s.skipQueue <==> s.q == [])
    && (s.q != [] ==> s.next == Some(s.q[0]))
  }

  function QueueStep<T>(s: Queue<T>, e: QueueEvent<T>): (r: (Queue<T>, seq<T>))
  {
    match e
    case Arrives(n, ready) =>
      if s.skipQueue && ready then (s, [n])
      else (Queue(s.q + [n], true, false, Some((s.q + [n])[0])), [])
    case ReaderReady =>
      if !s.dequeue || s.next.None? || s.q == [] then (s, [])
      else
        var q := s.q[1..];
        (if q == [] then Queue(q, false, true, s.next) else Queue(q, s.dequeue, s.skipQueue, Some(q[0])),
          [s.next.value])
    case Stops => (s, [])
  }

  /** Nothing is lost, repeated or reordered by a step. */
  lemma QueueStepSafe<T>(s: Queue<T>, e: QueueEvent<T>)
    requires QueueOk(s)
    ensures var (s', out) := QueueStep(s, e);
            QueueOk(s') && out + s'.q == s.q + if e.Arrives? then [e.value] else []
  {
    var (s', out) := QueueStep(s, e);
    match e
    case Arrives(n, ready) =>
    case ReaderReady =>
      if s.q != [] { assert [s.q[0]] + s.q[1..] == s.q; }
    case Stops =>
  }

  /** A ready reader is given the oldest value there is: a queued one, or else the one arriving. */
  lemma QueueServes<T>(s: Queue<T>, e: QueueEvent<T>)
    requires QueueOk(s)
    ensures QueueStep(s, e).1 ==
              match e
              case Arrives(n, ready) => (if s.q == [] && ready then [n] else [])
              case ReaderReady => (if s.q == [] then [] else [s.q[0]])
              case Stops => []
  {
  }

  /** The state after some events, and what was delivered on the way. */
  function QueueRun<T>(s: Queue<T>, events: seq<QueueEvent<T>>): (Queue<T>, seq<T>)
    decreases |events|
  {
    if events == [] || events[0].Stops? then (s, [])
    else
      var (s1, out) := QueueStep(s, events[0]);
      var (s2, more) := QueueRun(s1, events[1..]);
      (s2, out + more)
  }

  /** Over every run: what was delivered, followed by what is queued, is what arrived. */
  lemma {:induction false} QueueRunSafe<T>(s: Queue<T>, events: seq<QueueEvent<T>>)
    requires QueueOk(s)
    ensures var (s', delivered) := QueueRun(s, events);
            QueueOk(s') && delivered + s'.q == s.q + Arrived(events)
    decreases |events|
  {
    hide QueueStep, QueueOk;
    if events != [] && !events[0].Stops? {
      QueueStepSafe(s, events[0]);
      var (s1, out) := QueueStep(s, events[0]);
      var (s2, more) := QueueRun(s1, events[1..]);
      QueueRunSafe(s1, events[1..]);
      var now := if events[0].Arrives? then [events[0].value] else [];
      calc {
        (out + more) + s2.q;
        { Join(out, more, s2.q); }
        out + (s1.q + Arrived(events[1..]));
        { Join(out, s1.q, Arrived(events[1..])); }
        (s.q + now) + Arrived(events[1..]);
        { Join(s.q, now, Arrived(events[1..])); }
        s.q + Arrived(events);
      }
    } else {
      JoinNone(s.q);
    }
  }

  /** A reader ready as often as there are queued values is given all of them. */
  lemma {:induction false} QueueDrains<T>(s: Queue<T>, ready: seq<QueueEvent<T>>)
    requires QueueOk(s) && |ready| == |s.q| && forall e :: e in ready ==> e.ReaderReady?
    ensures QueueRun(s, ready).0.q == [] && QueueRun(s, ready).1 == s.q
    decreases |ready|
  {
    hide QueueStep;
    if ready != [] {
      assert ready[0] in ready;
      QueueStepSafe(s, ready[0]);
      QueueServes(s, ready[0]);
      var (s1, out) := QueueStep(s, ready[0]);
      assert s1.q == s.q[1..] by { assert (out + s1.q)[1..] == s1.q && out + s1.q == s.q + []; }
      QueueDrains(s1, ready[1..]);
      assert out + s1.q == s.q;
    }
  }

  /** A run continues from a later state, with some values delivered already. */
  ghost predicate QueueContinues<T>(events: seq<QueueEvent<T>>, i: nat, s: Queue<T>, delivered: seq<T>)
    requires i <= |events|
  {
    var (end, all) := QueueRun(Queue([], false, true, None), events);
    var (end', more) := QueueRun(s, events[i..]);
    end == end' && all == delivered + more
  }

  lemma QueueStarts<T>(events: seq<QueueEvent<T>>)
    ensures QueueContinues(events, 0, Queue([], false, true, None), [])
  {
    hide QueueRun;
    assert events[0..] == events;
    JoinNone(QueueRun(Queue([], false, true, None), events).1);
  }

  lemma QueueContinuesStep<T>(events: seq<QueueEvent<T>>, i: nat, s: Queue<T>, delivered: seq<T>)
    requires i < |events| && QueueContinues(events, i, s, delivered) && !events[i].Stops?
    ensures QueueContinues(events, i + 1, QueueStep(s, events[i]).0, delivered + QueueStep(s, events[i]).1)
  {
    hide QueueStep;
    var (s1, out) := QueueStep(s, events[i]);
    assert events[i..][0] == events[i] && events[i..][1..] == events[i + 1..];
    Join(delivered, out, QueueRun(s1, events[i + 1..]).1);
  }

  lemma QueueEnds<T>(events: seq<QueueEvent<T>>, i: nat, s: Queue<T>, delivered: seq<T>)
    requires i <= |events| && QueueContinues(events, i, s, delivered) && (i == |events| || events[i].Stops?)
    ensures QueueRun(Queue([], false, true, None), events) == (s, delivered)
  {
    JoinNone(delivered);
  }

  method QueueHandler<T>(events: seq<QueueEvent<T>>) returns (delivered: seq<T>, q: seq<T>)
    ensures delivered == QueueRun(Queue([], false, true, None), events).1 &&
      q == QueueRun(Queue([], false, true, None), events).0.q
    ensures delivered + q == Arrived(events)
  {
    hide QueueRun, QueueContinues;
    var dequeue, skipQueue := false, true;
    var next: Option<T> := None;
    q, delivered := [], [];
    QueueStarts(events);
    QueueRunSafe(Queue([], false, true, None), events);
    JoinNone(Arrived(events));
    for i := 0 to |events|
      invariant QueueOk(Queue(q, dequeue, skipQueue, next))
      invariant QueueContinues(events, i, Queue(q, dequeue, skipQueue, next), delivered)
    {
      if events[i].Stops? {
        QueueEnds(events, i, Queue(q, dequeue, skipQueue, next), delivered);
        return;
      }
      QueueContinuesStep(events, i, Queue(q, dequeue, skipQueue, next), delivered);
      QueueStepSafe(Queue(q, dequeue, skipQueue, next), events[i]);
      JoinNone(delivered);
      match events[i] {
        case Arrives(n, ready) =>
          if skipQueue && ready {
            delivered := delivered + [n];
          } else {
            q := q + [n];
            dequeue, skipQueue, next := true, false, Some(q[0]);
          }
        case ReaderReady =>
          if dequeue {
            delivered := delivered + [next.value];
            q := q[1..];
            if |q| == 0 {
              dequeue, skipQueue := false, true;
            } else {
              next := Some(q[0]);
            }
          }
      }
    }
    QueueEnds(events, |events|, Queue(q, dequeue, skipQueue, next), delivered);
  }

  // ---------------------------------------------------------------------------
  // notificationQueueHandler

  /** A notification arrives, an outstanding one has been sent, or the client quits. */
  datatype ClientEvent<T> = Notify(msg: T) | Sent | Quits

  function Notified<T>(events: seq<ClientEvent<T>>): seq<T>
  {
    if events == [] || events[0].Quits? then []
    else (if events[0].Notify? then [events[0].msg] else []) + Notified(events[1..])
  }

  /** `outstanding` counts messages handed to the writer and not yet acknowledged. */
  datatype Outbox<T> = Outbox(pending: seq<T>, waiting: bool, outstanding: nat)

  predicate OutboxOk<T(==)>(s: Outbox<T>)
  {
    && s.outstanding == (if s.waiting then 1 else 0)
    && (s.pending != [] ==> s.waiting)
  }

  /** The sent case is only picked when an acknowledgement is there. */
  function OutboxStep<T>(s: Outbox<T>, e: ClientEvent<T>): (Outbox<T>, seq<T>)
  {
    match e
    case Notify(msg) =>
      if !s.waiting then (Outbox(s.pending, true, s.outstanding + 1), [msg])
      else (Outbox(s.pending + [msg], true, s.outstanding), [])
    case Sent =>
      if s.outstanding == 0 then (s, [])
      else if s.pending == [] then (Outbox(s.pending, false, s.outstanding - 1), [])
      else (Outbox(s.pending[1..], s.waiting, s.outstanding), [s.pending[0]])
    case Quits => (s, [])
  }

  lemma OutboxStepSafe<T>(s: Outbox<T>, e: ClientEvent<T>)
    requires OutboxOk(s)
    ensures var (s', out) := OutboxStep(s, e);
            && OutboxOk(s')
            && out + s'.pending == s.pending + (if e.Notify? then [e.msg] else [])
            && |out| + (if e.Sent? && s.outstanding == 1 then 0 else s.outstanding) <= 1
  {
    if e.Sent? && s.pending != [] { assert [s.pending[0]] + s.pending[1..] == s.pending; }
  }

  /** The state after some events, and what was handed over on the way. */
  function OutboxRun<T>(s: Outbox<T>, events: seq<ClientEvent<T>>): (Outbox<T>, seq<T>)
    decreases |events|
  {
    if events == [] || events[0].Quits? then (s, [])
    else
      var (s1, out) := OutboxStep(s, events[0]);
      var (s2, more) := OutboxRun(s1, events[1..]);
      (s2, out + more)
  }

  /**
    Over every run: handed over then pending is what arrived, at most one message is out, and messages only
    pend while one is.
  */
  lemma {:induction false} OutboxRunSafe<T>(s: Outbox<T>, events: seq<ClientEvent<T>>)
    requires OutboxOk(s)
    ensures var (s', handed) := OutboxRun(s, events);
            && handed + s'.pending == s.pending + Notified(events)
            && s'.outstanding <= 1 && (s'.waiting <==> s'.outstanding == 1) && (s'.pending != [] ==> s'.waiting)
    decreases |events|
  {
    hide OutboxStep;
    if events != [] && !events[0].Quits? {
      OutboxStepSafe(s, events[0]);
      var (s1, out) := OutboxStep(s, events[0]);
      var (s2, more) := OutboxRun(s1, events[1..]);
      OutboxRunSafe(s1, events[1..]);
      var now := if events[0].Notify? then [events[0].msg] else [];
      calc {
        (out + more) + s2.pending;
        { Join(out, more, s2.pending); }
        out + (s1.pending + Notified(events[1..]));
        { Join(out, s1.pending, Notified(events[1..])); }
        (s.pending + now) + Notified(events[1..]);
        { Join(s.pending, now, Notified(events[1..])); }
        s.pending + Notified(events);
      }
    } else {
      JoinNone(s.pending);
    }
  }

  ghost predicate OutboxContinues<T>(events: seq<ClientEvent<T>>, i: nat, s: Outbox<T>, handed: seq<T>)
    requires i <= |events|
  {
    var (end, all) := OutboxRun(Outbox([], false, 0), events);
    var (end', more) := OutboxRun(s, events[i..]);
    end == end' && all == handed + more
  }

  lemma OutboxStarts<T>(events: seq<ClientEvent<T>>)
    ensures OutboxContinues(events, 0, Outbox([], false, 0), [])
  {
    hide OutboxRun;
    assert events[0..] == events;
    JoinNone(OutboxRun(Outbox([], false, 0), events).1);
  }

  lemma OutboxContinuesStep<T>(events: seq<ClientEvent<T>>, i: nat, s: Outbox<T>, handed: seq<T>)
    requires i < |events| && OutboxContinues(events, i, s, handed) && !events[i].Quits?
    ensures OutboxContinues(events, i + 1, OutboxStep(s, events[i]).0, handed + OutboxStep(s, events[i]).1)
  {
    hide OutboxStep;
    var (s1, out) := OutboxStep(s, events[i]);
    assert events[i..][0] == events[i] && events[i..][1..] == events[i + 1..];
    Join(handed, out, OutboxRun(s1, events[i + 1..]).1);
  }

  lemma OutboxEnds<T>(events: seq<ClientEvent<T>>, i: nat, s: Outbox<T>, handed: seq<T>)
    requires i <= |events| && OutboxContinues(events, i, s, handed) && (i == |events| || events[i].Quits?)
    ensures OutboxRun(Outbox([], false, 0), events) == (s, handed)
  {
    JoinNone(handed);
  }

  method NotificationQueueHandler<T>(events: seq<ClientEvent<T>>)
    returns (handed: seq<T>, pending: seq<T>, waiting: bool, outstanding: nat)
    ensures (Outbox(pending, waiting, outstanding), handed) == OutboxRun(Outbox([], false, 0), events)
    ensures handed + pending == Notified(events)
    ensures outstanding <= 1 && (pending != [] ==> waiting)
  {
    hide OutboxRun, OutboxContinues;
    pending, waiting, outstanding, handed := [], false, 0, [];
    OutboxStarts(events);
    OutboxRunSafe(Outbox([], false, 0), events);
    JoinNone(Notified(events));
    for i := 0 to |events|
      invariant OutboxContinues(events, i, Outbox(pending, waiting, outstanding), handed)
    {
      if events[i].Quits? {
        OutboxEnds(events, i, Outbox(pending, waiting, outstanding), handed);
        return;
      }
      OutboxContinuesStep(events, i, Outbox(pending, waiting, outstanding), handed);
      JoinNone(handed);
      match events[i] {
        case Notify(msg) =>
          if !waiting {
            handed, outstanding := handed + [msg], outstanding + 1;
          } else {
            pending := pending + [msg];
          }
          waiting := true;
        case Sent =>
          if outstanding == 0 {
            continue;
          }
          if |pending| == 0 {
            waiting, outstanding := false, outstanding - 1;
            continue;
          }
          handed, pending := handed + [pending[0]], pending[1..];
      }
    }
    OutboxEnds(events, |events|, Outbox(pending, waiting, outstanding), handed);
  }

  /** A notification is handed over at once exactly when none is out. */
  lemma NotificationStep<T>(s: Outbox<T>, e: ClientEvent<T>)
    requires OutboxOk(s) && e.Notify?
    ensures OutboxStep(s, e).1 == (if s.outstanding == 0 then [e.msg] else []) && OutboxStep(s, e).0.outstanding == 1
  {
  }

  /** One acknowledgement while waiting hands over the oldest message, or ends the wait. */
  lemma AcknowledgementStep<T>(s: Outbox<T>, e: ClientEvent<T>)
    requires OutboxOk(s) && s.waiting && e.Sent?
    ensures s.pending == [] ==> OutboxStep(s, e) == (Outbox([], false, 0), [])
    ensures s.pending != [] ==> OutboxStep(s, e) == (Outbox(s.pending[1..], true, 1), [s.pending[0]])
  {
  }

  /** Acknowledgements drain the queue: as many as there are messages, and one to stop waiting. */
  lemma {:induction false} AcknowledgementsDrain<T>(s: Outbox<T>, acks: seq<ClientEvent<T>>)
    requires OutboxOk(s) && s.waiting && |acks| == |s.pending| + 1 && forall e :: e in acks ==> e.Sent?
    ensures OutboxRun(s, acks) == (Outbox([], false, 0), s.pending)
    decreases |acks|
  {
    hide OutboxStep;
    assert acks[0] in acks;
    AcknowledgementStep(s, acks[0]);
    var (s1, out) := OutboxStep(s, acks[0]);
    var (s2, more) := OutboxRun(s1, acks[1..]);
    assert OutboxRun(s, acks) == (s2, out + more);
    if s.pending != [] {
      AcknowledgementsDrain(s1, acks[1..]);
      assert out + s1.pending == s.pending;
    } else {
      assert acks[1..] == [];
      assert out + more == [];
    }
  }
}
