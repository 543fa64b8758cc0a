/** Runs of the pub/sub protocol: when delivery is in order, when nothing is
 *  stranded, and two runs that show what goes wrong otherwise. */
module PubSubRuns {
  import opened Basics
  import opened Resp
  import opened PubSub

  lemma AfterStep(events: seq<Event>, e: Event)
    ensures After(events + [e]) == Next(After(events), e)
  {
    assert (events + [e])[..|events|] == events;
  }

  // ---- Order -----------------------------------------------------------------------

  ghost predicate NeverOvertakes(events: seq<Event>)
    decreases |events|
  {
    events != [] ==>
      NeverOvertakes(events[..|events| - 1]) && !Overtakes(After(events[..|events| - 1]), Last(events))
  }

  lemma {:induction false} OrderKept(events: seq<Event>)
    requires NeverOvertakes(events)
    ensures Inv(After(events), true)
    decreases |events|
  {
    hide Base, Awake, Next;
    if events == [] {
      EmptyOk();
    } else {
      OrderKept(events[..|events| - 1]);
      NextOk(After(events[..|events| - 1]), Last(events), true);
    }
  }

  /** Without overtaking, each healthy subscriber receives its frames in the
   *  order in which they were appended. */
  lemma InOrderDelivery(events: seq<Event>, id: Id)
    requires NeverOvertakes(events) && id in After(events).net.conns && !After(events).net.conns[id].cancelled
    ensures var l := After(events).led;
            id in l.sockOf && l.sockOf[id] in l.sent && l.sockOf[id] in l.queued && l.sent[l.sockOf[id]] <= l.queued[l.sockOf[id]]
  {
    OrderKept(events);
    assert ConnOk(After(events), id, true);
  }

  // ---- Runs without failures ---------------------------------------------------------

  ghost predicate Calm(st: State) {
    st.led.stranded == {} && forall id :: id in st.net.conns ==> !st.net.conns[id].cancelled
  }

  /** No write fails and publishers are still connected. */
  ghost predicate Smooth(st: State, e: Event) {
    && (e.Finish? ==> e.ok)
    && (e.Publish? ==> Connected(st, e.sender))
  }

  lemma {:induction false} CalmFlush(st: State, ids: seq<Id>)
    requires Calm(st)
    ensures Calm(FlushAll(st, ids))
    decreases |ids|
  {
    if ids != [] { CalmFlush(Trigger(st, ids[0]), ids[1..]); }
  }

  lemma {:induction false} CalmQueue(st: State, ids: seq<Id>, f: Frame)
    requires Calm(st)
    ensures var st' := QueueAll(st, ids, f);
            Calm(st') && st'.net.normals == st.net.normals && st'.net.conns.Keys == st.net.conns.Keys
    decreases |ids|
  {
    if ids != [] {
      QueueKeys(st, ids[0], f);
      CalmQueue(Queue(st, ids[0], f), ids[1..], f);
    }
  }

  lemma CalmDeliver(st: State, sender: Sender, f: Frame, flush: seq<Id>)
    requires Calm(st) && (Connected(st, sender) || flush == [])
    ensures Calm(Deliver(st, sender, f, flush))
  {
    hide FlushAll;
    if sender.Subscriber? && sender.id in st.net.conns {
      assert Calm(Queue(st, sender.id, f));
      CalmFlush(Queue(st, sender.id, f), flush);
    }
  }

  lemma CalmWritten(st: State, t: TaskId)
    requires Calm(st) && Base(st, false) && t in st.net.tasks && !st.net.tasks[t].Replying?
    ensures Calm(Written(st, t))
  {
    hide ConnOk, TaskOk, RestOk;
  }

  lemma CalmNext(st: State, e: Event)
    requires Calm(st) && Inv(st, false) && Smooth(st, e)
    ensures Calm(Next(st, e))
  {
    hide Base, Awake, Deliver, FlushAll, QueueAll, Written, Enrol, Withdraw, Listening, Present, Joined, Message;
    match e
    case Subscribe(s, ch) =>
      if s in st.net.normals {
        var st1 := WithChannels(Join(st, s), Enrol(st.net.channels, ch, st.net.nextId));
        assert Calm(st1);
        CalmDeliver(st1, Subscriber(st.net.nextId), Joined(ch, 1), []);
        DeliverSub(st1, st.net.nextId, Joined(ch, 1), []);
      }
    case SubscribeMore(id, ch) =>
      var st1 := Counted(WithChannels(st, Enrol(st.net.channels, ch, id)), id, CountOf(st.net.conns, id) + 1);
      CalmDeliver(st1, Subscriber(id), Joined(ch, CountOf(st1.net.conns, id)), []);
      DeliverSub(st1, id, Joined(ch, CountOf(st1.net.conns, id)), []);
    case Publish(args, sender) =>
      if |args| < 2 {
        CalmDeliver(st, sender, WrongArguments(), []);
      } else {
        var subs, f := Listening(st.net.channels, args[0]), Message(args[0], args[1]);
        CalmQueue(st, subs, f);
        CalmDeliver(QueueAll(st, subs, f), sender, Integer(Signed64(|subs|)), Present(st.net.conns.Keys, subs));
      }
    case Send(sender, f) => CalmDeliver(st, sender, f, []);
    case Finish(t, ok) =>
      if t in st.net.tasks {
        match st.net.tasks[t]
        case Spawned(_, _) =>
        case Writing(_, _) => CalmWritten(st, t);
        case Inline(_, _, flush) =>
          CalmWritten(st, t);
          CalmFlush(Written(st, t), flush);
        case Replying(_, flush) =>
          assert Calm(Replied(st, t));
          CalmFlush(Replied(st, t), flush);
      }
    case _ =>
  }

  ghost predicate AllSmooth(events: seq<Event>)
    decreases |events|
  {
    events != [] ==> AllSmooth(events[..|events| - 1]) && Smooth(After(events[..|events| - 1]), Last(events))
  }

  lemma {:induction false} SmoothIsCalm(events: seq<Event>)
    requires AllSmooth(events)
    ensures Calm(After(events))
    decreases |events|
  {
    hide Next;
    if events != [] {
      SmoothIsCalm(events[..|events| - 1]);
      CalmNext(After(events[..|events| - 1]), Last(events));
    }
  }

  /** In a run without failures, when all tasks are done every subscriber has
   *  received exactly what was appended for it. */
  lemma EverythingDelivered(events: seq<Event>, id: Id)
    requires AllSmooth(events) && After(events).net.tasks == map[] && id in After(events).net.conns
    ensures var st := After(events);
            && st.net.conns[id].io == [] && id in st.led.sockOf && var s := st.led.sockOf[id];
               s in st.led.queued && s in st.led.sent && multiset(st.led.queued[s]) == multiset(st.led.sent[s])
  {
    SmoothIsCalm(events);
    NoLostWakeup(events, id);
  }

  // ---- Two instructive runs ------------------------------------------------------------

  /** The subscriber's confirmation and the publisher's reply. */
  function Hello(ch: Channel): Frame {
    Joined(ch, 1)
  }

  const ONE: Frame := Integer(1)

  /** A subscriber on socket 0 at rest, a client on socket 1. */
  ghost function Ready(ch: Channel): State {
    State(Net(map[0 := Conn(Some(0), [], Some([]), false, 1)], map[ch := [0]], map[], map[1 := []], 1, 1),
          Ledger(map[0 := [Hello(ch)], 1 := []], map[0 := [Hello(ch)], 1 := []], map[0 := Subscribed(0), 1 := Resting], map[0 := 0], map[], {}))
  }

  function Prelude(ch: Channel): seq<Event> {
    [Accept(0), Accept(1), Subscribe(0, ch), Finish(0, true)]
  }

  const Greeted: State :=
    State(Net(map[], map[], map[], map[0 := [], 1 := []], 0, 0),
          Ledger(map[0 := [], 1 := []], map[0 := [], 1 := []], map[0 := Resting, 1 := Resting], map[], map[], {}))

  ghost function Joining(ch: Channel): State {
    State(Net(map[0 := Conn(None, [], None, false, 1)], map[ch := [0]], map[0 := Inline(0, Writer(0, [Hello(ch)]), [])], map[1 := []], 1, 1),
          Ledger(map[0 := [Hello(ch)], 1 := []], map[0 := [], 1 := []], map[0 := Subscribed(0), 1 := Resting], map[0 := 0], map[0 := 0], {}))
  }

  ghost function Entered(ch: Channel): State {
    State(Net(map[0 := Conn(Some(0), [], Some([]), false, 1)], map[ch := [0]], map[], map[1 := []], 1, 0),
          Ledger(map[0 := [], 1 := []], map[0 := [], 1 := []], map[0 := Subscribed(0), 1 := Resting], map[0 := 0], map[], {}))
  }

  lemma StepJoin(ch: Channel)
    ensures WithChannels(Join(Greeted, 0), Enrol(map[], ch, 0)) == Entered(ch)
  {
    assert [] + [0] == [0];
    assert Greeted.net.normals - {0} == map[1 := []];
    assert Enrol(map[], ch, 0) == map[ch := [0]];
  }

  lemma StepConfirm(ch: Channel)
    ensures SendPub(Entered(ch), 0, Hello(ch), []) == Joining(ch)
  {
    hide FlushAll, Hello;
    var st1 := Queue(Entered(ch), 0, Hello(ch));
    assert [] + [Hello(ch)] == [Hello(ch)];
    assert st1.net.conns == map[0 := Conn(Some(0), [Hello(ch)], Some([]), false, 1)];
    assert st1.led.queued == map[0 := [Hello(ch)], 1 := []];
  }

  lemma StepSubscribe(ch: Channel)
    requires Base(Greeted, false)
    ensures Next(Greeted, Subscribe(0, ch)) == Joining(ch)
  {
    hide Base, SendPub, Join, Enrol, Joined;
    StepJoin(ch);
    StepConfirm(ch);
  }

  lemma StepGreet(ch: Channel)
    requires Base(Joining(ch), false)
    ensures Next(Joining(ch), Finish(0, true)) == Ready(ch)
  {
    hide Base, Hello;
    var st := Joining(ch);
    var st1 := Written(st, 0);
    assert [] + [Hello(ch)] == [Hello(ch)];
    assert st1.net.conns == map[0 := Conn(Some(0), [], Some([]), false, 1)];
    assert st1.led.sent == map[0 := [Hello(ch)], 1 := []];
    assert Next(st, Finish(0, true)) == FlushAll(st1, []);
  }

  lemma ReachReady(ch: Channel)
    ensures After(Prelude(ch)) == Ready(ch)
  {
    hide Base, SendPub, Written, Hello;
    var e := Prelude(ch);
    assert e[..1] == [] + [Accept(0)] && e[..2] == e[..1] + [Accept(1)] && e[..3] == e[..2] + [Subscribe(0, ch)] && e == e[..3] + [Finish(0, true)];
    AfterStep([], Accept(0));
    AfterStep(e[..1], Accept(1));
    assert After(e[..2]) == Greeted;
    AfterStep(e[..2], Subscribe(0, ch));
    StepSubscribe(ch);
    AfterStep(e[..3], Finish(0, true));
    StepGreet(ch);
  }

  /** The client has published `m` and waits for its reply to be written. */
  ghost function Published(ch: Channel, m: Frame): State {
    State(Net(map[0 := Conn(Some(0), [m], Some([]), false, 1)], map[ch := [0]], map[1 := Replying(Writer(1, [ONE]), [0])], map[], 1, 2),
          Ledger(map[0 := [Hello(ch), m], 1 := [ONE]], map[0 := [Hello(ch)], 1 := []], map[0 := Subscribed(0), 1 := Sending(1)], map[0 := 0], map[], {}))
  }

  lemma OneSubscriber(st: State, ch: Channel, m: Frame)
    requires ch in st.net.channels && st.net.channels[ch] == [0] && 0 in st.net.conns
    ensures Listening(st.net.channels, ch) == [0] && Present(st.net.conns.Keys, [0]) == [0]
    ensures QueueAll(st, [0], m) == Queue(st, 0, m)
  {
    assert [0][1..] == [] && [0] + [] == [0];
    assert Present(st.net.conns.Keys, []) == [] && QueueAll(Queue(st, 0, m), [], m) == Queue(st, 0, m);
  }

  lemma PublishToOne(st: State, ch: Channel, text: Bytes, s: Socket)
    requires Base(st, false) && ch in st.net.channels && st.net.channels[ch] == [0] && 0 in st.net.conns && s in st.net.normals
    ensures Next(st, Publish([ch, text], Plain(s))) == StartReply(Queue(st, 0, Message(ch, text)), s, ONE, [0])
  {
    hide Base, QueueAll, Present, Listening, StartReply, Message;
    OneSubscriber(st, ch, Message(ch, text));
  }

  lemma StepPublish(ch: Channel, text: Bytes)
    requires Base(Ready(ch), false)
    ensures Next(Ready(ch), Publish([ch, text], Plain(1))) == Published(ch, Message(ch, text))
  {
    hide Base, Next, Hello, Message;
    var st, m := Ready(ch), Message(ch, text);
    var st1 := Queue(st, 0, m);
    PublishToOne(st, ch, text, 1);
    assert [] + [m] == [m] && [Hello(ch)] + [m] == [Hello(ch), m] && [] + [ONE] == [ONE];
    assert st1.net.conns == map[0 := Conn(Some(0), [m], Some([]), false, 1)] && st1.led.queued == map[0 := [Hello(ch), m], 1 := []];
    assert st1.net.normals - {1} == map[];
  }

  lemma StepHangUp(ch: Channel, m: Frame)
    requires Base(Published(ch, m), false)
    ensures var st := Next(Published(ch, m), Finish(1, false));
            st.net.tasks == map[] && st.net.conns == Published(ch, m).net.conns && 0 in st.led.stranded
  {
    hide Base, Hello;
    var st := Published(ch, m);
    var st1 := HungUp(st, 1);
    assert Next(st, Finish(1, false)) == Strand(st1, [0]);
    assert Laden(st1, 0) && 0 in [0];
  }

  /** A failed reply drops the wake-up: no task is left, and a message waits in
   *  the buffer of a healthy connection. */
  lemma StuckMessage(ch: Channel, text: Bytes) returns (events: seq<Event>)
    ensures var st := After(events);
            && st.net.tasks == map[] && 0 in st.net.conns && 0 in st.led.stranded
            && st.net.conns[0] == Conn(Some(0), [Message(ch, text)], Some([]), false, 1)
  {
    hide Base, Next, Hello, Message;
    var e, p := Prelude(ch), Publish([ch, text], Plain(1));
    ReachReady(ch);
    AfterStep(e, p);
    StepPublish(ch, text);
    var e1 := e + [p];
    AfterStep(e1, Finish(1, false));
    StepHangUp(ch, Message(ch, text));
    events := e1 + [Finish(1, false)];
  }

  /** The write task for `m` is spawned and has not started when `n` arrives. */
  ghost function Racing(ch: Channel, m: Frame, n: Frame): State {
    State(Net(map[0 := Conn(None, [n], None, false, 1)], map[ch := [0]],
              map[2 := Spawned(0, Writer(0, [m])), 3 := Replying(Writer(1, [ONE]), [0])], map[], 1, 4),
          Ledger(map[0 := [Hello(ch), m, n], 1 := [ONE, ONE]], map[0 := [Hello(ch)], 1 := [ONE]],
                 map[0 := Subscribed(0), 1 := Sending(3)], map[0 := 0], map[0 := 2], {}))
  }

  ghost function Woken(ch: Channel, m: Frame): State {
    State(Net(map[0 := Conn(None, [], None, false, 1)], map[ch := [0]], map[2 := Spawned(0, Writer(0, [m]))], map[1 := []], 1, 3),
          Ledger(map[0 := [Hello(ch), m], 1 := [ONE]], map[0 := [Hello(ch)], 1 := [ONE]],
                 map[0 := Subscribed(0), 1 := Resting], map[0 := 0], map[0 := 2], {}))
  }

  /** The client has its reply; the subscriber is not woken yet. */
  ghost function Answered(ch: Channel, m: Frame): State {
    State(Net(map[0 := Conn(Some(0), [m], Some([]), false, 1)], map[ch := [0]], map[], map[1 := []], 1, 2),
          Ledger(map[0 := [Hello(ch), m], 1 := [ONE]], map[0 := [Hello(ch)], 1 := [ONE]],
                 map[0 := Subscribed(0), 1 := Resting], map[0 := 0], map[], {}))
  }

  lemma StepAnswer(ch: Channel, m: Frame)
    ensures Replied(Published(ch, m), 1) == Answered(ch, m)
  {
    hide Hello;
    var st := Published(ch, m);
    assert [] + [ONE] == [ONE];
    assert st.net.tasks - {1} == map[] && st.net.normals[1 := []] == map[1 := []];
    assert st.led.sent[1 := [ONE]] == map[0 := [Hello(ch)], 1 := [ONE]];
  }

  lemma StepTrigger(ch: Channel, m: Frame)
    ensures FlushAll(Answered(ch, m), [0]) == Woken(ch, m)
  {
    hide Hello;
    var st := Answered(ch, m);
    assert [0][1..] == [];
    assert FlushAll(st, [0]) == FlushAll(Trigger(st, 0), []) == Trigger(st, 0);
  }

  lemma StepWake(ch: Channel, m: Frame)
    requires Base(Published(ch, m), false)
    ensures Next(Published(ch, m), Finish(1, true)) == Woken(ch, m)
  {
    hide Base, Hello, Replied, FlushAll, Answered, Woken;
    StepAnswer(ch, m);
    StepTrigger(ch, m);
  }

  /** The second message is queued; the client's reply is not. */
  ghost function Piled(ch: Channel, m: Frame, n: Frame): State {
    State(Net(map[0 := Conn(None, [n], None, false, 1)], map[ch := [0]], map[2 := Spawned(0, Writer(0, [m]))], map[1 := []], 1, 3),
          Ledger(map[0 := [Hello(ch), m, n], 1 := [ONE]], map[0 := [Hello(ch)], 1 := [ONE]],
                 map[0 := Subscribed(0), 1 := Resting], map[0 := 0], map[0 := 2], {}))
  }

  lemma StepPile(ch: Channel, m: Frame, n: Frame)
    ensures Queue(Woken(ch, m), 0, n) == Piled(ch, m, n)
  {
    hide Hello;
    var st := Queue(Woken(ch, m), 0, n);
    assert [] + [n] == [n] && [Hello(ch), m] + [n] == [Hello(ch), m, n];
    assert Woken(ch, m).net.conns[0] == Conn(None, [], None, false, 1);
    assert st.net.conns == map[0 := Conn(None, [n], None, false, 1)] && st.led.queued == map[0 := [Hello(ch), m, n], 1 := [ONE]];
  }

  lemma StepReply(ch: Channel, m: Frame, n: Frame)
    ensures StartReply(Piled(ch, m, n), 1, ONE, [0]) == Racing(ch, m, n)
  {
    hide Hello;
    var st, st' := Piled(ch, m, n), StartReply(Piled(ch, m, n), 1, ONE, [0]);
    assert [] + [ONE] == [ONE] && [ONE] + [ONE] == [ONE, ONE];
    assert st'.net == Racing(ch, m, n).net by {
      assert st'.net.normals == map[];
      assert st'.net.tasks == map[2 := Spawned(0, Writer(0, [m])), 3 := Replying(Writer(1, [ONE]), [0])];
    }
    assert st'.led == Racing(ch, m, n).led by {
      assert st'.led.queued == map[0 := [Hello(ch), m, n], 1 := [ONE, ONE]];
      assert st'.led.place == map[0 := Subscribed(0), 1 := Sending(3)];
    }
  }

  lemma StepRace(ch: Channel, m: Frame, text: Bytes)
    requires Base(Woken(ch, m), false)
    ensures Next(Woken(ch, m), Publish([ch, text], Plain(1))) == Racing(ch, m, Message(ch, text))
  {
    hide Base, Next, Hello, Message, Queue, StartReply, Racing, Piled;
    PublishToOne(Woken(ch, m), ch, text, 1);
    StepPile(ch, m, Message(ch, text));
    StepReply(ch, m, Message(ch, text));
  }

  /** In-order delivery is not guaranteed: `first` is published before `second`
   *  and written after it. */
  lemma MessageOvertaken(ch: Channel, first: Bytes, second: Bytes) returns (events: seq<Event>)
    ensures var l := After(events).led; var m, n := Message(ch, first), Message(ch, second);
            0 in l.queued && 0 in l.sent && l.queued[0] == [Hello(ch), m, n] && l.sent[0] == [Hello(ch), n]
    ensures |events| >= 2 && (Overtakes(After(events[..|events| - 2]), events[|events| - 2]) <==> first != second)
  {
    hide Base, Queue, QueueAll, Listening, Present, FlushAll, Hello, Message;
    var m, n := Message(ch, first), Message(ch, second);
    var e, p, q := Prelude(ch), Publish([ch, first], Plain(1)), Publish([ch, second], Plain(1));
    ReachReady(ch);
    AfterStep(e, p);
    StepPublish(ch, first);
    var e1 := e + [p];
    AfterStep(e1, Finish(1, true));
    StepWake(ch, m);
    var e2 := e1 + [Finish(1, true)];
    AfterStep(e2, q);
    StepRace(ch, m, second);
    var e3 := e2 + [q];
    AfterStep(e3, Start(2));
    var e4 := e3 + [Start(2)];
    AfterStep(e4, Finish(2, true));
    StepOvertake(ch, m, n);
    MessagesDiffer(ch, first, second);
    events := e4 + [Finish(2, true)];
    assert events[..|events| - 2] == e3 && events[|events| - 2] == Start(2);
  }

  lemma MessagesDiffer(ch: Channel, a: Bytes, b: Bytes)
    ensures Message(ch, a) == Message(ch, b) <==> a == b
  {
    assert Message(ch, a).frames[2] == BulkString(a) && Message(ch, b).frames[2] == BulkString(b);
  }

  lemma StepOvertake(ch: Channel, m: Frame, n: Frame)
    requires Inv(Racing(ch, m, n), false)
    ensures Overtakes(Racing(ch, m, n), Start(2)) <==> m != n
    ensures var st := Next(Racing(ch, m, n), Start(2));
            Base(st, false) && var l := Next(st, Finish(2, true)).led;
            0 in l.queued && 0 in l.sent && l.queued[0] == [Hello(ch), m, n] && l.sent[0] == [Hello(ch), n]
  {
    hide Base, Hello;
    var st := Racing(ch, m, n);
    NextOk(st, Start(2), false);
    assert [m] + [n] == [m, n] && [n] + [m] == [n, m] && [Hello(ch)] + [n] == [Hello(ch), n];
    assert [m, n][0] == m && [n, m][0] == n;
  }
}
