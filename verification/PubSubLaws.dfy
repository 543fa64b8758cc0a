/** What the steps of the pub/sub protocol mean: which frames each event appends
 *  for each socket, which are written, and who is subscribed to what. The laws
 *  speak of the events alone, not of the moves that the steps are made of. */
module PubSubLaws {
  import opened Basics
  import opened Resp
  import opened PubSub
  import opened PubSubRuns

  /** A count as the signed word that is sent. */
  function Word(n: nat): Int64 {
    var w := n % 0x1_0000_0000_0000_0000;
    if w <= 0x7FFF_FFFF_FFFF_FFFF then w else w - 0x1_0000_0000_0000_0000
  }

  const MESSAGE: Bytes := [109, 101, 115, 115, 97, 103, 101]
  const SUBSCRIBE: Bytes := [115, 117, 98, 115, 99, 114, 105, 98, 101]
  const UNSUBSCRIBE: Bytes := [117, 110, 115, 117, 98, 115, 99, 114, 105, 98, 101]

  /** The subscriber that a socket belongs to. */
  ghost function At(st: State, s: Socket): Option<Id> {
    if s in st.led.place && st.led.place[s].Subscribed? && st.led.place[s].id in st.net.conns
       && st.led.place[s].id in st.led.sockOf && st.led.sockOf[st.led.place[s].id] == s
    then Some(st.led.place[s].id) else None
  }

  ghost predicate Speaks(st: State, sender: Sender, s: Socket) {
    match sender case Plain(r) => r == s && s in st.net.normals case Subscriber(id) => At(st, s) == Some(id)
  }

  ghost function Subscribers(st: State, ch: Channel): seq<Id> {
    if ch in st.net.channels then st.net.channels[ch] else []
  }

  /** The frames that an event addresses to a socket. */
  ghost function Addressed(st: State, e: Event, s: Socket): seq<Frame> {
    match e
    case Subscribe(r, ch) =>
      if r == s && s in st.net.normals then [Array([BulkString(SUBSCRIBE), BulkString(ch), Integer(1)])] else []
    case SubscribeMore(id, ch) =>
      if At(st, s) == Some(id) then [Array([BulkString(SUBSCRIBE), BulkString(ch), Integer(Word(st.net.conns[id].count + 1))])] else []
    case Send(sender, f) => if Speaks(st, sender, s) then [f] else []
    case Publish(args, sender) =>
      if |args| < 2 then
        if Speaks(st, sender, s) then [Error(Text("ERR wrong number of arguments for 'PUBLISH' command"))] else []
      else
        var subs := Subscribers(st, args[0]);
        var message := Array([BulkString(MESSAGE), BulkString(args[0]), BulkString(args[1])]);
        (if At(st, s).Some? then seq(multiset(subs)[At(st, s).value], _ => message) else [])
        + (if Speaks(st, sender, s) then [Integer(Word(|subs|))] else [])
    case _ => []
  }

  /** The frames that an event finishes writing to a socket, while its session is
   *  there. */
  ghost function Wrote(st: State, e: Event, s: Socket): seq<Frame> {
    match e
    case Finish(t, true) =>
      if t in st.net.tasks && !st.net.tasks[t].Spawned? && st.net.tasks[t].cw.sock == s
         && (st.net.tasks[t].Replying? || st.net.tasks[t].id in st.net.conns)
      then st.net.tasks[t].cw.buffer else []
    case _ => []
  }

  lemma Words()
    ensures Text("message") == MESSAGE && Text("subscribe") == SUBSCRIBE && Text("unsubscribe") == UNSUBSCRIBE
  {
  }

  lemma Spelled(ch: Channel, text: Bytes, n: nat)
    ensures Message(ch, text) == Array([BulkString(MESSAGE), BulkString(ch), BulkString(text)])
    ensures Joined(ch, n) == Array([BulkString(SUBSCRIBE), BulkString(ch), Integer(Word(n))])
    ensures Signed64(n) == Word(n)
  {
    hide Text;
    Words();
  }

  // ---- What is appended ----------------------------------------------------------------------

  /** Nothing is appended or written, and everybody stays where they are. */
  ghost predicate Quiet(st: State, st': State) {
    && st'.led.queued == st.led.queued && st'.led.sent == st.led.sent && st'.net.channels == st.net.channels
  }

  ghost predicate SamePlaces(st: State, st': State) {
    && st'.led.place == st.led.place && st'.led.sockOf == st.led.sockOf
    && st'.net.conns.Keys == st.net.conns.Keys && st'.net.normals == st.net.normals
  }

  lemma {:induction false} FlushQuiet(st: State, ids: seq<Id>)
    ensures Quiet(st, FlushAll(st, ids))
    decreases |ids|
  {
    if ids != [] { FlushQuiet(Trigger(st, ids[0]), ids[1..]); }
  }

  lemma AtSocket(st: State, id: Id, s: Socket)
    requires Base(st, false)
    ensures At(st, s) == Some(id) <==> id in st.net.conns && id in st.led.sockOf && st.led.sockOf[id] == s
    ensures id in st.net.conns ==> id in st.led.sockOf && st.led.sockOf[id] in st.led.queued
  {
    hide Account, Books;
    if id in st.net.conns { assert ConnOk(st, id, false); }
  }

  lemma QueueLaw(st: State, id: Id, f: Frame, s: Socket)
    requires Base(st, false)
    ensures var st' := Queue(st, id, f);
            && SamePlaces(st, st') && st'.led.sent == st.led.sent && st'.net.channels == st.net.channels
            && (s in st'.led.queued <==> s in st.led.queued)
            && (s in st.led.queued ==> st'.led.queued[s] == st.led.queued[s] + if At(st, s) == Some(id) then [f] else [])
  {
    hide Base;
    AtSocket(st, id, s);
  }

  lemma Occurrences(ids: seq<Id>, id: Id)
    requires ids != []
    ensures multiset(ids)[id] == (if ids[0] == id then 1 else 0) + multiset(ids[1..])[id]
  {
    assert ids == [ids[0]] + ids[1..];
  }

  lemma SamePlacesAt(st: State, st': State, s: Socket)
    requires SamePlaces(st, st')
    ensures At(st', s) == At(st, s)
  {
  }

  /** Appended once for each occurrence of the session in the list. */
  lemma {:induction false} QueueAllLaw(st: State, ids: seq<Id>, f: Frame, s: Socket)
    requires Base(st, false)
    ensures var st' := QueueAll(st, ids, f);
            && SamePlaces(st, st') && st'.led.sent == st.led.sent && st'.net.channels == st.net.channels && Base(st', false)
           
            && (s in st'.led.queued <==> s in st.led.queued)
            && (s in st.led.queued ==>
                  st'.led.queued[s] == st.led.queued[s] + if At(st, s).Some? then seq(multiset(ids)[At(st, s).value], _ => f) else [])
    decreases |ids|
  {
    hide Base, Queue, At;
    if ids != [] {
      var st1 := Queue(st, ids[0], f);
      QueueBase(st, ids[0], f, false);
      QueueLaw(st, ids[0], f, s);
      SamePlacesAt(st, st1, s);
      QueueAllLaw(st1, ids[1..], f, s);
      if At(st, s).Some? {
        var id := At(st, s).value;
        Occurrences(ids, id);
        var n := multiset(ids[1..])[id];
        assert ids[0] == id ==> [f] + seq(n, _ => f) == seq(n + 1, _ => f);
      }
    }
  }

  /** Each connection in the list has the frame appended to its own buffer, once for
   *  each occurrence. */
  lemma {:induction false} QueueAllBuffers(st: State, ids: seq<Id>, f: Frame, id: Id)
    requires id in st.net.conns
    ensures var st' := QueueAll(st, ids, f);
            && id in st'.net.conns
            && st'.net.conns[id] == st.net.conns[id].(io := st.net.conns[id].io + seq(multiset(ids)[id], _ => f))
    decreases |ids|
  {
    if ids == [] {
      assert st.net.conns[id].io + [] == st.net.conns[id].io;
    } else {
      var st1, n := Queue(st, ids[0], f), multiset(ids[1..])[id];
      QueueAllBuffers(st1, ids[1..], f, id);
      Occurrences(ids, id);
      var io := st.net.conns[id].io;
      if ids[0] == id {
        assert [f] + seq(n, _ => f) == seq(n + 1, _ => f);
        Group(io, [f], seq(n, _ => f));
      }
    }
  }

  /** The flush loop leaves alone a connection whose writer is out. */
  lemma {:induction false} FlushSpares(st: State, ids: seq<Id>, id: Id)
    requires id in st.net.conns && (st.net.conns[id].write.None? || st.net.conns[id].swap.None?)
    ensures id in FlushAll(st, ids).net.conns && FlushAll(st, ids).net.conns[id] == st.net.conns[id]
    decreases |ids|
  {
    if ids != [] { FlushSpares(Trigger(st, ids[0]), ids[1..], id); }
  }

  lemma SendPubLaw(st: State, id: Id, f: Frame, flush: seq<Id>, s: Socket)
    requires Base(st, false)
    ensures var st' := SendPub(st, id, f, flush);
            && st'.led.sent == st.led.sent && st'.net.channels == st.net.channels
            && (s in st'.led.queued <==> s in st.led.queued)
            && (s in st.led.queued ==> st'.led.queued[s] == st.led.queued[s] + if At(st, s) == Some(id) then [f] else [])
  {
    hide Base, Queue, FlushAll, At;
    AtSocket(st, id, s);
    if id in st.net.conns {
      QueueLaw(st, id, f, s);
      FlushQuiet(Queue(st, id, f), flush);
    }
  }

  lemma DeliverLaw(st: State, sender: Sender, f: Frame, flush: seq<Id>, s: Socket)
    requires Base(st, false)
    ensures var st' := Deliver(st, sender, f, flush);
            && st'.led.sent == st.led.sent && st'.net.channels == st.net.channels
            && (s in st'.led.queued <==> s in st.led.queued)
            && (s in st.led.queued ==> st'.led.queued[s] == st.led.queued[s] + if Speaks(st, sender, s) then [f] else [])
  {
    hide Base, SendPub, At;
    if sender.Subscriber? { SendPubLaw(st, sender.id, f, flush, s); }
  }

  /** One event appends exactly the frames that it addresses to a socket, at the
   *  end, and writes exactly the buffer of the write it finishes. A new client
   *  on a socket starts afresh. */
  lemma Appends(st: State, e: Event, s: Socket)
    requires Inv(st, false) && (e == Accept(s) ==> s in st.led.place)
    ensures var st' := Next(st, e);
            && (s in st'.led.queued <==> s in st.led.queued)
            && (s in st.led.queued ==> st'.led.queued[s] == st.led.queued[s] + Addressed(st, e, s))
            && (s in st'.led.sent <==> s in st.led.sent)
            && (s in st.led.sent ==> st'.led.sent[s] == st.led.sent[s] + Wrote(st, e, s))
  {
    hide Base, Awake, Next, Addressed, Wrote;
    match e
    case Subscribe(r, ch) => SubscribeAppends(st, r, ch, s);
    case SubscribeMore(id, ch) => SubscribeMoreAppends(st, id, ch, s);
    case Publish(args, sender) => PublishAppends(st, args, sender, s);
    case Send(sender, f) => SendAppends(st, sender, f, s);
    case Finish(t, ok) => FinishWrites(st, t, ok, s);
    case _ => OthersQuiet(st, e, s);
  }

  lemma AppendsAll(st: State, e: Event)
    requires Inv(st, false) && !e.Accept?
    ensures forall s :: s in st.led.queued ==> s in Next(st, e).led.queued && Next(st, e).led.queued[s] == st.led.queued[s] + Addressed(st, e, s)
  {
    hide Base, Awake, Next, Addressed, Wrote;
    forall s | s in st.led.queued ensures s in Next(st, e).led.queued && Next(st, e).led.queued[s] == st.led.queued[s] + Addressed(st, e, s) {
      Appends(st, e, s);
    }
  }

  lemma SendAppends(st: State, sender: Sender, f: Frame, s: Socket)
    requires Inv(st, false)
    ensures var e := Send(sender, f); var st' := Next(st, e);
            && (s in st'.led.queued <==> s in st.led.queued)
            && (s in st.led.queued ==> st'.led.queued[s] == st.led.queued[s] + Addressed(st, e, s))
            && st'.led.sent == st.led.sent && Wrote(st, e, s) == []
  {
    hide Base, Awake, Deliver, Speaks;
    DeliverLaw(st, sender, f, [], s);
  }

  lemma OthersQuiet(st: State, e: Event, s: Socket)
    requires Inv(st, false) && (e.Unsubscribe? || e.Cleanup? || e.Start? || (e.Accept? && (e == Accept(s) ==> s in st.led.place)))
    ensures var st' := Next(st, e);
            && (s in st'.led.queued <==> s in st.led.queued)
            && (s in st.led.queued ==> st'.led.queued[s] == st.led.queued[s] + Addressed(st, e, s))
            && (s in st'.led.sent <==> s in st.led.sent)
            && (s in st.led.sent ==> st'.led.sent[s] == st.led.sent[s] + Wrote(st, e, s))
  {
    hide Base, Awake, Withdraw, Unsubscribed, Close, Begin;
    match e
    case Unsubscribe(id, removed) => UnsubscribedQuiet(st, id, removed);
    case Cleanup(id) => CloseQuiet(WithChannels(st, Withdraw(st.net.channels, st.net.channels.Keys, id)), id);
    case Start(t) => if t in st.net.tasks && st.net.tasks[t].Spawned? { BeginQuiet(st, t); }
    case _ =>
  }

  lemma UnsubscribedQuiet(st: State, id: Id, removed: seq<Channel>)
    ensures Unsubscribed(st, id, removed).led.queued == st.led.queued && Unsubscribed(st, id, removed).led.sent == st.led.sent
  {
  }

  lemma CloseQuiet(st: State, id: Id)
    ensures Quiet(st, Close(st, id))
  {
  }

  lemma BeginQuiet(st: State, t: TaskId)
    requires t in st.net.tasks && st.net.tasks[t].Spawned?
    ensures Quiet(st, Begin(st, t))
  {
  }

  lemma SubscribeAppends(st: State, r: Socket, ch: Channel, s: Socket)
    requires Inv(st, false)
    ensures var st' := Next(st, Subscribe(r, ch));
            && (s in st'.led.queued <==> s in st.led.queued)
            && (s in st.led.queued ==> st'.led.queued[s] == st.led.queued[s] + Addressed(st, Subscribe(r, ch), s))
            && st'.led.sent == st.led.sent && Wrote(st, Subscribe(r, ch), s) == []
  {
    hide Base, Awake, SendPub, Joined, At, Word;
    if r in st.net.normals {
      var id := st.net.nextId;
      var st1 := WithChannels(Join(st, r), Enrol(st.net.channels, ch, id));
      JoinOk(st, r, {}, false);
      ChannelsOk(Join(st, r), Enrol(st.net.channels, ch, id), {} + {id}, false);
      SendPubLaw(st1, id, Joined(ch, 1), [], s);
      AtSocket(st1, id, s);
      Spelled(ch, [], 1);
      SmallWord(1);
    }
  }

  lemma SmallWord(n: nat)
    requires n <= 0x7FFF_FFFF_FFFF_FFFF
    ensures Word(n) == n
  {
  }

  lemma SubscribeMoreAppends(st: State, id: Id, ch: Channel, s: Socket)
    requires Inv(st, false)
    ensures var st' := Next(st, SubscribeMore(id, ch));
            && (s in st'.led.queued <==> s in st.led.queued)
            && (s in st.led.queued ==> st'.led.queued[s] == st.led.queued[s] + Addressed(st, SubscribeMore(id, ch), s))
            && st'.led.sent == st.led.sent && Wrote(st, SubscribeMore(id, ch), s) == []
  {
    hide Base, Awake, SendPub, Joined, At, Word, Enrol;
    var st0 := WithChannels(st, Enrol(st.net.channels, ch, id));
    var n := CountOf(st.net.conns, id) + 1;
    var st1 := Counted(st0, id, n);
    ChannelsOk(st, Enrol(st.net.channels, ch, id), {}, false);
    CountedOk(st0, id, n, {}, false);
    SendPubLaw(st1, id, Joined(ch, CountOf(st1.net.conns, id)), [], s);
    SamePlacesAt(st, st1, s);
    AtSocket(st, id, s);
    Spelled(ch, [], n);
  }

  lemma PublishAppends(st: State, args: seq<Bytes>, sender: Sender, s: Socket)
    requires Inv(st, false)
    ensures var st' := Next(st, Publish(args, sender));
            && (s in st'.led.queued <==> s in st.led.queued)
            && (s in st.led.queued ==> st'.led.queued[s] == st.led.queued[s] + Addressed(st, Publish(args, sender), s))
            && st'.led.sent == st.led.sent && Wrote(st, Publish(args, sender), s) == []
  {
    hide Base, Awake, Deliver, QueueAll, Present, Message, At, Word, Signed64, Text;
    if |args| < 2 {
      DeliverLaw(st, sender, WrongArguments(), [], s);
    } else {
      var subs := Listening(st.net.channels, args[0]);
      var st1 := QueueAll(st, subs, Message(args[0], args[1]));
      QueueAllLaw(st, subs, Message(args[0], args[1]), s);
      SamePlacesAt(st, st1, s);
      DeliverLaw(st1, sender, Integer(Signed64(|subs|)), Present(st.net.conns.Keys, subs), s);
      Spelled(args[0], args[1], |subs|);
      assert Speaks(st1, sender, s) <==> Speaks(st, sender, s);
    }
  }

  lemma SentLaw(l: Ledger, r: Socket, fs: seq<Frame>, s: Socket)
    ensures Sent(l, r, fs).queued == l.queued && (s in Sent(l, r, fs).sent <==> s in l.sent)
    ensures s in l.sent ==> Sent(l, r, fs).sent[s] == l.sent[s] + if r == s then fs else []
  {
  }

  lemma WrittenLaw(st: State, t: TaskId, s: Socket)
    requires Base(st, false) && t in st.net.tasks && !st.net.tasks[t].Replying?
    ensures var st' := Written(st, t);
            && st'.led.queued == st.led.queued && st'.net.channels == st.net.channels
            && (s in st'.led.sent <==> s in st.led.sent)
            && (s in st.led.sent ==>
                  st'.led.sent[s] == st.led.sent[s]
                    + if st.net.tasks[t].cw.sock == s && st.net.tasks[t].id in st.net.conns then st.net.tasks[t].cw.buffer else [])
  {
    hide Base, Sent;
    if st.net.tasks[t].id in st.net.conns { SentLaw(st.led, st.net.tasks[t].cw.sock, st.net.tasks[t].cw.buffer, s); }
  }

  lemma RepliedLaw(st: State, t: TaskId, s: Socket)
    requires t in st.net.tasks && st.net.tasks[t].Replying?
    ensures var st' := Replied(st, t);
            && st'.led.queued == st.led.queued && st'.net.channels == st.net.channels
            && (s in st'.led.sent <==> s in st.led.sent)
            && (s in st.led.sent ==> st'.led.sent[s] == st.led.sent[s] + if st.net.tasks[t].cw.sock == s then st.net.tasks[t].cw.buffer else [])
  {
  }

  lemma BrokeQuiet(st: State, t: TaskId)
    requires t in st.net.tasks
    ensures st.net.tasks[t].Replying? ==> Quiet(st, HungUp(st, t))
    ensures !st.net.tasks[t].Replying? ==> Quiet(st, Broke(st, t))
  {
  }

  lemma FinishWrites(st: State, t: TaskId, ok: bool, s: Socket)
    requires Inv(st, false)
    ensures var st' := Next(st, Finish(t, ok));
            && st'.led.queued == st.led.queued && st'.net.channels == st.net.channels && Addressed(st, Finish(t, ok), s) == []
            && (s in st'.led.sent <==> s in st.led.sent)
            && (s in st.led.sent ==> st'.led.sent[s] == st.led.sent[s] + Wrote(st, Finish(t, ok), s))
  {
    hide Base, Awake, FlushAll, Laden, Written, Replied, Broke, HungUp;
    if t in st.net.tasks {
      if !ok { BrokeQuiet(st, t); }
      match st.net.tasks[t]
      case Writing(_, _) => WrittenLaw(st, t, s);
      case Inline(_, _, flush) =>
        WrittenLaw(st, t, s);
        FlushQuiet(Written(st, t), flush);
      case Replying(_, flush) =>
        RepliedLaw(st, t, s);
        FlushQuiet(Replied(st, t), flush);
      case _ =>
    }
  }

  // ---- Runs ----------------------------------------------------------------------------------

  /** All frames addressed to a socket since its client was accepted, and all that
   *  were written to it; none if nobody was accepted there. */
  ghost function AllAddressed(events: seq<Event>, s: Socket): Option<seq<Frame>>
    decreases |events|
  {
    if events == [] then None
    else
      var before, e := events[..|events| - 1], Last(events);
      if e == Accept(s) && s !in After(before).led.place then Some([])
      else if AllAddressed(before, s).None? then None
      else Some(AllAddressed(before, s).value + Addressed(After(before), e, s))
  }

  ghost function AllWritten(events: seq<Event>, s: Socket): Option<seq<Frame>>
    decreases |events|
  {
    if events == [] then None
    else
      var before, e := events[..|events| - 1], Last(events);
      if e == Accept(s) && s !in After(before).led.place then Some([])
      else if AllWritten(before, s).None? then None
      else Some(AllWritten(before, s).value + Wrote(After(before), e, s))
  }

  ghost function Noted(m: map<Socket, seq<Frame>>, s: Socket): Option<seq<Frame>> {
    if s in m then Some(m[s]) else None
  }

  /** Over a run the ledger holds what the events address, and what they write. */
  lemma {:induction false} LedgerMeans(events: seq<Event>, s: Socket)
    ensures Noted(After(events).led.queued, s) == AllAddressed(events, s)
    ensures Noted(After(events).led.sent, s) == AllWritten(events, s)
    decreases |events|
  {
    hide Base, Awake, Next, Addressed, Wrote;
    if events != [] {
      var before, e := events[..|events| - 1], Last(events);
      LedgerMeans(before, s);
      if e == Accept(s) && s !in After(before).led.place { Accepted(After(before), s); } else { Appends(After(before), e, s); }
    }
  }

  lemma Accepted(st: State, s: Socket)
    requires Inv(st, false) && s !in st.led.place
    ensures Noted(Next(st, Accept(s)).led.queued, s) == Noted(Next(st, Accept(s)).led.sent, s) == Some([])
  {
    hide Base, Awake;
  }

  /** In every run, what was addressed to a healthy subscriber is what was written to
   *  it, what is in flight and what is buffered. */
  lemma AddressedIsConserved(events: seq<Event>, id: Id) returns (flying: seq<Frame>)
    requires id in After(events).net.conns && !After(events).net.conns[id].cancelled
    ensures var st := After(events);
            id in st.led.sockOf && var s := st.led.sockOf[id];
              && AllAddressed(events, s).Some? && AllWritten(events, s).Some?
              && multiset(AllAddressed(events, s).value) ==
                   multiset(AllWritten(events, s).value) + multiset(flying) + multiset(st.net.conns[id].io)
              && (st.net.conns[id].write.Some? ==> flying == [])
  {
    hide Base, Awake, Next, AllAddressed, AllWritten;
    var st := After(events);
    Conservation(events, id);
    LedgerMeans(events, st.led.sockOf[id]);
    if st.net.conns[id].write.Some? {
      flying := [];
    } else {
      var t :| HeldBy(st, id, t, st.led.sockOf[id]) && Books(st, st.led.sockOf[id], st.net.tasks[t].cw.buffer, st.net.conns[id].io, false);
      flying := st.net.tasks[t].cw.buffer;
    }
  }

  lemma {:induction false} SmoothRun(events: seq<Event>)
    requires forall i :: 0 <= i < |events| ==>
               && (events[i].Finish? ==> events[i].ok)
               && (events[i].Publish? ==>
                     match events[i].sender
                     case Plain(s) => s in After(events[..i]).net.normals
                     case Subscriber(id) => id in After(events[..i]).net.conns)
    ensures AllSmooth(events)
    decreases |events|
  {
    hide Base, Awake;
    if events != [] {
      var before := events[..|events| - 1];
      forall i | 0 <= i < |before| ensures events[i] == before[i] && events[..i] == before[..i] { }
      SmoothRun(before);
      var last := |events| - 1;
      assert events[last] == Last(events);
    }
  }

  /** After a run in which no write fails and every publisher is connected when it
   *  publishes, with all tasks done, every subscriber got exactly what was
   *  addressed to it. */
  lemma AddressedIsDelivered(events: seq<Event>, id: Id)
    requires After(events).net.tasks == map[] && id in After(events).net.conns
    requires forall i :: 0 <= i < |events| ==>
               && (events[i].Finish? ==> events[i].ok)
               && (events[i].Publish? ==>
                     match events[i].sender
                     case Plain(s) => s in After(events[..i]).net.normals
                     case Subscriber(id) => id in After(events[..i]).net.conns)
    ensures var l := After(events).led;
            id in l.sockOf && var s := l.sockOf[id];
              AllAddressed(events, s).Some? && AllWritten(events, s).Some?
              && multiset(AllAddressed(events, s).value) == multiset(AllWritten(events, s).value)
  {
    hide Base, Awake, Next, AllSmooth, AllAddressed, AllWritten;
    SmoothRun(events);
    EverythingDelivered(events, id);
    LedgerMeans(events, After(events).led.sockOf[id]);
  }

  lemma {:induction false} OrderlyRun(events: seq<Event>)
    requires forall i :: 0 <= i < |events| && events[i].Start? ==>
               var net, t := After(events[..i]).net, events[i].task;
               t in net.tasks && net.tasks[t].Spawned? && net.tasks[t].id in net.conns ==>
                 net.tasks[t].cw.buffer + net.conns[net.tasks[t].id].io == net.conns[net.tasks[t].id].io + net.tasks[t].cw.buffer
    ensures NeverOvertakes(events)
    decreases |events|
  {
    hide Base, Awake;
    if events != [] {
      var before := events[..|events| - 1];
      forall i | 0 <= i < |before| ensures events[i] == before[i] && events[..i] == before[..i] { }
      OrderlyRun(before);
      var last := |events| - 1;
      assert events[last] == Last(events);
    }
  }

  /** As long as no write task starts with two buffers whose order matters, what was
   *  written to a healthy subscriber is a prefix of what was addressed to it. */
  lemma AddressedInOrder(events: seq<Event>, id: Id)
    requires id in After(events).net.conns && !After(events).net.conns[id].cancelled
    requires forall i :: 0 <= i < |events| && events[i].Start? ==>
               var net, t := After(events[..i]).net, events[i].task;
               t in net.tasks && net.tasks[t].Spawned? && net.tasks[t].id in net.conns ==>
                 net.tasks[t].cw.buffer + net.conns[net.tasks[t].id].io == net.conns[net.tasks[t].id].io + net.tasks[t].cw.buffer
    ensures var l := After(events).led;
            id in l.sockOf && var s := l.sockOf[id];
              AllAddressed(events, s).Some? && AllWritten(events, s).Some?
              && AllWritten(events, s).value <= AllAddressed(events, s).value
  {
    hide Base, Awake, Next, NeverOvertakes, AllAddressed, AllWritten;
    OrderlyRun(events);
    InOrderDelivery(events, id);
    LedgerMeans(events, After(events).led.sockOf[id]);
  }

  // ---- Who is subscribed ---------------------------------------------------------------------

  /** The subscriptions to a channel, read off the events: one for each time a session
   *  joined it since it last left it or was cleaned up. */
  ghost function Members(events: seq<Event>, ch: Channel): multiset<Id>
    decreases |events|
  {
    if events == [] then multiset{}
    else
      var before := events[..|events| - 1];
      var was, net := Members(before, ch), After(before).net;
      match Last(events)
      case Subscribe(s, c) => if c == ch && s in net.normals then was + multiset{net.nextId} else was
      case SubscribeMore(id, c) => if c == ch then was + multiset{id} else was
      case Unsubscribe(id, removed) => if ch in removed then was[id := 0] else was
      case Cleanup(id) => was[id := 0]
      case _ => was
  }

  lemma {:induction false} ForgetLeaves(ids: seq<Id>, id: Id)
    ensures multiset(Forget(ids, id)) == multiset(ids)[id := 0]
    decreases |ids|
  {
    if ids != [] {
      ForgetLeaves(ids[1..], id);
      assert ids == [ids[0]] + ids[1..];
      assert multiset(ids) == multiset{ids[0]} + multiset(ids[1..]);
    }
  }

  lemma WithdrawLeaves(channels: map<Channel, seq<Id>>, chosen: set<Channel>, id: Id, ch: Channel)
    ensures multiset(Listening(Withdraw(channels, chosen, id), ch)) ==
              if ch in chosen then multiset(Listening(channels, ch))[id := 0] else multiset(Listening(channels, ch))
  {
    ForgetLeaves(Listening(channels, ch), id);
    if ch in channels && ch in chosen && Forget(channels[ch], id) == [] { assert multiset(Forget(channels[ch], id)) == multiset{}; }
    if ch !in channels { assert multiset(Listening(channels, ch)) == multiset{}; }
  }

  lemma EnrolAdds(channels: map<Channel, seq<Id>>, c: Channel, id: Id, ch: Channel)
    ensures multiset(Listening(Enrol(channels, c, id), ch)) == multiset(Listening(channels, ch)) + if c == ch then multiset{id} else multiset{}
  {
  }

  lemma ChannelsStep(st: State, e: Event)
    requires Inv(st, false)
    ensures Next(st, e).net.channels ==
              match e
              case Subscribe(s, c) => if s in st.net.normals then Enrol(st.net.channels, c, st.net.nextId) else st.net.channels
              case SubscribeMore(id, c) => Enrol(st.net.channels, c, id)
              case Unsubscribe(id, removed) => Withdraw(st.net.channels, Elems(removed), id)
              case Cleanup(id) => Withdraw(st.net.channels, st.net.channels.Keys, id)
              case _ => st.net.channels
  {
    hide Base, Awake, SendPub, Deliver, QueueAll, Enrol, Withdraw, Message, Joined, Present, Listening, Begin, Counted, Close;
    match e
    case Subscribe(s, ch) =>
      if s in st.net.normals {
        SendPubChannels(WithChannels(Join(st, s), Enrol(st.net.channels, ch, st.net.nextId)), st.net.nextId, Joined(ch, 1), []);
      }
    case SubscribeMore(id, ch) =>
      var st1 := Counted(WithChannels(st, Enrol(st.net.channels, ch, id)), id, CountOf(st.net.conns, id) + 1);
      assert st1.net.channels == Enrol(st.net.channels, ch, id) by { CountedChannels(WithChannels(st, Enrol(st.net.channels, ch, id)), id, CountOf(st.net.conns, id) + 1); }
      SendPubChannels(st1, id, Joined(ch, CountOf(st1.net.conns, id)), []);
    case Publish(args, sender) =>
      if |args| < 2 {
        DeliverChannels(st, sender, WrongArguments(), []);
      } else {
        var subs, m := Listening(st.net.channels, args[0]), Message(args[0], args[1]);
        QueueAllOk(st, subs, m, {}, false);
        DeliverChannels(QueueAll(st, subs, m), sender, Integer(Signed64(|subs|)), Present(st.net.conns.Keys, subs));
      }
    case Send(sender, f) => DeliverChannels(st, sender, f, []);
    case Finish(t, ok) => FinishWrites(st, t, ok, 0);
    case Unsubscribe(id, removed) => UnsubscribedChannels(st, id, removed);
    case Cleanup(id) => CloseQuiet(WithChannels(st, Withdraw(st.net.channels, st.net.channels.Keys, id)), id);
    case Start(t) => if t in st.net.tasks && st.net.tasks[t].Spawned? { BeginQuiet(st, t); }
    case Accept(s) =>
  }

  lemma CountedChannels(st: State, id: Id, n: nat)
    ensures Counted(st, id, n).net.channels == st.net.channels
  {
  }

  lemma UnsubscribedChannels(st: State, id: Id, removed: seq<Channel>)
    ensures Unsubscribed(st, id, removed).net.channels == Withdraw(st.net.channels, Elems(removed), id)
  {
    hide Withdraw;
  }

  lemma SendPubChannels(st: State, id: Id, f: Frame, flush: seq<Id>)
    ensures SendPub(st, id, f, flush).net.channels == st.net.channels
  {
    hide FlushAll;
    if id in st.net.conns { FlushQuiet(Queue(st, id, f), flush); }
  }

  lemma DeliverChannels(st: State, sender: Sender, f: Frame, flush: seq<Id>)
    ensures Deliver(st, sender, f, flush).net.channels == st.net.channels
  {
    hide SendPub;
    if sender.Subscriber? { SendPubChannels(st, sender.id, f, flush); }
  }

  /** The channel table over a run: a session is listed for a channel exactly as often
   *  as it joined it since it last left it or was cleaned up. */
  lemma {:induction false} TableMeans(events: seq<Event>, ch: Channel)
    ensures multiset(Subscribers(After(events), ch)) == Members(events, ch)
    decreases |events|
  {
    hide Base, Awake, Next, Enrol, Withdraw;
    if events == [] {
      assert multiset(Subscribers(After([]), ch)) == multiset{};
    } else {
      var before, e := events[..|events| - 1], Last(events);
      var st := After(before);
      TableMeans(before, ch);
      ChannelsStep(st, e);
      match e
      case Subscribe(s, c) => EnrolAdds(st.net.channels, c, st.net.nextId, ch);
      case SubscribeMore(id, c) => EnrolAdds(st.net.channels, c, id, ch);
      case Unsubscribe(id, removed) => WithdrawLeaves(st.net.channels, Elems(removed), id, ch);
      case Cleanup(id) => CleanupLeaves(st.net.channels, id, ch);
      case _ =>
    }
  }

  lemma CleanupLeaves(channels: map<Channel, seq<Id>>, id: Id, ch: Channel)
    ensures multiset(Listening(Withdraw(channels, channels.Keys, id), ch)) == multiset(Listening(channels, ch))[id := 0]
  {
    hide Withdraw;
    WithdrawLeaves(channels, channels.Keys, id, ch);
    if ch !in channels { assert multiset(Listening(channels, ch)) == multiset{}; }
  }

  /** Leaving takes the session off the channels it leaves, and nobody else. */
  lemma LeavingMeans(st: State, id: Id, removed: seq<Channel>)
    requires Inv(st, false)
    ensures forall ch :: multiset(Subscribers(Next(st, Unsubscribe(id, removed)), ch)) ==
              if ch in removed then multiset(Subscribers(st, ch))[id := 0] else multiset(Subscribers(st, ch))
    ensures forall ch :: multiset(Subscribers(Next(st, Cleanup(id)), ch)) == multiset(Subscribers(st, ch))[id := 0]
  {
    hide Base, Awake, Next, Withdraw;
    ChannelsStep(st, Unsubscribe(id, removed));
    ChannelsStep(st, Cleanup(id));
    forall ch
      ensures multiset(Subscribers(Next(st, Unsubscribe(id, removed)), ch)) ==
                if ch in removed then multiset(Subscribers(st, ch))[id := 0] else multiset(Subscribers(st, ch))
    {
      WithdrawLeaves(st.net.channels, Elems(removed), id, ch);
    }
    forall ch ensures multiset(Subscribers(Next(st, Cleanup(id)), ch)) == multiset(Subscribers(st, ch))[id := 0] {
      CleanupLeaves(st.net.channels, id, ch);
    }
  }

  /** A published message reaches every connected session once for each of its
   *  subscriptions, and the reply counts all subscriptions. */
  lemma PublishReaches(events: seq<Event>, args: seq<Bytes>, sender: Sender, s: Socket)
    requires |args| >= 2
    ensures var st, members := After(events), Members(events, args[0]);
            var message := Array([BulkString(MESSAGE), BulkString(args[0]), BulkString(args[1])]);
            Noted(After(events + [Publish(args, sender)]).led.queued, s) ==
              if s !in st.led.queued then None
              else Some(st.led.queued[s]
                        + (if At(st, s).Some? then seq(members[At(st, s).value], _ => message) else [])
                        + (if Speaks(st, sender, s) then [Integer(Word(|members|))] else []))
  {
    hide Base, Awake, Next, At, Speaks;
    var st := After(events);
    AfterStep(events, Publish(args, sender));
    Appends(st, Publish(args, sender), s);
    TableMeans(events, args[0]);
    var subs := Subscribers(st, args[0]);
    assert |multiset(subs)| == |subs|;
    if s in st.led.queued {
      var message := Array([BulkString(MESSAGE), BulkString(args[0]), BulkString(args[1])]);
      Group(st.led.queued[s], if At(st, s).Some? then seq(Members(events, args[0])[At(st, s).value], _ => message) else [],
            if Speaks(st, sender, s) then [Integer(Word(|subs|))] else []);
    }
  }

  // ---- Joining, counting, leaving ------------------------------------------------------------

  /** The first subscription of a session makes it a connection of its own, under an
   *  id never given before; it is no longer in normal mode. */
  lemma Joins(st: State, s: Socket, ch: Channel)
    requires Inv(st, false) && s in st.net.normals
    ensures var st', id := Next(st, Subscribe(s, ch)), st.net.nextId;
            && id !in st.net.conns && id in st'.net.conns && At(st', s) == Some(id) && st'.net.conns[id].count == 1
            && s !in st'.net.normals && st'.net.nextId == id + 1
  {
    hide Base, Awake, Joined, Enrol;
    Unused(st, false);
  }

  /** Leaving channels lowers the count, not below zero; with none left and the
   *  writer home the session is in normal mode again, with its unsent frames. */
  lemma Leaves(st: State, id: Id, removed: seq<Channel>)
    requires Inv(st, false) && id in st.net.conns
    ensures var st', c := Next(st, Unsubscribe(id, removed)), st.net.conns[id];
            if c.count <= |removed| && c.write.Some? then
              st'.net.conns == st.net.conns - {id} && st'.net.normals == st.net.normals[c.write.value := c.io]
            else
              && st'.net.conns == st.net.conns[id := c.(count := if c.count <= |removed| then 0 else c.count - |removed|)]
              && st'.net.normals == st.net.normals
  {
    hide Base, Awake, Withdraw;
    var n := if st.net.conns[id].count <= |removed| then 0 else st.net.conns[id].count - |removed|;
    assert st.net.conns[id := st.net.conns[id].(count := n)] - {id} == st.net.conns - {id};
  }

  /** A connection that is cleaned up is gone, and nobody else is. */
  lemma CleansUp(st: State, id: Id)
    requires Inv(st, false)
    ensures var st' := Next(st, Cleanup(id));
            st'.net.conns == st.net.conns - {id} && st'.net.normals == st.net.normals && st'.net.tasks == st.net.tasks
  {
    hide Base, Awake, Withdraw;
  }

  /** The replies to an unsubscription count down to what is left. */
  lemma FarewellMeans(removed: seq<Channel>, left: nat, i: nat)
    requires i < |removed|
    ensures |Farewells(removed, left)| == |removed|
    ensures var after := |removed| - 1 - i;
            Farewells(removed, left)[i] ==
              Array([BulkString(UNSUBSCRIBE), BulkString(removed[i]), Integer(Word(if left < after then 0 else left - after))])
  {
    hide Text;
    Words();
  }

  /** The channels that a session believes it has joined, read off the events. */
  ghost function Believed(events: seq<Event>, id: Id): nat
    decreases |events|
  {
    if events == [] then 0
    else
      var before := events[..|events| - 1];
      var was := Believed(before, id);
      match Last(events)
      case Subscribe(_, _) => if id in After(before).net.conns then was else 1
      case SubscribeMore(i, _) => if i == id then was + 1 else was
      case Unsubscribe(i, removed) => if i != id then was else if was <= |removed| then 0 else was - |removed|
      case _ => was
  }

  ghost predicate SameCounts(st: State, st': State) {
    st'.net.conns.Keys <= st.net.conns.Keys
    && forall id :: id in st'.net.conns ==> st'.net.conns[id].count == st.net.conns[id].count
  }

  lemma {:induction false} FlushCounts(st: State, ids: seq<Id>)
    ensures SameCounts(st, FlushAll(st, ids))
    decreases |ids|
  {
    if ids != [] { FlushCounts(Trigger(st, ids[0]), ids[1..]); }
  }

  lemma {:induction false} QueueCounts(st: State, ids: seq<Id>, f: Frame)
    ensures SameCounts(st, QueueAll(st, ids, f))
    decreases |ids|
  {
    if ids != [] { QueueCounts(Queue(st, ids[0], f), ids[1..], f); }
  }

  lemma SendPubCounts(st: State, id: Id, f: Frame, flush: seq<Id>)
    ensures SameCounts(st, SendPub(st, id, f, flush))
  {
    hide FlushAll;
    if id in st.net.conns { FlushCounts(Queue(st, id, f), flush); }
  }

  lemma DeliverCounts(st: State, sender: Sender, f: Frame, flush: seq<Id>)
    ensures SameCounts(st, Deliver(st, sender, f, flush))
  {
    hide SendPub;
    if sender.Subscriber? { SendPubCounts(st, sender.id, f, flush); }
  }

  lemma WrittenCounts(st: State, t: TaskId)
    requires Base(st, false) && t in st.net.tasks && !st.net.tasks[t].Replying?
    ensures SameCounts(st, Written(st, t))
  {
    hide ConnOk, TaskOk, RestOk;
  }

  lemma FinishCounts(st: State, t: TaskId, ok: bool)
    requires Inv(st, false)
    ensures SameCounts(st, Next(st, Finish(t, ok)))
  {
    hide Base, Awake, FlushAll, Written, Laden;
    if t in st.net.tasks {
      match st.net.tasks[t]
      case Writing(_, _) => WrittenCounts(st, t);
      case Inline(_, _, flush) =>
        WrittenCounts(st, t);
        FlushCounts(Written(st, t), flush);
      case Replying(_, flush) => FlushCounts(Replied(st, t), flush);
      case _ =>
    }
  }

  /** What an event does to the count of a session. */
  lemma CountStep(st: State, e: Event, id: Id)
    requires Inv(st, false) && id in Next(st, e).net.conns
    ensures var n := Next(st, e).net.conns[id].count;
            if id !in st.net.conns then e.Subscribe? && n == 1
            else n == match e
                      case SubscribeMore(i, _) => st.net.conns[id].count + if i == id then 1 else 0
                      case Unsubscribe(i, removed) =>
                        if i != id then st.net.conns[id].count
                        else if st.net.conns[id].count <= |removed| then 0 else st.net.conns[id].count - |removed|
                      case _ => st.net.conns[id].count
  {
    hide Base, Awake, SendPub, Deliver, QueueAll, Enrol, Withdraw, Message, Joined, Present, Listening, Unsubscribed, Close;
    match e
    case Subscribe(s, ch) =>
      if s in st.net.normals {
        SendPubCounts(WithChannels(Join(st, s), Enrol(st.net.channels, ch, st.net.nextId)), st.net.nextId, Joined(ch, 1), []);
        Unused(st, false);
      }
    case SubscribeMore(i, ch) =>
      var st1 := Counted(WithChannels(st, Enrol(st.net.channels, ch, i)), i, CountOf(st.net.conns, i) + 1);
      SendPubCounts(st1, i, Joined(ch, CountOf(st1.net.conns, i)), []);
    case Publish(args, sender) =>
      if |args| < 2 {
        DeliverCounts(st, sender, WrongArguments(), []);
      } else {
        var subs, m := Listening(st.net.channels, args[0]), Message(args[0], args[1]);
        QueueCounts(st, subs, m);
        DeliverCounts(QueueAll(st, subs, m), sender, Integer(Signed64(|subs|)), Present(st.net.conns.Keys, subs));
      }
    case Send(sender, f) => DeliverCounts(st, sender, f, []);
    case Finish(t, ok) => FinishCounts(st, t, ok);
    case Unsubscribe(i, removed) => if i in st.net.conns { Leaves(st, i, removed); } else { NobodyLeaves(st, i, removed); }
    case Cleanup(i) => CleansUp(st, i);
    case _ =>
  }

  lemma NobodyLeaves(st: State, i: Id, removed: seq<Channel>)
    requires Inv(st, false) && i !in st.net.conns
    ensures Next(st, Unsubscribe(i, removed)).net.conns == st.net.conns
  {
    hide Base, Awake, Withdraw;
  }

  /** The count kept with a connection is the one that the events give. */
  lemma {:induction false} CountMeans(events: seq<Event>, id: Id)
    requires id in After(events).net.conns
    ensures After(events).net.conns[id].count == Believed(events, id)
    decreases |events|
  {
    hide Base, Awake, Next;
    var before, e := events[..|events| - 1], Last(events);
    CountStep(After(before), e, id);
    if id in After(before).net.conns { CountMeans(before, id); }
  }
}
