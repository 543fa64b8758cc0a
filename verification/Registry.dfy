/** The shared registry as a mutable object. Each method is what one task does
 *  between two awaits, and is proved to be the corresponding step of the
 *  transition system. */
module Registry {
  import opened Basics
  import opened Resp
  import opened PubSub
  import opened PubSubLaws

  lemma OneMore(st: State, ids: seq<Id>, k: nat, f: Frame)
    requires k < |ids|
    ensures QueueAll(st, ids[k..], f) == QueueAll(Queue(st, ids[k], f), ids[k + 1..], f)
    ensures Present(st.net.conns.Keys, ids[k..]) ==
              (if ids[k] in st.net.conns then [ids[k]] else []) + Present(st.net.conns.Keys, ids[k + 1..])
    ensures Queue(st, ids[k], f).net.conns.Keys == st.net.conns.Keys
  {
    assert ids[k..][1..] == ids[k + 1..];
  }

  lemma NobodyLeft(st: State, ids: seq<Id>, k: nat, f: Frame)
    requires k == |ids|
    ensures QueueAll(st, ids[k..], f) == st && Present(st.net.conns.Keys, ids[k..]) == []
    ensures QueueAll(st, [], f) == st && Present(st.net.conns.Keys, []) == []
  {
  }

  /** What appending a message for the subscribers does to each buffer. */
  lemma Published(st: State, st': State, subs: seq<Id>, ch: Channel, text: Bytes, flush: seq<Id>)
    requires st' == QueueAll(st, subs, Message(ch, text)) && flush == Present(st.net.conns.Keys, subs)
    ensures Signed64(|subs|) == Word(|subs|)
    ensures st'.net.conns.Keys == st.net.conns.Keys && forall id :: id in flush <==> id in subs && id in st.net.conns
    ensures var message := Array([BulkString(MESSAGE), BulkString(ch), BulkString(text)]);
            forall id :: id in st.net.conns ==>
              st'.net.conns[id] == st.net.conns[id].(io := st.net.conns[id].io + seq(multiset(subs)[id], _ => message))
  {
    hide QueueAll, Message, Present, Word, Signed64;
    Spelled(ch, text, |subs|);
    QueueStrandsNone(st, subs, Message(ch, text));
    forall id | id in st.net.conns ensures
      st'.net.conns[id] == st.net.conns[id].(io := st.net.conns[id].io + seq(multiset(subs)[id], _ => Array([BulkString(MESSAGE), BulkString(ch), BulkString(text)])))
    {
      QueueAllBuffers(st, subs, Message(ch, text), id);
    }
    forall id ensures id in flush <==> id in subs && id in st.net.conns { PresentAmong(st.net.conns.Keys, subs, id); }
  }

  lemma EnrolMeans(channels: map<Channel, seq<Id>>, ch: Channel, id: Id)
    ensures Enrol(channels, ch, id) == channels[ch := (if ch in channels then channels[ch] else []) + [id]]
  {
  }

  lemma SubscribeStep(st: State, s: Socket, ch: Channel)
    requires Base(st, false) && s in st.net.normals
    ensures Next(st, Event.Subscribe(s, ch)) ==
              SendPub(WithChannels(Join(st, s), Enrol(st.net.channels, ch, st.net.nextId)), st.net.nextId, Joined(ch, 1), [])
  {
    hide Base, SendPub, Joined, Enrol, Join;
  }

  class SubRegistry {
    var conns: map<Id, Conn>
    var channels: map<Channel, seq<Id>>
    var tasks: map<TaskId, Task>
    var normals: map<Socket, seq<Frame>>
    var nextId: Id
    var nextTask: TaskId
    ghost var led: Ledger

    ghost function View(): State reads this {
      State(Net(conns, channels, tasks, normals, nextId, nextTask), led)
    }

    ghost predicate Valid() reads this {
      Inv(View(), false)
    }

    constructor ()
      ensures Valid() && View() == Empty
    {
      conns, channels, tasks, normals, nextId, nextTask := map[], map[], map[], map[], 0, 0;
      led := Empty.led;
      new;
      EmptyOk();
    }

    /** Append the message for every subscriber that still exists; the reply
     *  counts the subscriptions. */
    method PublishEncode(args: seq<Bytes>) returns (reply: Frame, flush: seq<Id>)
      modifies this
      ensures |args| < 2 ==> reply == WrongArguments() && flush == [] && View() == old(View())
      ensures |args| >= 2 ==>
                var subs := Listening(old(channels), args[0]);
                && View() == QueueAll(old(View()), subs, Message(args[0], args[1]))
                && reply == Integer(Signed64(|subs|)) && flush == Present(old(conns).Keys, subs)
      ensures |args| >= 2 ==>
                var subs := if args[0] in old(channels) then old(channels)[args[0]] else [];
                var message := Array([BulkString(MESSAGE), BulkString(args[0]), BulkString(args[1])]);
                && conns.Keys == old(conns).Keys && reply == Integer(Word(|subs|))
                && (forall id :: id in conns ==> conns[id] == old(conns)[id].(io := old(conns)[id].io + seq(multiset(subs)[id], _ => message)))
                && (forall id :: id in flush <==> id in subs && id in conns)
    {
      hide QueueAll, Present, Message, WrongArguments, Signed64, Word;
      flush := [];
      if |args| < 2 {
        return WrongArguments(), [];
      }
      var ch, message := args[0], Message(args[0], args[1]);
      if ch !in channels {
        NobodyLeft(View(), [], 0, message);
        Published(View(), View(), [], args[0], args[1], []);
        assert Word(0) == 0 by { SmallWord(0); }
        return Integer(0), [];
      }
      var subs, cs := channels[ch], conns;
      ghost var st := View();
      assert subs[0..] == subs;
      for k := 0 to |subs|
        invariant unchanged(this)
        invariant QueueAll(View(), subs, message) == QueueAll(st, subs[k..], message)
        invariant st.net == View().net.(conns := cs) && cs.Keys == conns.Keys
        invariant Present(conns.Keys, subs) == flush + Present(conns.Keys, subs[k..])
      {
        var id := subs[k];
        OneMore(st, subs, k, message);
        if id in cs {
          cs := cs[id := cs[id].(io := cs[id].io + [message])];
          flush := flush + [id];
        }
        st := Queue(st, id, message);
      }
      NobodyLeft(st, subs, |subs|, message);
      reply := Integer(Signed64(|subs|));
      conns, led := cs, st.led;
      Published(old(View()), View(), subs, args[0], args[1], flush);
    }

    method TriggerWrite(id: Id)
      modifies this
      ensures View() == Trigger(old(View()), id)
      ensures if id in old(conns) && old(conns[id].write.Some?) && old(conns[id].swap.Some?) then
                var c := old(conns)[id];
                && tasks == old(tasks)[old(nextTask) := Spawned(id, Writer(c.write.value, c.io))]
                && conns == old(conns)[id := c.(write := None, io := c.swap.value, swap := None)]
              else tasks == old(tasks) && conns == old(conns)
    {
      if id !in conns {
        return;
      }
      ghost var st := Trigger(View(), id);
      var (c, cw) := GetConnWriter(conns[id]);
      if cw.None? {
        return;
      }
      conns, tasks, nextTask, led := conns[id := c], tasks[nextTask := Spawned(id, cw.value)], nextTask + 1, st.led;
    }

    /** The publisher's loop after its reply. */
    method Flush(ids: seq<Id>)
      modifies this
      ensures View() == FlushAll(old(View()), ids)
    {
      for k := 0 to |ids|
        invariant FlushAll(old(View()), ids) == FlushAll(View(), ids[k..])
      {
        assert ids[k..][1..] == ids[k + 1..];
        TriggerWrite(ids[k]);
      }
    }

    /** Send a frame to a subscriber, up to the first await. */
    method HandlePubsubWrite(id: Id, frame: Frame, flush: seq<Id>)
      modifies this
      ensures View() == SendPub(old(View()), id, frame, flush)
      ensures id in old(conns) && old(conns[id].write.Some?) && old(conns[id].swap.Some?) ==>
                var c := old(conns)[id];
                && tasks == old(tasks)[old(nextTask) := Inline(id, Writer(c.write.value, c.io + [frame]), flush)]
                && conns == old(conns)[id := c.(write := None, io := c.swap.value, swap := None)]
      ensures id in old(conns) && (old(conns[id].write.None?) || old(conns[id].swap.None?)) ==>
                id in conns && conns[id] == old(conns)[id].(io := old(conns)[id].io + [frame])
    {
      if id !in conns {
        led := Strand(View(), flush).led;
        return;
      }
      ghost var st := Queue(View(), id, frame);
      var filled := conns[id].(io := conns[id].io + [frame]);
      conns, led := conns[id := filled], st.led;
      var (c, cw) := GetConnWriter(filled);
      if cw.None? {
        FlushSpares(View(), flush, id);
        Flush(flush);
      } else {
        ghost var lent := Lend(st, id, c, Inline(id, cw.value, flush));
        conns, tasks, nextTask, led := conns[id := c], tasks[nextTask := Inline(id, cw.value, flush)], nextTask + 1, lent.led;
      }
    }

    /** Send through the session's current mode. */
    method SendFrame(sender: Sender, frame: Frame, flush: seq<Id>)
      modifies this
      ensures View() == Deliver(old(View()), sender, frame, flush)
      ensures sender.Plain? && sender.sock in old(normals) ==>
                && tasks == old(tasks)[old(nextTask) := Replying(Writer(sender.sock, old(normals)[sender.sock] + [frame]), flush)]
                && normals == old(normals) - {sender.sock}
    {
      match sender
      case Subscriber(id) => HandlePubsubWrite(id, frame, flush);
      case Plain(s) =>
        if s !in normals {
          led := Strand(View(), flush).led;
          return;
        }
        ghost var st := StartReply(View(), s, frame, flush);
        var task := Replying(Writer(s, normals[s] + [frame]), flush);
        normals, tasks, nextTask, led := normals - {s}, tasks[nextTask := task], nextTask + 1, st.led;
    }

    /** A new client socket, in normal mode with nothing buffered. */
    method Accept(s: Socket)
      requires Valid() && s !in led.place
      modifies this
      ensures Valid() && View() == Next(old(View()), Event.Accept(s))
    {
      hide Base, Awake;
      NextOk(View(), Event.Accept(s), false);
      ghost var st := Connect(View(), s);
      normals, led := normals[s := []], st.led;
    }

    method Publish(args: seq<Bytes>, sender: Sender)
      requires Valid()
      modifies this
      ensures Valid() && View() == Next(old(View()), Event.Publish(args, sender))
      ensures forall s :: s in old(led.queued) ==>
                s in led.queued && led.queued[s] == old(led.queued)[s] + Addressed(old(View()), Event.Publish(args, sender), s)
    {
      hide Base, Awake, QueueAll, Deliver, Message, WrongArguments;
      NextOk(View(), Event.Publish(args, sender), false);
      AppendsAll(View(), Event.Publish(args, sender));
      var reply, flush := PublishEncode(args);
      SendFrame(sender, reply, flush);
    }

    /** Any other reply. */
    method Send(sender: Sender, frame: Frame)
      requires Valid()
      modifies this
      ensures Valid() && View() == Next(old(View()), Event.Send(sender, frame))
      ensures forall s :: s in old(led.queued) ==>
                s in led.queued && led.queued[s] == old(led.queued)[s] + Addressed(old(View()), Event.Send(sender, frame), s)
    {
      hide Base, Awake, Deliver;
      NextOk(View(), Event.Send(sender, frame), false);
      AppendsAll(View(), Event.Send(sender, frame));
      SendFrame(sender, frame, []);
    }

    /** The first channel of a session in normal mode. */
    method Subscribe(s: Socket, ch: Channel)
      requires Valid() && s in normals
      modifies this
      ensures Valid() && View() == Next(old(View()), Event.Subscribe(s, ch))
      ensures forall r :: r in old(led.queued) ==>
                r in led.queued && led.queued[r] == old(led.queued)[r] + Addressed(old(View()), Event.Subscribe(s, ch), r)
      ensures channels == old(channels)[ch := (if ch in old(channels) then old(channels)[ch] else []) + [old(nextId)]]
    {
      hide Base, Awake, SendPub, Joined, Enrol, Next;
      SubscribeStep(View(), s, ch);
      NextOk(View(), Event.Subscribe(s, ch), false);
      AppendsAll(View(), Event.Subscribe(s, ch));
      ChannelsStep(View(), Event.Subscribe(s, ch));
      EnrolMeans(channels, ch, nextId);
      ghost var st := Join(View(), s);
      var id := nextId;
      conns, normals, nextId, led := conns[id := Conn(Some(s), normals[s], Some([]), false, 1)], normals - {s}, id + 1, st.led;
      assert View() == st;
      channels := Enrol(channels, ch, id);
      HandlePubsubWrite(id, Joined(ch, 1), []);
    }

    /** A further channel of a session that is a subscriber. */
    method SubscribeMore(id: Id, ch: Channel)
      requires Valid()
      modifies this
      ensures Valid() && View() == Next(old(View()), Event.SubscribeMore(id, ch))
      ensures forall s :: s in old(led.queued) ==>
                s in led.queued && led.queued[s] == old(led.queued)[s] + Addressed(old(View()), Event.SubscribeMore(id, ch), s)
      ensures channels == old(channels)[ch := (if ch in old(channels) then old(channels)[ch] else []) + [id]]
    {
      hide Base, Awake, SendPub, Joined, Enrol;
      NextOk(View(), Event.SubscribeMore(id, ch), false);
      AppendsAll(View(), Event.SubscribeMore(id, ch));
      ChannelsStep(View(), Event.SubscribeMore(id, ch));
      EnrolMeans(channels, ch, id);
      if id in conns {
        conns := conns[id := conns[id].(count := conns[id].count + 1)];
      }
      channels := Enrol(channels, ch, id);
      HandlePubsubWrite(id, Joined(ch, CountOf(conns, id)), []);
    }

    /** Leave the named channels, or all of them in the table's order; with none
     *  left and the writer home, back to normal mode. The replies are sent
     *  afterwards, one by one. */
    method Unsubscribe(id: Id, args: seq<Channel>, listing: seq<Channel>) returns (replies: seq<Frame>)
      requires Valid()
      requires NoDup(listing) && forall ch :: ch in listing <==> ch in channels && id in channels[ch]
      modifies this
      ensures Valid() && View() == Next(old(View()), Event.Unsubscribe(id, if args == [] then listing else args))
      ensures var removed := if args == [] then listing else args;
              && replies == Farewells(removed, Minus(CountOf(old(conns), id), |removed|))
              && forall ch :: multiset(Subscribers(View(), ch)) ==
                   if ch in removed then multiset(Subscribers(old(View()), ch))[id := 0] else multiset(Subscribers(old(View()), ch))
    {
      hide Base, Awake, Withdraw;
      var removed := if args == [] then listing else args;
      NextOk(View(), Event.Unsubscribe(id, removed), false);
      LeavingMeans(View(), id, removed);
      var remaining := Minus(CountOf(conns, id), |removed|);
      channels := Withdraw(channels, Elems(removed), id);
      replies := Farewells(removed, remaining);
      conns := Recount(conns, id, remaining);
      if remaining == 0 && id in conns && conns[id].write.Some? {
        ghost var st := Leave(View(), id);
        conns, normals, led := conns - {id}, normals[conns[id].write.value := conns[id].io], st.led;
      }
    }

    method Cleanup(id: Id)
      requires Valid()
      modifies this
      ensures Valid() && View() == Next(old(View()), Event.Cleanup(id))
      ensures conns == old(conns) - {id} && forall ch :: multiset(Subscribers(View(), ch)) == multiset(Subscribers(old(View()), ch))[id := 0]
    {
      hide Base, Awake, Withdraw;
      NextOk(View(), Event.Cleanup(id), false);
      LeavingMeans(View(), id, []);
      channels := Withdraw(channels, channels.Keys, id);
      ghost var st := Close(View(), id);
      conns, led := conns - {id}, st.led;
    }

    /** A write task runs up to its write. */
    method StartTask(t: TaskId)
      requires Valid() && t in tasks && tasks[t].Spawned?
      modifies this
      ensures Valid() && View() == Next(old(View()), Event.Start(t))
      ensures var task := old(tasks)[t];
              if task.id in old(conns) then
                var c := old(conns)[task.id];
                tasks == old(tasks)[t := Writing(task.id, task.cw.(buffer := c.io))] && conns == old(conns)[task.id := c.(io := task.cw.buffer)]
              else tasks == old(tasks) - {t} && conns == old(conns)
    {
      hide Base, Awake;
      NextOk(View(), Event.Start(t), false);
      var task := tasks[t];
      if task.id !in conns {
        tasks := tasks - {t};
        return;
      }
      var io := conns[task.id].io;
      conns := conns[task.id := conns[task.id].(io := task.cw.buffer)];
      tasks := tasks[t := Writing(task.id, task.cw.(buffer := io))];
    }

    /** A write completed: spawn again or give the writer back. */
    method WriteDone(t: TaskId)
      requires Base(View(), false) && t in tasks && !tasks[t].Replying?
      modifies this
      ensures View() == Written(old(View()), t)
      ensures var task := old(tasks)[t];
              if task.id !in old(conns) then tasks == old(tasks) - {t} && conns == old(conns)
              else if old(conns)[task.id].io != [] then
                tasks == (old(tasks) - {t})[old(nextTask) := Spawned(task.id, Writer(task.cw.sock, []))] && conns == old(conns)
              else
                && tasks == old(tasks) - {t}
                && conns == old(conns)[task.id := old(conns)[task.id].(write := Some(task.cw.sock), swap := Some([]))]
    {
      ghost var st := Written(View(), t);
      var task := tasks[t];
      if task.id !in conns {
        tasks := tasks - {t};
        return;
      }
      assert ConnOk(View(), task.id, false) && TaskOk(View(), t, false);
      var cw := Writer(task.cw.sock, []);
      if conns[task.id].io != [] {
        tasks, nextTask, led := (tasks - {t})[nextTask := Spawned(task.id, cw)], nextTask + 1, st.led;
      } else {
        conns, tasks, led := conns[task.id := Restitute(conns[task.id], cw)], tasks - {t}, st.led;
      }
    }

    /** A suspended write ends well; sessions then run their flush loop. */
    method FinishOk(t: TaskId)
      requires Valid() && t in tasks && !tasks[t].Spawned?
      modifies this
      ensures Valid() && View() == Next(old(View()), Event.Finish(t, true))
    {
      hide Base, Awake, Written, FlushAll;
      NextOk(View(), Event.Finish(t, true), false);
      var task := tasks[t];
      match task
      case Writing(_, _) => WriteDone(t);
      case Inline(_, _, flush) =>
        WriteDone(t);
        Flush(flush);
      case Replying(cw, flush) =>
        ghost var st := Replied(View(), t);
        tasks, normals, led := tasks - {t}, normals[cw.sock := []], st.led;
        Flush(flush);
    }

    /** A suspended write fails. */
    method FinishFailed(t: TaskId)
      requires Valid() && t in tasks && !tasks[t].Spawned?
      modifies this
      ensures Valid() && View() == Next(old(View()), Event.Finish(t, false))
      ensures tasks == old(tasks) - {t} && normals == old(normals)
      ensures var task := old(tasks)[t];
              conns == if !task.Replying? && task.id in old(conns) then old(conns)[task.id := old(conns)[task.id].(cancelled := true)] else old(conns)
    {
      hide Base, Awake;
      NextOk(View(), Event.Finish(t, false), false);
      ghost var st := Next(View(), Event.Finish(t, false));
      var task := tasks[t];
      tasks := tasks - {t};
      if !task.Replying? && task.id in conns {
        conns := conns[task.id := conns[task.id].(cancelled := true)];
      }
      led := st.led;
    }
  }
}
