/** The pub/sub write protocol as a transition system.
 *
 * A step is what one task does between two awaits. Buffers are sequences of
 * whole frames; connection ids are never reused, which the generational arena
 * guarantees. The ledger is history and bookkeeping that no task reads. */
module PubSub {
  import opened Basics
  import opened Resp

  type Id = nat
  type Socket = nat
  type TaskId = nat
  type Channel = Bytes

  /** `count` is the number of channels the session believes it has joined. */
  datatype Conn = Conn(write: Option<Socket>, io: seq<Frame>, swap: Option<seq<Frame>>, cancelled: bool, count: nat)

  datatype Writer = Writer(sock: Socket, buffer: seq<Frame>)

  /** Swap the two buffers and take the write half with the filled one. */
  function GetConnWriter(c: Conn): (Conn, Option<Writer>) {
    if c.write.None? || c.swap.None? then (c, None)
    else (c.(write := None, io := c.swap.value, swap := None), Some(Writer(c.write.value, c.io)))
  }

  /** Give the write half and the emptied buffer back. The precondition is
   *  the assertion that RadixOx makes here. */
  function Restitute(c: Conn, cw: Writer): Conn
    requires c.write.None? && c.swap.None?
  {
    c.(write := Some(cw.sock), swap := Some(cw.buffer))
  }

  /** A suspended task: a write task not yet started or writing, a session
   *  writing inline, or a session in normal mode writing a reply. `flush` lists
   *  the connections that a publisher still has to wake. */
  datatype Task =
    | Spawned(id: Id, cw: Writer)
    | Writing(id: Id, cw: Writer)
    | Inline(id: Id, cw: Writer, flush: seq<Id>)
    | Replying(cw: Writer, flush: seq<Id>)

  datatype Net = Net(conns: map<Id, Conn>, channels: map<Channel, seq<Id>>, tasks: map<TaskId, Task>,
                     normals: map<Socket, seq<Frame>>, nextId: Id, nextTask: TaskId)

  /** Who has the write half of a socket. */
  datatype Place = Resting | Sending(task: TaskId) | Subscribed(id: Id)

  /** Per socket, the frames appended for it and written to it, in order, and
   *  its place; per connection, its socket and the task that holds its writer;
   *  and the connections whose wake-up was dropped with a failed publisher. */
  datatype Ledger = Ledger(queued: map<Socket, seq<Frame>>, sent: map<Socket, seq<Frame>>, place: map<Socket, Place>,
                           sockOf: map<Id, Socket>, holder: map<Id, TaskId>, stranded: set<Id>)

  datatype State = State(net: Net, led: Ledger)

  // ---- Invariant ---------------------------------------------------------------------

  /** What was queued is what was sent plus what is buffered: as multisets, or
   *  even in this order. */
  ghost predicate Account(queued: seq<Frame>, sent: seq<Frame>, buffer: seq<Frame>, io: seq<Frame>, inOrder: bool) {
    if inOrder then queued == sent + buffer + io
    else multiset(queued) == multiset(sent) + multiset(buffer) + multiset(io)
  }

  ghost predicate Books(st: State, s: Socket, buffer: seq<Frame>, io: seq<Frame>, inOrder: bool) {
    s in st.led.queued && s in st.led.sent && Account(st.led.queued[s], st.led.sent[s], buffer, io, inOrder)
  }

  ghost predicate HeldBy(st: State, id: Id, t: TaskId, s: Socket) {
    t in st.net.tasks && !st.net.tasks[t].Replying? && st.net.tasks[t].id == id && st.net.tasks[t].cw.sock == s
  }

  /** Write half and swap buffer are both home, or both out with one task, or
   *  lost to a failed write. */
  ghost predicate ConnOk(st: State, id: Id, inOrder: bool)
    requires id in st.net.conns
  {
    var c, l := st.net.conns[id], st.led;
    && id < st.net.nextId && id in l.sockOf && l.sockOf[id] in l.place && l.place[l.sockOf[id]] == Subscribed(id)
    && l.sockOf[id] in l.queued && l.sockOf[id] in l.sent
    && (c.write.Some? <==> c.swap.Some?)
    && (c.write.Some? ==>
          c.write == Some(l.sockOf[id]) && c.swap == Some([]) && !c.cancelled && id !in l.holder
          && Books(st, l.sockOf[id], [], c.io, inOrder))
    && (c.write.None? && c.cancelled ==> id !in l.holder)
    && (c.write.None? && !c.cancelled ==>
          id in l.holder && HeldBy(st, id, l.holder[id], l.sockOf[id])
          && Books(st, l.sockOf[id], st.net.tasks[l.holder[id]].cw.buffer, c.io, inOrder))
  }

  ghost predicate TaskOk(st: State, t: TaskId, inOrder: bool)
    requires t in st.net.tasks
  {
    t < st.net.nextTask &&
    match st.net.tasks[t]
    case Replying(cw, _) =>
      cw.sock in st.led.place && st.led.place[cw.sock] == Sending(t) && Books(st, cw.sock, cw.buffer, [], inOrder)
    case task =>
      task.id < st.net.nextId && (task.id in st.net.conns ==> task.id in st.led.holder && st.led.holder[task.id] == t)
  }

  ghost predicate RestOk(st: State, s: Socket, inOrder: bool)
    requires s in st.net.normals
  {
    s in st.led.place && st.led.place[s] == Resting && Books(st, s, st.net.normals[s], [], inOrder)
  }

  ghost predicate Base(st: State, inOrder: bool) {
    && (forall id {:trigger ConnOk(st, id, inOrder)} :: id in st.net.conns ==> ConnOk(st, id, inOrder))
    && (forall t {:trigger TaskOk(st, t, inOrder)} :: t in st.net.tasks ==> TaskOk(st, t, inOrder))
    && (forall s {:trigger RestOk(st, s, inOrder)} :: s in st.net.normals ==> RestOk(st, s, inOrder))
    && (forall id :: id in st.led.holder ==> id in st.net.conns)
  }

  /** A suspended publisher will wake this connection. */
  ghost predicate Owes(tasks: map<TaskId, Task>, t: TaskId, id: Id) {
    t in tasks && (tasks[t].Inline? || tasks[t].Replying?) && id in tasks[t].flush
  }

  /** A connection with its writer at home and something to write. */
  ghost predicate Laden(st: State, id: Id) {
    id in st.net.conns && st.net.conns[id].write.Some? && st.net.conns[id].io != []
  }

  /** A laden connection is owed a wake-up, by the current step (`debt`) or by a
   *  suspended publisher, or is stranded; and only laden ones are stranded. */
  ghost predicate Awake(st: State, debt: set<Id>) {
    && (forall id {:trigger Laden(st, id)} :: Laden(st, id) ==>
          id in debt || id in st.led.stranded || exists t :: Owes(st.net.tasks, t, id))
    && (forall id {:trigger id in st.led.stranded} :: id in st.led.stranded ==> Laden(st, id))
  }

  ghost predicate Inv(st: State, inOrder: bool) {
    Base(st, inOrder) && Awake(st, {})
  }

  // ---- Frames ------------------------------------------------------------------------------

  ghost predicate Same<K(!new), V(!new)>(m: map<K, V>, m': map<K, V>, k: K) {
    forall x :: x != k ==> (x in m <==> x in m') && (x in m && x in m' ==> m[x] == m'[x])
  }

  ghost predicate SameTasks(m: map<TaskId, Task>, m': map<TaskId, Task>, ts: set<TaskId>) {
    forall x :: x !in ts ==> (x in m <==> x in m') && (x in m && x in m' ==> m[x] == m'[x])
  }

  /** A step concerns connection `id`, socket `s` and the tasks `ts` only. */
  ghost predicate Local(st: State, st': State, id: Id, s: Socket, ts: set<TaskId>) {
    && Same(st.net.conns, st'.net.conns, id) && Same(st.net.normals, st'.net.normals, s)
    && SameTasks(st.net.tasks, st'.net.tasks, ts)
    && Same(st.led.queued, st'.led.queued, s) && Same(st.led.sent, st'.led.sent, s) && Same(st.led.place, st'.led.place, s)
    && Same(st.led.sockOf, st'.led.sockOf, id) && Same(st.led.holder, st'.led.holder, id)
    && st.net.nextId <= st'.net.nextId && st.net.nextTask <= st'.net.nextTask
  }

  /** Nobody else has an interest in the socket or in the tasks. */
  ghost predicate Private(st: State, id: Id, s: Socket, ts: set<TaskId>) {
    && (s in st.led.place ==> match st.led.place[s] { case Resting => true case Sending(t) => t in ts case Subscribed(j) => j == id })
    && (forall j :: j in st.led.holder && st.led.holder[j] in ts ==> j == id)
  }

  lemma OtherConn(st: State, st': State, id: Id, s: Socket, ts: set<TaskId>, inOrder: bool, j: Id)
    requires Base(st, inOrder) && Local(st, st', id, s, ts) && Private(st, id, s, ts) && j != id && j in st.net.conns
    ensures j in st'.net.conns && ConnOk(st', j, inOrder)
  {
    hide Account;
    assert ConnOk(st, j, inOrder);
  }

  lemma OtherTask(st: State, st': State, id: Id, s: Socket, ts: set<TaskId>, inOrder: bool, t: TaskId)
    requires Base(st, inOrder) && Local(st, st', id, s, ts) && Private(st, id, s, ts) && t !in ts && t in st.net.tasks
    requires !st.net.tasks[t].Replying? && st.net.tasks[t].id == id ==> id !in st'.net.conns
    ensures t in st'.net.tasks && TaskOk(st', t, inOrder)
  {
    hide Account;
    assert TaskOk(st, t, inOrder);
  }

  lemma OtherRest(st: State, st': State, id: Id, s: Socket, ts: set<TaskId>, inOrder: bool, r: Socket)
    requires Base(st, inOrder) && Local(st, st', id, s, ts) && r != s && r in st.net.normals
    ensures r in st'.net.normals && RestOk(st', r, inOrder)
  {
    hide Account;
    assert RestOk(st, r, inOrder);
  }

  /** A local step keeps the invariant if it does so where it acts. */
  lemma LocalStep(st: State, st': State, id: Id, s: Socket, ts: set<TaskId>, inOrder: bool)
    requires Base(st, inOrder) && Local(st, st', id, s, ts) && Private(st, id, s, ts)
    requires id in st'.net.conns ==> ConnOk(st', id, inOrder)
    requires forall t :: t in ts && t in st'.net.tasks ==> TaskOk(st', t, inOrder)
    requires s in st'.net.normals ==> RestOk(st', s, inOrder)
    requires id in st'.led.holder ==> id in st'.net.conns
    requires id in st'.net.conns ==> forall t :: t in st.net.tasks && t !in ts && !st.net.tasks[t].Replying? ==> st.net.tasks[t].id != id
    ensures Base(st', inOrder)
  {
    hide ConnOk, TaskOk, RestOk, Private;
    forall j | j in st'.net.conns ensures ConnOk(st', j, inOrder) {
      if j != id { OtherConn(st, st', id, s, ts, inOrder, j); }
    }
    forall t | t in st'.net.tasks ensures TaskOk(st', t, inOrder) {
      if t !in ts { OtherTask(st, st', id, s, ts, inOrder, t); }
    }
    forall r | r in st'.net.normals ensures RestOk(st', r, inOrder) {
      if r != s { OtherRest(st, st', id, s, ts, inOrder, r); }
    }
  }

  /** A step changes who is owed what. */
  lemma AwakeStep(st: State, st': State, debt: set<Id>, debt': set<Id>)
    requires Awake(st, debt)
    requires forall j :: j in st'.led.stranded ==> j in st.led.stranded && (Laden(st, j) ==> Laden(st', j))
    requires forall j :: Laden(st', j) && j !in debt' && j !in st'.led.stranded ==> Laden(st, j) && j !in debt && j !in st.led.stranded
    requires forall t, j :: Owes(st.net.tasks, t, j) ==> Owes(st'.net.tasks, t, j) || j in debt' || !Laden(st', j)
    ensures Awake(st', debt')
  {
    hide Owes, Laden;
  }

  /** Connections that differ in their channel counts only. */
  ghost predicate Recounted(conns: map<Id, Conn>, conns': map<Id, Conn>) {
    conns'.Keys == conns.Keys && forall id :: id in conns ==> conns'[id] == conns[id].(count := conns'[id].count)
  }

  /** Subscriptions and dropped wake-ups do not concern the writers. */
  lemma SameWriters(st: State, st': State, inOrder: bool)
    requires Base(st, inOrder) && st'.net == st.net.(channels := st'.net.channels, conns := st'.net.conns)
    requires Recounted(st.net.conns, st'.net.conns) && st'.led == st.led.(stranded := st'.led.stranded)
    ensures Base(st', inOrder)
  {
    hide Account;
    forall id | id in st'.net.conns ensures ConnOk(st', id, inOrder) { assert ConnOk(st, id, inOrder); }
    forall t | t in st.net.tasks ensures TaskOk(st', t, inOrder) { assert TaskOk(st, t, inOrder); }
    forall s | s in st.net.normals ensures RestOk(st', s, inOrder) { assert RestOk(st, s, inOrder); }
  }

  /** Ids and task numbers not yet given out are unknown everywhere. */
  lemma Unused(st: State, inOrder: bool)
    requires Base(st, inOrder)
    ensures st.net.nextId !in st.net.conns && st.net.nextId !in st.led.holder && st.net.nextTask !in st.net.tasks
    ensures forall t :: t in st.net.tasks && !st.net.tasks[t].Replying? ==> st.net.tasks[t].id < st.net.nextId
    ensures forall j :: j in st.led.holder ==> st.led.holder[j] != st.net.nextTask
  {
    hide Account, Books;
    forall j | j in st.net.conns ensures j != st.net.nextId && (j in st.led.holder ==> st.led.holder[j] in st.net.tasks) {
      assert ConnOk(st, j, inOrder);
    }
    forall t | t in st.net.tasks ensures t != st.net.nextTask && (!st.net.tasks[t].Replying? ==> st.net.tasks[t].id < st.net.nextId) {
      assert TaskOk(st, t, inOrder);
    }
  }

  // ---- Elementary moves ---------------------------------------------------------------------

  ghost function Book(l: Ledger, s: Socket, f: Frame): Ledger {
    if s in l.queued then l.(queued := l.queued[s := l.queued[s] + [f]]) else l
  }

  /** Append a frame to a connection's buffer, if it still exists. */
  ghost function Queue(st: State, id: Id, f: Frame): State {
    if id !in st.net.conns then st
    else
      var c := st.net.conns[id];
      State(st.net.(conns := st.net.conns[id := c.(io := c.io + [f])]),
            if id in st.led.sockOf then Book(st.led, st.led.sockOf[id], f) else st.led)
  }

  /** Append a message for every subscriber; a repeated subscription gets it twice. */
  ghost function QueueAll(st: State, ids: seq<Id>, f: Frame): State
    decreases |ids|
  {
    if ids == [] then st else QueueAll(Queue(st, ids[0], f), ids[1..], f)
  }

  function Present(conns: set<Id>, ids: seq<Id>): seq<Id> {
    if ids == [] then [] else (if ids[0] in conns then [ids[0]] else []) + Present(conns, ids[1..])
  }

  /** Hand the writer of connection `id` to a new task. */
  ghost function Lend(st: State, id: Id, c: Conn, task: Task): State {
    State(st.net.(conns := st.net.conns[id := c], tasks := st.net.tasks[st.net.nextTask := task], nextTask := st.net.nextTask + 1),
          st.led.(holder := st.led.holder[id := st.net.nextTask], stranded := st.led.stranded - {id}))
  }

  /** Spawn a write task unless one already holds the writer. */
  ghost function Trigger(st: State, id: Id): State {
    if id !in st.net.conns then st
    else
      var (c, cw) := GetConnWriter(st.net.conns[id]);
      if cw.None? then st else Lend(st, id, c, Spawned(id, cw.value))
  }

  ghost function FlushAll(st: State, ids: seq<Id>): State
    decreases |ids|
  {
    if ids == [] then st else FlushAll(Trigger(st, ids[0]), ids[1..])
  }

  /** The publisher failed before its flush loop: what it leaves laden is stranded. */
  ghost function Strand(st: State, ids: seq<Id>): State {
    st.(led := st.led.(stranded := st.led.stranded + set id | id in ids && Laden(st, id)))
  }

  /** A subscriber is sent a frame: append, then write inline if the writer is
   *  home, else leave it to whoever holds the writer. */
  ghost function SendPub(st: State, id: Id, f: Frame, flush: seq<Id>): State {
    if id !in st.net.conns then Strand(st, flush)
    else
      var st1 := Queue(st, id, f);
      var (c, cw) := GetConnWriter(st1.net.conns[id]);
      if cw.None? then FlushAll(st1, flush) else Lend(st1, id, c, Inline(id, cw.value, flush))
  }

  /** A session in normal mode writes its pending buffer and a reply. */
  ghost function StartReply(st: State, s: Socket, f: Frame, flush: seq<Id>): State
    requires s in st.net.normals
  {
    var task := Replying(Writer(s, st.net.normals[s] + [f]), flush);
    State(st.net.(normals := st.net.normals - {s}, tasks := st.net.tasks[st.net.nextTask := task], nextTask := st.net.nextTask + 1),
          Book(st.led, s, f).(place := st.led.place[s := Sending(st.net.nextTask)]))
  }

  ghost function Join(st: State, s: Socket): State
    requires s in st.net.normals
  {
    var id := st.net.nextId;
    State(st.net.(conns := st.net.conns[id := Conn(Some(s), st.net.normals[s], Some([]), false, 1)], normals := st.net.normals - {s}, nextId := id + 1),
          st.led.(place := st.led.place[s := Subscribed(id)], sockOf := st.led.sockOf[id := s]))
  }

  /** The first thing a write task does is to swap buffers once more. */
  ghost function Begin(st: State, t: TaskId): State
    requires t in st.net.tasks && st.net.tasks[t].Spawned?
  {
    var task := st.net.tasks[t];
    if task.id !in st.net.conns then st.(net := st.net.(tasks := st.net.tasks - {t}))
    else
      var c := st.net.conns[task.id];
      st.(net := st.net.(conns := st.net.conns[task.id := c.(io := task.cw.buffer)],
                         tasks := st.net.tasks[t := Writing(task.id, task.cw.(buffer := c.io))]))
  }

  ghost function Sent(l: Ledger, s: Socket, fs: seq<Frame>): Ledger {
    if s in l.sent then l.(sent := l.sent[s := l.sent[s] + fs]) else l
  }

  /** The buffer was written: go on if more arrived, else bring the writer home. */
  ghost function Written(st: State, t: TaskId): State
    requires Base(st, false) && t in st.net.tasks && !st.net.tasks[t].Replying?
  {
    var task := st.net.tasks[t];
    if task.id !in st.net.conns then st.(net := st.net.(tasks := st.net.tasks - {t}))
    else
      assert ConnOk(st, task.id, false) && TaskOk(st, t, false);
      var c, cw, l := st.net.conns[task.id], Writer(task.cw.sock, []), Sent(st.led, task.cw.sock, task.cw.buffer);
      if c.io != [] then
        State(st.net.(tasks := (st.net.tasks - {t})[st.net.nextTask := Spawned(task.id, cw)], nextTask := st.net.nextTask + 1),
              l.(holder := l.holder[task.id := st.net.nextTask]))
      else
        State(st.net.(conns := st.net.conns[task.id := Restitute(c, cw)], tasks := st.net.tasks - {t}),
              l.(holder := l.holder - {task.id}))
  }

  /** The write failed: the connection is cancelled and its writer lost. */
  ghost function Broke(st: State, t: TaskId): State
    requires t in st.net.tasks && !st.net.tasks[t].Replying?
  {
    var task := st.net.tasks[t];
    if task.id !in st.net.conns then st.(net := st.net.(tasks := st.net.tasks - {t}))
    else State(st.net.(conns := st.net.conns[task.id := st.net.conns[task.id].(cancelled := true)], tasks := st.net.tasks - {t}),
               st.led.(holder := st.led.holder - {task.id}))
  }

  ghost function Replied(st: State, t: TaskId): State
    requires t in st.net.tasks && st.net.tasks[t].Replying?
  {
    var cw := st.net.tasks[t].cw;
    State(st.net.(tasks := st.net.tasks - {t}, normals := st.net.normals[cw.sock := []]),
          Sent(st.led, cw.sock, cw.buffer).(place := st.led.place[cw.sock := Resting]))
  }

  ghost function HungUp(st: State, t: TaskId): State
    requires t in st.net.tasks && st.net.tasks[t].Replying?
  {
    State(st.net.(tasks := st.net.tasks - {t}), st.led.(place := st.led.place - {st.net.tasks[t].cw.sock}))
  }

  /** Fully unsubscribed with the writer home: back to normal mode, unsent
   *  frames included. */
  ghost function Leave(st: State, id: Id): State
    requires id in st.net.conns && st.net.conns[id].write.Some?
  {
    var c := st.net.conns[id];
    State(st.net.(conns := st.net.conns - {id}, normals := st.net.normals[c.write.value := c.io]),
          st.led.(place := st.led.place[c.write.value := Resting], stranded := st.led.stranded - {id}))
  }

  ghost function Close(st: State, id: Id): State {
    State(st.net.(conns := st.net.conns - {id}),
          st.led.(holder := st.led.holder - {id}, stranded := st.led.stranded - {id},
                  place := if id in st.net.conns && id in st.led.sockOf then st.led.place - {st.led.sockOf[id]} else st.led.place))
  }

  ghost function Connect(st: State, s: Socket): State {
    State(st.net.(normals := st.net.normals[s := []]),
          st.led.(queued := st.led.queued[s := []], sent := st.led.sent[s := []], place := st.led.place[s := Resting]))
  }

  // ---- What the moves keep ---------------------------------------------------------------------

  /** The task holding the writer of `id`, if any. */
  ghost function OwnTasks(st: State, id: Id): set<TaskId> {
    if id in st.led.holder then {st.led.holder[id]} else {}
  }

  /** A connection, its socket and its writer's task are nobody else's business. */
  lemma Own(st: State, id: Id, inOrder: bool)
    requires Base(st, inOrder) && id in st.net.conns
    ensures id in st.led.sockOf && Private(st, id, st.led.sockOf[id], OwnTasks(st, id)) && st.led.sockOf[id] !in st.net.normals
    ensures forall t :: t in st.net.tasks && !st.net.tasks[t].Replying? && st.net.tasks[t].id == id ==> t in OwnTasks(st, id)
    ensures forall t :: t in OwnTasks(st, id) ==> t in st.net.tasks && !st.net.tasks[t].Replying? && TaskOk(st, t, inOrder)
  {
    hide Account, Books;
    assert ConnOk(st, id, inOrder);
    forall j | j in st.led.holder && st.led.holder[j] in OwnTasks(st, id) ensures j == id { assert ConnOk(st, j, inOrder); }
    forall t | t in st.net.tasks && !st.net.tasks[t].Replying? && st.net.tasks[t].id == id ensures t in OwnTasks(st, id) { assert TaskOk(st, t, inOrder); }
    if id in st.led.holder { assert TaskOk(st, st.led.holder[id], inOrder); }
    forall s | s in st.net.normals ensures s != st.led.sockOf[id] { assert RestOk(st, s, inOrder); }
  }

  lemma AccountMore(q: seq<Frame>, sent: seq<Frame>, buffer: seq<Frame>, io: seq<Frame>, f: Frame, inOrder: bool)
    requires Account(q, sent, buffer, io, inOrder)
    ensures Account(q + [f], sent, buffer, io + [f], inOrder)
  {
  }

  lemma AccountSent(q: seq<Frame>, sent: seq<Frame>, buffer: seq<Frame>, io: seq<Frame>, inOrder: bool)
    requires Account(q, sent, buffer, io, inOrder)
    ensures Account(q, sent + buffer, [], io, inOrder)
  {
    assert sent + buffer + [] == sent + buffer;
  }

  /** A lone buffer may change its role. */
  lemma AccountMove(q: seq<Frame>, sent: seq<Frame>, fs: seq<Frame>, inOrder: bool)
    ensures Account(q, sent, fs, [], inOrder) <==> Account(q, sent, [], fs, inOrder)
  {
    assert sent + fs + [] == sent + [] + fs;
  }

  lemma AccountSwap(q: seq<Frame>, sent: seq<Frame>, buffer: seq<Frame>, io: seq<Frame>, inOrder: bool)
    requires Account(q, sent, buffer, io, inOrder)
    ensures Account(q, sent, io, buffer, inOrder) <==> (inOrder ==> buffer + io == io + buffer)
  {
    if inOrder {
      Group(sent, buffer, io);
      Group(sent, io, buffer);
      if sent + (buffer + io) == sent + (io + buffer) { SameHeads(sent, buffer + io, sent, io + buffer); }
    }
  }

  lemma QueueBase(st: State, id: Id, f: Frame, inOrder: bool)
    requires Base(st, inOrder)
    ensures Base(Queue(st, id, f), inOrder)
  {
    hide Account, Private, Base;
    if id in st.net.conns {
      Own(st, id, inOrder);
      QueueConn(st, id, f, inOrder);
      LocalStep(st, Queue(st, id, f), id, st.led.sockOf[id], OwnTasks(st, id), inOrder);
    }
  }

  lemma QueueConn(st: State, id: Id, f: Frame, inOrder: bool)
    requires Base(st, inOrder) && id in st.net.conns
    ensures id in st.led.sockOf && Local(st, Queue(st, id, f), id, st.led.sockOf[id], OwnTasks(st, id))
    ensures id in Queue(st, id, f).net.conns && ConnOk(Queue(st, id, f), id, inOrder)
  {
    hide Account;
    assert ConnOk(st, id, inOrder);
    var c, s := st.net.conns[id], st.led.sockOf[id];
    var buffer := if c.write.Some? || c.cancelled then [] else st.net.tasks[st.led.holder[id]].cw.buffer;
    if !c.cancelled { AccountMore(st.led.queued[s], st.led.sent[s], buffer, c.io, f, inOrder); }
  }

  lemma QueueAwake(st: State, id: Id, f: Frame, debt: set<Id>)
    requires Awake(st, debt)
    ensures Awake(Queue(st, id, f), debt + {id}) && (id !in st.net.conns ==> Awake(Queue(st, id, f), debt))
  {
    AwakeStep(st, Queue(st, id, f), debt, debt + {id});
  }

  lemma {:induction false} QueueAllOk(st: State, ids: seq<Id>, f: Frame, debt: set<Id>, inOrder: bool)
    requires Base(st, inOrder) && Awake(st, debt)
    ensures Base(QueueAll(st, ids, f), inOrder) && Awake(QueueAll(st, ids, f), debt + Elems(Present(st.net.conns.Keys, ids)))
    ensures QueueAll(st, ids, f).net == st.net.(conns := QueueAll(st, ids, f).net.conns) && QueueAll(st, ids, f).net.conns.Keys == st.net.conns.Keys
    decreases |ids|
  {
    hide Base, Awake;
    if ids == [] {
      assert debt + Elems(Present(st.net.conns.Keys, ids)) == debt;
    } else {
      var id, rest := ids[0], ids[1..];
      var st1, debt1 := Queue(st, id, f), if id in st.net.conns then debt + {id} else debt;
      QueueBase(st, id, f, inOrder);
      QueueAwake(st, id, f, debt);
      assert st1.net.conns.Keys == st.net.conns.Keys;
      QueueAllOk(st1, rest, f, debt1, inOrder);
      var p, q := Present(st.net.conns.Keys, ids), Present(st.net.conns.Keys, rest);
      assert p == (if id in st.net.conns then [id] else []) + q;
      forall x ensures x in debt + Elems(p) <==> x in debt1 + Elems(q) { }
      assert debt + Elems(p) == debt1 + Elems(q);
    }
  }

  /** Taking the writer of a connection that has it at home. */
  lemma LendOk(st: State, id: Id, task: Task, debt: set<Id>, inOrder: bool)
    requires Base(st, inOrder) && id in st.net.conns && GetConnWriter(st.net.conns[id]).1.Some?
    requires !task.Replying? && task.id == id && task.cw == GetConnWriter(st.net.conns[id]).1.value
    ensures var st' := Lend(st, id, GetConnWriter(st.net.conns[id]).0, task);
            Base(st', inOrder) && (Awake(st, debt) ==> Awake(st', debt - {id} - if task.Inline? then Elems(task.flush) else {}))
  {
    hide Account, Private, Base, Awake;
    var st' := Lend(st, id, GetConnWriter(st.net.conns[id]).0, task);
    Own(st, id, inOrder);
    Unused(st, inOrder);
    LendConn(st, id, task, inOrder);
    LocalStep(st, st', id, st.led.sockOf[id], {st.net.nextTask}, inOrder);
    if Awake(st, debt) { LendAwake(st, id, task, debt); }
  }

  lemma LendAwake(st: State, id: Id, task: Task, debt: set<Id>)
    requires Awake(st, debt) && st.net.nextTask !in st.net.tasks && id in st.net.conns && GetConnWriter(st.net.conns[id]).1.Some?
    ensures Awake(Lend(st, id, GetConnWriter(st.net.conns[id]).0, task), debt - {id} - if task.Inline? then Elems(task.flush) else {})
  {
    var st' := Lend(st, id, GetConnWriter(st.net.conns[id]).0, task);
    var debt1 := debt - {id};
    AwakeStep(st, st', debt, debt1);
    if task.Inline? {
      forall j | j in task.flush ensures Owes(st'.net.tasks, st.net.nextTask, j) { }
    }
  }

  lemma LendConn(st: State, id: Id, task: Task, inOrder: bool)
    requires Base(st, inOrder) && id in st.net.conns && GetConnWriter(st.net.conns[id]).1.Some? && id in st.led.sockOf
    requires !task.Replying? && task.id == id && task.cw == GetConnWriter(st.net.conns[id]).1.value && st.net.nextTask !in st.net.tasks
    requires forall j :: j in st.led.holder ==> st.led.holder[j] != st.net.nextTask
    ensures id !in st.led.holder && Private(st, id, st.led.sockOf[id], {st.net.nextTask})
    ensures var st' := Lend(st, id, GetConnWriter(st.net.conns[id]).0, task);
            && Local(st, st', id, st.led.sockOf[id], {st.net.nextTask})
            && ConnOk(st', id, inOrder) && TaskOk(st', st.net.nextTask, inOrder)
  {
    hide Account;
    assert ConnOk(st, id, inOrder);
    var s := st.led.sockOf[id];
    AccountMove(st.led.queued[s], st.led.sent[s], st.net.conns[id].io, inOrder);
  }

  lemma TriggerOk(st: State, id: Id, debt: set<Id>, inOrder: bool)
    requires Base(st, inOrder) && Awake(st, debt)
    ensures Base(Trigger(st, id), inOrder) && Awake(Trigger(st, id), debt - {id})
  {
    hide Account, Books, Owes;
    if id in st.net.conns {
      assert ConnOk(st, id, inOrder);
      var (c, cw) := GetConnWriter(st.net.conns[id]);
      if cw.Some? { LendOk(st, id, Spawned(id, cw.value), debt, inOrder); }
    }
  }

  lemma {:induction false} FlushAllOk(st: State, ids: seq<Id>, debt: set<Id>, inOrder: bool)
    requires Base(st, inOrder) && Awake(st, debt)
    ensures Base(FlushAll(st, ids), inOrder) && Awake(FlushAll(st, ids), debt - Elems(ids))
    decreases |ids|
  {
    hide Base, Awake;
    if ids == [] {
      assert debt - Elems(ids) == debt;
    } else {
      TriggerOk(st, ids[0], debt, inOrder);
      FlushAllOk(Trigger(st, ids[0]), ids[1..], debt - {ids[0]}, inOrder);
      assert debt - {ids[0]} - Elems(ids[1..]) == debt - Elems(ids);
    }
  }

  lemma StrandOk(st: State, ids: seq<Id>, debt: set<Id>, inOrder: bool)
    requires Base(st, inOrder) && Awake(st, debt)
    ensures Base(Strand(st, ids), inOrder) && Awake(Strand(st, ids), debt - Elems(ids))
  {
    SameWriters(st, Strand(st, ids), inOrder);
    StrandAwake(st, ids, debt);
  }

  lemma StrandAwake(st: State, ids: seq<Id>, debt: set<Id>)
    requires Awake(st, debt)
    ensures Awake(Strand(st, ids), debt - Elems(ids))
  {
    hide Owes;
    var st' := Strand(st, ids);
    forall id ensures Laden(st', id) <==> Laden(st, id) { }
    forall id | Laden(st', id) && id !in debt - Elems(ids) && id !in st'.led.stranded ensures exists t :: Owes(st'.net.tasks, t, id) {
      assert id !in ids && id !in debt && id !in st.led.stranded;
    }
  }

  /** Whichever way a subscriber's frame goes out, that connection and the
   *  publisher's flush list are taken care of. */
  lemma SendPubOk(st: State, id: Id, f: Frame, flush: seq<Id>, debt: set<Id>, inOrder: bool)
    requires Base(st, inOrder) && Awake(st, debt)
    ensures Base(SendPub(st, id, f, flush), inOrder) && Awake(SendPub(st, id, f, flush), debt - {id} - Elems(flush))
  {
    hide Account, Books, Owes, FlushAll, Lend, Queue, Awake;
    if id !in st.net.conns {
      StrandOk(st, flush, debt, inOrder);
      AbsentAwake(Strand(st, flush), id, debt - Elems(flush));
      assert debt - Elems(flush) - {id} == debt - {id} - Elems(flush);
    } else {
      var st1 := Queue(st, id, f);
      QueueBase(st, id, f, inOrder);
      QueueAwake(st, id, f, debt);
      QueueKeys(st, id, f);
      var (c, cw) := GetConnWriter(st1.net.conns[id]);
      assert debt + {id} - {id} == debt - {id};
      if cw.None? {
        assert ConnOk(st1, id, inOrder);
        AbsentAwake(st1, id, debt + {id});
        FlushAllOk(st1, flush, debt - {id}, inOrder);
      } else {
        LendOk(st1, id, Inline(id, cw.value, flush), debt + {id}, inOrder);
      }
    }
  }

  lemma QueueKeys(st: State, id: Id, f: Frame)
    ensures Queue(st, id, f).net.conns.Keys == st.net.conns.Keys
  {
  }

  lemma AbsentAwake(st: State, id: Id, debt: set<Id>)
    requires Awake(st, debt) && (id in st.net.conns ==> st.net.conns[id].write.None?)
    ensures Awake(st, debt - {id})
  {
    hide Owes;
  }

  lemma StartReplyOk(st: State, s: Socket, f: Frame, flush: seq<Id>, debt: set<Id>, inOrder: bool)
    requires Base(st, inOrder) && Awake(st, debt) && s in st.net.normals
    ensures Base(StartReply(st, s, f, flush), inOrder) && Awake(StartReply(st, s, f, flush), debt - Elems(flush))
  {
    hide Account, Awake;
    var st', t := StartReply(st, s, f, flush), st.net.nextTask;
    Unused(st, inOrder);
    assert RestOk(st, s, inOrder);
    AccountMove(st.led.queued[s], st.led.sent[s], st.net.normals[s], inOrder);
    AccountMore(st.led.queued[s], st.led.sent[s], [], st.net.normals[s], f, inOrder);
    AccountMove(st.led.queued[s] + [f], st.led.sent[s], st.net.normals[s] + [f], inOrder);
    LocalStep(st, st', st.net.nextId, s, {t}, inOrder);
    ReplyAwake(st, s, f, flush, debt);
  }

  lemma ReplyAwake(st: State, s: Socket, f: Frame, flush: seq<Id>, debt: set<Id>)
    requires Awake(st, debt) && s in st.net.normals && st.net.nextTask !in st.net.tasks
    ensures Awake(StartReply(st, s, f, flush), debt - Elems(flush))
  {
    var st' := StartReply(st, s, f, flush);
    AwakeStep(st, st', debt, debt);
    forall j | j in flush ensures Owes(st'.net.tasks, st.net.nextTask, j) { }
  }

  lemma JoinOk(st: State, s: Socket, debt: set<Id>, inOrder: bool)
    requires Base(st, inOrder) && Awake(st, debt) && s in st.net.normals
    ensures Base(Join(st, s), inOrder) && Awake(Join(st, s), debt + {st.net.nextId})
  {
    hide Account, Awake;
    Unused(st, inOrder);
    assert RestOk(st, s, inOrder);
    AccountMove(st.led.queued[s], st.led.sent[s], st.net.normals[s], inOrder);
    LocalStep(st, Join(st, s), st.net.nextId, s, {}, inOrder);
    AwakeStep(st, Join(st, s), debt, debt + {st.net.nextId});
  }

  lemma ConnectOk(st: State, s: Socket, debt: set<Id>, inOrder: bool)
    requires Base(st, inOrder) && Awake(st, debt) && s !in st.led.place
    ensures Base(Connect(st, s), inOrder) && Awake(Connect(st, s), debt)
  {
    hide Awake;
    Unused(st, inOrder);
    LocalStep(st, Connect(st, s), st.net.nextId, s, {}, inOrder);
    AwakeStep(st, Connect(st, s), debt, debt);
  }

  lemma LeaveOk(st: State, id: Id, debt: set<Id>, inOrder: bool)
    requires Base(st, inOrder) && Awake(st, debt) && id in st.net.conns && st.net.conns[id].write.Some?
    ensures Base(Leave(st, id), inOrder) && Awake(Leave(st, id), debt)
  {
    hide Account, Awake;
    assert ConnOk(st, id, inOrder);
    var s := st.led.sockOf[id];
    AccountMove(st.led.queued[s], st.led.sent[s], st.net.conns[id].io, inOrder);
    LocalStep(st, Leave(st, id), id, s, {}, inOrder);
    AwakeStep(st, Leave(st, id), debt, debt);
  }

  lemma CloseOk(st: State, id: Id, debt: set<Id>, inOrder: bool)
    requires Base(st, inOrder) && Awake(st, debt)
    ensures Base(Close(st, id), inOrder) && Awake(Close(st, id), debt)
  {
    hide Account, Awake;
    if id in st.net.conns {
      assert ConnOk(st, id, inOrder);
      Own(st, id, inOrder);
      LocalStep(st, Close(st, id), id, st.led.sockOf[id], {}, inOrder);
    } else {
      assert st.led.holder - {id} == st.led.holder;
      assert st.net.conns - {id} == st.net.conns;
      SameWriters(st, Close(st, id), inOrder);
    }
    AwakeStep(st, Close(st, id), debt, debt);
  }

  /** A writer of a connection that is gone disappears with its task. */
  lemma OrphanOk(st: State, t: TaskId, debt: set<Id>, inOrder: bool)
    requires Base(st, inOrder) && Awake(st, debt) && t in st.net.tasks && !st.net.tasks[t].Replying? && st.net.tasks[t].id !in st.net.conns
    ensures var st' := st.(net := st.net.(tasks := st.net.tasks - {t}));
            Base(st', inOrder) && Awake(st', debt + if st.net.tasks[t].Inline? then Elems(st.net.tasks[t].flush) else {})
  {
    hide Account, Awake;
    var st' := st.(net := st.net.(tasks := st.net.tasks - {t}));
    forall j | j in st.net.conns ensures ConnOk(st', j, inOrder) { assert ConnOk(st, j, inOrder); }
    forall u | u in st'.net.tasks ensures TaskOk(st', u, inOrder) { assert TaskOk(st, u, inOrder); }
    forall s | s in st.net.normals ensures RestOk(st', s, inOrder) { assert RestOk(st, s, inOrder); }
    AwakeStep(st, st', debt, debt + if st.net.tasks[t].Inline? then Elems(st.net.tasks[t].flush) else {});
  }

  /** The live connection of a writing task, and what its books say. */
  lemma HeldConn(st: State, t: TaskId, inOrder: bool)
    requires Base(st, inOrder) && t in st.net.tasks && !st.net.tasks[t].Replying? && st.net.tasks[t].id in st.net.conns
    ensures var id := st.net.tasks[t].id;
            && id in st.led.sockOf && st.led.sockOf[id] == st.net.tasks[t].cw.sock
            && OwnTasks(st, id) == {t} && ConnOk(st, id, inOrder) && id in st.led.holder && st.led.holder[id] == t
            && st.net.conns[id].write.None? && st.net.conns[id].swap.None? && !st.net.conns[id].cancelled
            && Books(st, st.led.sockOf[id], st.net.tasks[t].cw.buffer, st.net.conns[id].io, inOrder)
  {
    hide Account, Books;
    assert TaskOk(st, t, inOrder) && ConnOk(st, st.net.tasks[t].id, inOrder);
  }

  /** Starting a write task keeps the books, and keeps the order unless both
   *  buffers are filled in an order that matters. */
  lemma BeginOk(st: State, t: TaskId, debt: set<Id>, inOrder: bool)
    requires Base(st, inOrder) && Awake(st, debt) && t in st.net.tasks && st.net.tasks[t].Spawned?
    requires inOrder ==> !OvertakenAt(st, t)
    ensures Base(Begin(st, t), inOrder) && Awake(Begin(st, t), debt)
  {
    hide Account, Awake;
    var id, cw := st.net.tasks[t].id, st.net.tasks[t].cw;
    if id !in st.net.conns {
      OrphanOk(st, t, debt, inOrder);
      assert debt + {} == debt;
    } else {
      HeldConn(st, t, inOrder);
      Own(st, id, inOrder);
      var s := cw.sock;
      AccountSwap(st.led.queued[s], st.led.sent[s], cw.buffer, st.net.conns[id].io, inOrder);
      assert TaskOk(st, t, inOrder);
      LocalStep(st, Begin(st, t), id, s, {t}, inOrder);
      AwakeStep(st, Begin(st, t), debt, debt);
    }
  }

  ghost predicate OvertakenAt(st: State, t: TaskId) {
    && t in st.net.tasks && st.net.tasks[t].Spawned? && st.net.tasks[t].id in st.net.conns
    && var buffer, io := st.net.tasks[t].cw.buffer, st.net.conns[st.net.tasks[t].id].io;
       buffer + io != io + buffer
  }

  lemma WrittenOk(st: State, t: TaskId, debt: set<Id>, inOrder: bool)
    requires Base(st, inOrder) && Base(st, false) && Awake(st, debt) && t in st.net.tasks && !st.net.tasks[t].Replying?
    ensures Base(Written(st, t), inOrder)
    ensures Awake(Written(st, t), debt + if st.net.tasks[t].Inline? then Elems(st.net.tasks[t].flush) else {})
  {
    hide Account, Awake, Base;
    var id, cw := st.net.tasks[t].id, st.net.tasks[t].cw;
    if id !in st.net.conns {
      OrphanOk(st, t, debt, inOrder);
    } else {
      Unused(st, inOrder);
      HeldConn(st, t, inOrder);
      Own(st, id, inOrder);
      AccountSent(st.led.queued[cw.sock], st.led.sent[cw.sock], cw.buffer, st.net.conns[id].io, inOrder);
      WrittenLocal(st, t);
      WrittenConn(st, t, inOrder);
      LocalStep(st, Written(st, t), id, cw.sock, {t, st.net.nextTask}, inOrder);
      WrittenAwake(st, t, debt);
    }
  }

  lemma WrittenLocal(st: State, t: TaskId)
    requires Base(st, false) && t in st.net.tasks && !st.net.tasks[t].Replying? && st.net.tasks[t].id in st.net.conns
    requires forall j :: j in st.led.holder ==> st.led.holder[j] != st.net.nextTask
    requires Private(st, st.net.tasks[t].id, st.net.tasks[t].cw.sock, {t})
    ensures Local(st, Written(st, t), st.net.tasks[t].id, st.net.tasks[t].cw.sock, {t, st.net.nextTask})
    ensures Private(st, st.net.tasks[t].id, st.net.tasks[t].cw.sock, {t, st.net.nextTask})
  {
    hide ConnOk, TaskOk, RestOk;
  }

  lemma WrittenConn(st: State, t: TaskId, inOrder: bool)
    requires Base(st, false) && t in st.net.tasks && !st.net.tasks[t].Replying? && st.net.tasks[t].id in st.net.conns
    requires var id, cw := st.net.tasks[t].id, st.net.tasks[t].cw;
             && id in st.led.sockOf && st.led.sockOf[id] == cw.sock && ConnOk(st, id, inOrder) && st.net.conns[id].write.None? && !st.net.conns[id].cancelled
             && st.net.nextTask !in st.net.tasks
             && Account(st.led.queued[cw.sock], st.led.sent[cw.sock] + cw.buffer, [], st.net.conns[id].io, inOrder)
    ensures var st', id := Written(st, t), st.net.tasks[t].id;
            && id in st'.net.conns && ConnOk(st', id, inOrder) && t !in st'.net.tasks
            && (st.net.nextTask in st'.net.tasks ==> TaskOk(st', st.net.nextTask, inOrder))
            && st'.net.normals == st.net.normals
  {
    hide Account, RestOk;
  }

  lemma WrittenAwake(st: State, t: TaskId, debt: set<Id>)
    requires Base(st, false) && Awake(st, debt) && t in st.net.tasks && !st.net.tasks[t].Replying? && st.net.tasks[t].id in st.net.conns
    requires st.net.nextTask !in st.net.tasks && st.net.conns[st.net.tasks[t].id].write.None?
    ensures Awake(Written(st, t), debt + if st.net.tasks[t].Inline? then Elems(st.net.tasks[t].flush) else {})
  {
    hide ConnOk, TaskOk, RestOk, Awake;
    AwakeStep(st, Written(st, t), debt, debt + if st.net.tasks[t].Inline? then Elems(st.net.tasks[t].flush) else {});
  }

  lemma BrokeOk(st: State, t: TaskId, debt: set<Id>, inOrder: bool)
    requires Base(st, inOrder) && Awake(st, debt) && t in st.net.tasks && !st.net.tasks[t].Replying?
    ensures Base(Broke(st, t), inOrder)
    ensures Awake(Broke(st, t), debt + if st.net.tasks[t].Inline? then Elems(st.net.tasks[t].flush) else {})
  {
    hide Account, Books, Awake;
    var id := st.net.tasks[t].id;
    if id !in st.net.conns {
      OrphanOk(st, t, debt, inOrder);
    } else {
      HeldConn(st, t, inOrder);
      Own(st, id, inOrder);
      LocalStep(st, Broke(st, t), id, st.led.sockOf[id], {t}, inOrder);
      AwakeStep(st, Broke(st, t), debt, debt + if st.net.tasks[t].Inline? then Elems(st.net.tasks[t].flush) else {});
    }
  }

  lemma ReplyPrivate(st: State, t: TaskId, inOrder: bool)
    requires Base(st, inOrder) && t in st.net.tasks && st.net.tasks[t].Replying?
    ensures TaskOk(st, t, inOrder) && Private(st, st.net.nextId, st.net.tasks[t].cw.sock, {t}) && st.net.nextId !in st.net.conns
    ensures st.net.tasks[t].cw.sock !in st.net.normals
  {
    hide Account, Books;
    Unused(st, inOrder);
    assert TaskOk(st, t, inOrder);
    forall j | j in st.led.holder ensures st.led.holder[j] != t { assert ConnOk(st, j, inOrder); }
    forall s | s in st.net.normals ensures s != st.net.tasks[t].cw.sock { assert RestOk(st, s, inOrder); }
  }

  lemma RepliedOk(st: State, t: TaskId, debt: set<Id>, inOrder: bool)
    requires Base(st, inOrder) && Awake(st, debt) && t in st.net.tasks && st.net.tasks[t].Replying?
    ensures Base(Replied(st, t), inOrder) && Awake(Replied(st, t), debt + Elems(st.net.tasks[t].flush))
  {
    hide Account, Awake, Private;
    ReplyPrivate(st, t, inOrder);
    Unused(st, inOrder);
    var cw := st.net.tasks[t].cw;
    AccountSent(st.led.queued[cw.sock], st.led.sent[cw.sock], cw.buffer, [], inOrder);
    LocalStep(st, Replied(st, t), st.net.nextId, cw.sock, {t}, inOrder);
    AwakeStep(st, Replied(st, t), debt, debt + Elems(st.net.tasks[t].flush));
  }

  lemma HungUpOk(st: State, t: TaskId, debt: set<Id>, inOrder: bool)
    requires Base(st, inOrder) && Awake(st, debt) && t in st.net.tasks && st.net.tasks[t].Replying?
    ensures Base(HungUp(st, t), inOrder) && Awake(HungUp(st, t), debt + Elems(st.net.tasks[t].flush))
  {
    hide Account, Awake, Private;
    ReplyPrivate(st, t, inOrder);
    Unused(st, inOrder);
    LocalStep(st, HungUp(st, t), st.net.nextId, st.net.tasks[t].cw.sock, {t}, inOrder);
    AwakeStep(st, HungUp(st, t), debt, debt + Elems(st.net.tasks[t].flush));
  }

  // ---- Runs ------------------------------------------------------------------------------------

  /** Who publishes: a session in normal mode or a subscriber. */
  datatype Sender = Plain(sock: Socket) | Subscriber(id: Id)

  /** One step of one task. `Finish` ends a suspended write, successfully or
   *  not. `removed` lists the channels that an unsubscription names, or, if it
   *  names none, those that the session has joined. */
  datatype Event =
    | Accept(sock: Socket)
    | Subscribe(sock: Socket, channel: Channel)
    | SubscribeMore(id: Id, channel: Channel)
    | Publish(args: seq<Bytes>, sender: Sender)
    | Send(sender: Sender, frame: Frame)
    | Unsubscribe(id: Id, removed: seq<Channel>)
    | Cleanup(id: Id)
    | Start(task: TaskId)
    | Finish(task: TaskId, ok: bool)

  function Text(s: string): Bytes {
    seq(|s|, i requires 0 <= i < |s| => (s[i] as int) % 256)
  }

  /** A machine word read as a signed number. */
  function Signed64(n: nat): Int64 {
    if n % U64 <= I64_MAX then n % U64 else n % U64 - U64
  }

  function Message(ch: Channel, text: Bytes): Frame {
    Array([BulkString(Text("message")), BulkString(ch), BulkString(text)])
  }

  function Confirmation(word: Bytes, ch: Channel, count: nat): Frame {
    Array([BulkString(word), BulkString(ch), Integer(Signed64(count))])
  }

  function Joined(ch: Channel, count: nat): Frame {
    Confirmation(Text("subscribe"), ch, count)
  }

  function WrongArguments(): Frame {
    Error(Text("ERR wrong number of arguments for 'PUBLISH' command"))
  }

  /** Saturating subtraction. */
  function Minus(a: nat, b: nat): nat {
    if a < b then 0 else a - b
  }

  /** The replies to an unsubscription that leaves `remaining` channels. */
  function Farewells(removed: seq<Channel>, remaining: nat): seq<Frame> {
    seq(|removed|, i requires 0 <= i < |removed| =>
      Confirmation(Text("unsubscribe"), removed[i], Minus(remaining, |removed| - 1 - i)))
  }

  function Listening(channels: map<Channel, seq<Id>>, ch: Channel): seq<Id> {
    if ch in channels then channels[ch] else []
  }

  function Enrol(channels: map<Channel, seq<Id>>, ch: Channel, id: Id): map<Channel, seq<Id>> {
    channels[ch := Listening(channels, ch) + [id]]
  }

  function CountOf(conns: map<Id, Conn>, id: Id): nat {
    if id in conns then conns[id].count else 0
  }

  function Recount(conns: map<Id, Conn>, id: Id, count: nat): map<Id, Conn> {
    if id in conns then conns[id := conns[id].(count := count)] else conns
  }

  function Forget(ids: seq<Id>, id: Id): seq<Id> {
    if ids == [] then [] else (if ids[0] == id then [] else [ids[0]]) + Forget(ids[1..], id)
  }

  /** Remove `id` from the channels that satisfy `chosen`; empty channels disappear. */
  function Withdraw(channels: map<Channel, seq<Id>>, chosen: set<Channel>, id: Id): map<Channel, seq<Id>> {
    map ch | ch in channels && (ch in chosen ==> Forget(channels[ch], id) != []) ::
      if ch in chosen then Forget(channels[ch], id) else channels[ch]
  }

  ghost function WithChannels(st: State, channels: map<Channel, seq<Id>>): State {
    st.(net := st.net.(channels := channels))
  }

  ghost function Counted(st: State, id: Id, count: nat): State {
    st.(net := st.net.(conns := Recount(st.net.conns, id, count)))
  }

  /** What is left of a session after an unsubscription. */
  ghost function Unsubscribed(st: State, id: Id, removed: seq<Channel>): State {
    var remaining := Minus(CountOf(st.net.conns, id), |removed|);
    var st1 := Counted(WithChannels(st, Withdraw(st.net.channels, Elems(removed), id)), id, remaining);
    if remaining == 0 && id in st1.net.conns && st1.net.conns[id].write.Some? then Leave(st1, id) else st1
  }

  /** Send through whatever state the session is in, then flush. */
  ghost function Deliver(st: State, sender: Sender, f: Frame, flush: seq<Id>): State {
    match sender
    case Plain(s) => if s in st.net.normals then StartReply(st, s, f, flush) else Strand(st, flush)
    case Subscriber(id) => SendPub(st, id, f, flush)
  }

  /** After the write of a session: flush what it published. */
  ghost function Resume(st: State, flush: seq<Id>, ok: bool): State {
    if ok then FlushAll(st, flush) else Strand(st, flush)
  }

  /** Events of tasks or sockets that do not exist change nothing. */
  ghost function Next(st: State, e: Event): State
    requires Base(st, false)
  {
    match e
    case Accept(s) => if s in st.led.place then st else Connect(st, s)
    case Subscribe(s, ch) =>
      if s !in st.net.normals then st
      else SendPub(WithChannels(Join(st, s), Enrol(st.net.channels, ch, st.net.nextId)), st.net.nextId, Joined(ch, 1), [])
    case SubscribeMore(id, ch) =>
      var st1 := Counted(WithChannels(st, Enrol(st.net.channels, ch, id)), id, CountOf(st.net.conns, id) + 1);
      SendPub(st1, id, Joined(ch, CountOf(st1.net.conns, id)), [])
    case Publish(args, sender) =>
      if |args| < 2 then Deliver(st, sender, WrongArguments(), [])
      else
        var subs := Listening(st.net.channels, args[0]);
        Deliver(QueueAll(st, subs, Message(args[0], args[1])), sender, Integer(Signed64(|subs|)), Present(st.net.conns.Keys, subs))
    case Send(sender, f) => Deliver(st, sender, f, [])
    case Unsubscribe(id, removed) => Unsubscribed(st, id, removed)
    case Cleanup(id) => Close(WithChannels(st, Withdraw(st.net.channels, st.net.channels.Keys, id)), id)
    case Start(t) => if t in st.net.tasks && st.net.tasks[t].Spawned? then Begin(st, t) else st
    case Finish(t, ok) =>
      if t !in st.net.tasks then st
      else match st.net.tasks[t]
        case Spawned(_, _) => st
        case Writing(_, _) => if ok then Written(st, t) else Broke(st, t)
        case Inline(_, _, flush) => Resume(if ok then Written(st, t) else Broke(st, t), flush, ok)
        case Replying(_, flush) => Resume(if ok then Replied(st, t) else HungUp(st, t), flush, ok)
  }

  lemma ChannelsOk(st: State, channels: map<Channel, seq<Id>>, debt: set<Id>, inOrder: bool)
    requires Base(st, inOrder) && Awake(st, debt)
    ensures Base(WithChannels(st, channels), inOrder) && Awake(WithChannels(st, channels), debt)
  {
    SameWriters(st, WithChannels(st, channels), inOrder);
    AwakeStep(st, WithChannels(st, channels), debt, debt);
  }

  lemma DeliverOk(st: State, sender: Sender, f: Frame, flush: seq<Id>, debt: set<Id>, inOrder: bool)
    requires Base(st, inOrder) && Awake(st, debt) && debt <= Elems(flush)
    ensures Inv(Deliver(st, sender, f, flush), inOrder)
  {
    hide Base, Awake;
    assert debt - Elems(flush) == {};
    match sender
    case Plain(s) =>
      if s in st.net.normals { StartReplyOk(st, s, f, flush, debt, inOrder); } else { StrandOk(st, flush, debt, inOrder); }
    case Subscriber(id) =>
      assert debt - {id} - Elems(flush) == {};
      SendPubOk(st, id, f, flush, debt, inOrder);
  }

  lemma ResumeOk(st: State, flush: seq<Id>, ok: bool, debt: set<Id>, inOrder: bool)
    requires Base(st, inOrder) && Awake(st, debt) && debt <= Elems(flush)
    ensures Inv(Resume(st, flush, ok), inOrder)
  {
    hide Base, Awake;
    assert debt - Elems(flush) == {};
    if ok { FlushAllOk(st, flush, debt, inOrder); } else { StrandOk(st, flush, debt, inOrder); }
  }

  lemma Sums(debt: set<Id>, id: Id)
    ensures debt + {} == debt && debt - {id} - Elems([]) == debt - {id} && {id} + debt - {id} == debt - {id}
  {
  }

  lemma FinishOk(st: State, t: TaskId, ok: bool, inOrder: bool)
    requires Inv(st, inOrder) && Base(st, false)
    ensures Inv(Next(st, Finish(t, ok)), inOrder)
  {
    hide Base, Awake, Written, Broke, Replied, HungUp, Resume;
    if t in st.net.tasks {
      match st.net.tasks[t]
      case Spawned(_, _) =>
      case Writing(_, _) =>
        Sums({}, 0);
        if ok { WrittenOk(st, t, {}, inOrder); } else { BrokeOk(st, t, {}, inOrder); }
      case Inline(_, _, flush) =>
        assert {} + Elems(flush) == Elems(flush);
        if ok { WrittenOk(st, t, {}, inOrder); } else { BrokeOk(st, t, {}, inOrder); }
        ResumeOk(if ok then Written(st, t) else Broke(st, t), flush, ok, Elems(flush), inOrder);
      case Replying(_, flush) =>
        assert {} + Elems(flush) == Elems(flush);
        if ok { RepliedOk(st, t, {}, inOrder); } else { HungUpOk(st, t, {}, inOrder); }
        ResumeOk(if ok then Replied(st, t) else HungUp(st, t), flush, ok, Elems(flush), inOrder);
    }
  }

  lemma CountedOk(st: State, id: Id, count: nat, debt: set<Id>, inOrder: bool)
    requires Base(st, inOrder) && Awake(st, debt)
    ensures Base(Counted(st, id, count), inOrder) && Awake(Counted(st, id, count), debt)
  {
    SameWriters(st, Counted(st, id, count), inOrder);
    AwakeStep(st, Counted(st, id, count), debt, debt);
  }

  lemma SubscribeOk(st: State, s: Socket, ch: Channel, inOrder: bool)
    requires Inv(st, inOrder) && Base(st, false)
    ensures Inv(Next(st, Subscribe(s, ch)), inOrder)
  {
    hide Base, Awake, SendPub;
    if s in st.net.normals {
      var id := st.net.nextId;
      JoinOk(st, s, {}, inOrder);
      var st1 := Join(st, s);
      ChannelsOk(st1, Enrol(st.net.channels, ch, id), {} + {id}, inOrder);
      SendPubOk(WithChannels(st1, Enrol(st.net.channels, ch, id)), id, Joined(ch, 1), [], {} + {id}, inOrder);
      assert {} + {id} - {id} - Elems([]) == {};
    }
  }

  lemma SubscribeMoreOk(st: State, id: Id, ch: Channel, inOrder: bool)
    requires Inv(st, inOrder) && Base(st, false)
    ensures Inv(Next(st, SubscribeMore(id, ch)), inOrder)
  {
    hide Base, Awake, SendPub, Enrol;
    var st0 := WithChannels(st, Enrol(st.net.channels, ch, id));
    ChannelsOk(st, Enrol(st.net.channels, ch, id), {}, inOrder);
    CountedOk(st0, id, CountOf(st.net.conns, id) + 1, {}, inOrder);
    var st1 := Counted(st0, id, CountOf(st.net.conns, id) + 1);
    SendPubOk(st1, id, Joined(ch, CountOf(st1.net.conns, id)), [], {}, inOrder);
    Sums({}, id);
  }

  lemma UnsubscribeOk(st: State, id: Id, removed: seq<Channel>, inOrder: bool)
    requires Inv(st, inOrder) && Base(st, false)
    ensures Inv(Next(st, Unsubscribe(id, removed)), inOrder)
  {
    hide Base, Awake, Withdraw, Leave;
    var st0 := WithChannels(st, Withdraw(st.net.channels, Elems(removed), id));
    ChannelsOk(st, Withdraw(st.net.channels, Elems(removed), id), {}, inOrder);
    var remaining := Minus(CountOf(st.net.conns, id), |removed|);
    CountedOk(st0, id, remaining, {}, inOrder);
    var st1 := Counted(st0, id, remaining);
    if remaining == 0 && id in st1.net.conns && st1.net.conns[id].write.Some? { LeaveOk(st1, id, {}, inOrder); }
  }

  lemma PublishOk(st: State, args: seq<Bytes>, sender: Sender, inOrder: bool)
    requires Inv(st, inOrder) && Base(st, false)
    ensures Inv(Next(st, Publish(args, sender)), inOrder)
  {
    hide Base, Awake, Deliver, QueueAll, Message, WrongArguments;
    if |args| < 2 {
      DeliverOk(st, sender, WrongArguments(), [], {}, inOrder);
    } else {
      var subs := Listening(st.net.channels, args[0]);
      var flush := Present(st.net.conns.Keys, subs);
      QueueAllOk(st, subs, Message(args[0], args[1]), {}, inOrder);
      assert {} + Elems(flush) == Elems(flush);
      DeliverOk(QueueAll(st, subs, Message(args[0], args[1])), sender, Integer(Signed64(|subs|)), flush, Elems(flush), inOrder);
    }
  }

  /** Exactly the starts of write tasks that reorder two filled buffers overtake. */
  ghost predicate Overtakes(st: State, e: Event) {
    e.Start? && OvertakenAt(st, e.task)
  }

  /** Every step keeps the invariant; the order too, unless it overtakes. */
  lemma NextOk(st: State, e: Event, inOrder: bool)
    requires Inv(st, inOrder) && Base(st, false) && (inOrder ==> !Overtakes(st, e))
    ensures Inv(Next(st, e), inOrder)
  {
    hide Base, Awake, Deliver, SendPub, Unsubscribed, Close, Begin, Connect, Listening, Withdraw;
    match e
    case Accept(s) => if s !in st.led.place { ConnectOk(st, s, {}, inOrder); }
    case Subscribe(s, ch) => SubscribeOk(st, s, ch, inOrder);
    case SubscribeMore(id, ch) => SubscribeMoreOk(st, id, ch, inOrder);
    case Publish(args, sender) => PublishOk(st, args, sender, inOrder);
    case Send(sender, f) => DeliverOk(st, sender, f, [], {}, inOrder);
    case Unsubscribe(id, removed) => UnsubscribeOk(st, id, removed, inOrder);
    case Cleanup(id) =>
      ChannelsOk(st, Withdraw(st.net.channels, st.net.channels.Keys, id), {}, inOrder);
      CloseOk(WithChannels(st, Withdraw(st.net.channels, st.net.channels.Keys, id)), id, {}, inOrder);
    case Start(t) => if t in st.net.tasks && st.net.tasks[t].Spawned? { BeginOk(st, t, {}, inOrder); }
    case Finish(t, ok) => FinishOk(st, t, ok, inOrder);
  }

  /** An overtaking start does lose the order. */
  lemma OvertakingReorders(st: State, e: Event)
    requires Inv(st, true) && Base(st, false) && Overtakes(st, e)
    ensures !Base(Next(st, e), true)
  {
    hide Account;
    var t := e.task;
    var st', id, cw := Next(st, e), st.net.tasks[t].id, st.net.tasks[t].cw;
    HeldConn(st, t, true);
    AccountSwap(st.led.queued[cw.sock], st.led.sent[cw.sock], cw.buffer, st.net.conns[id].io, true);
    assert !ConnOk(st', id, true);
  }

  // ---- Main results ------------------------------------------------------------------------------

  const Empty := State(Net(map[], map[], map[], map[], 0, 0), Ledger(map[], map[], map[], map[], map[], {}))

  lemma EmptyOk()
    ensures Inv(Empty, true) && Inv(Empty, false)
  {
  }

  /** The state after a sequence of events, from the empty server. */
  ghost function After(events: seq<Event>): (st: State)
    ensures Inv(st, false)
    decreases |events|
  {
    if events == [] then
      EmptyOk();
      Empty
    else
      NextOk(After(events[..|events| - 1]), Last(events), false);
      Next(After(events[..|events| - 1]), Last(events))
  }

  /** Conservation: in every reachable state, for every connection whose write
   *  has not failed, the frames appended are those written, those in the
   *  in-flight buffer and those in the io buffer; and the write half and the
   *  swap buffer are both home or both out. */
  lemma Conservation(events: seq<Event>, id: Id)
    requires id in After(events).net.conns && !After(events).net.conns[id].cancelled
    ensures var st := After(events); var c := st.net.conns[id];
            && id in st.led.sockOf && var s := st.led.sockOf[id];
            && s in st.led.queued && s in st.led.sent && (c.write.Some? <==> c.swap.Some?)
            && (c.write.Some? ==> c.write.value == s && multiset(st.led.queued[s]) == multiset(st.led.sent[s]) + multiset(c.io))
            && (c.write.None? ==> exists t :: HeldBy(st, id, t, s) && Books(st, s, st.net.tasks[t].cw.buffer, c.io, false))
            && (forall t, u :: HeldBy(st, id, t, s) && HeldBy(st, id, u, s) ==> t == u)
  {
    var st := After(events);
    assert ConnOk(st, id, false);
    var s := st.led.sockOf[id];
    forall t | HeldBy(st, id, t, s) ensures id in st.led.holder && t == st.led.holder[id] { assert TaskOk(st, t, false); }
  }

  /** No lost wake-up: when no writer is in flight and no publisher is before
   *  its flush loop, a connection has frames left to write exactly if it was
   *  stranded by a failed publisher and nobody took its writer since, or if a
   *  write to it failed; every other one has its writer home and received what
   *  was appended for it. */
  lemma NoLostWakeup(events: seq<Event>, id: Id)
    requires id in After(events).net.conns
    requires forall t :: t in After(events).net.tasks ==> After(events).net.tasks[t].Replying? && After(events).net.tasks[t].flush == []
    ensures var st := After(events); var c := st.net.conns[id];
            && (c.write.None? <==> c.cancelled)
            && (!c.cancelled ==> (c.io != [] <==> id in st.led.stranded))
    ensures var st := After(events);
            !st.net.conns[id].cancelled && id !in st.led.stranded ==>
              id in st.led.sockOf && var s := st.led.sockOf[id];
              s in st.led.queued && s in st.led.sent && multiset(st.led.queued[s]) == multiset(st.led.sent[s])
  {
    var st := After(events);
    assert ConnOk(st, id, false);
    assert Laden(st, id) <==> st.net.conns[id].write.Some? && st.net.conns[id].io != [];
    forall t ensures !Owes(st.net.tasks, t, id) { }
  }

  // ---- Who strands, and who helps ----------------------------------------------------------------

  /** The flush list that a step drops. */
  ghost function Dropped(st: State, e: Event): seq<Id> {
    match e
    case Finish(t, false) =>
      if t in st.net.tasks && (st.net.tasks[t].Inline? || st.net.tasks[t].Replying?) then st.net.tasks[t].flush else []
    case Publish(args, sender) =>
      if |args| >= 2 && !Connected(st, sender) then Present(st.net.conns.Keys, Listening(st.net.channels, args[0])) else []
    case _ => []
  }

  ghost predicate Connected(st: State, sender: Sender) {
    match sender case Plain(s) => s in st.net.normals case Subscriber(id) => id in st.net.conns
  }

  /** Taking the writer of a stranded connection helps it. */
  lemma TriggerHelps(st: State, id: Id, inOrder: bool)
    requires Inv(st, inOrder)
    ensures id !in Trigger(st, id).led.stranded && Trigger(st, id).led.stranded <= st.led.stranded
  {
    assert id in st.led.stranded ==> Laden(st, id);
    if id in st.net.conns { assert ConnOk(st, id, inOrder); }
  }

  lemma {:induction false} FlushHelps(st: State, ids: seq<Id>)
    ensures FlushAll(st, ids).led.stranded <= st.led.stranded
    decreases |ids|
  {
    if ids != [] { FlushHelps(Trigger(st, ids[0]), ids[1..]); }
  }

  lemma {:induction false} QueueStrandsNone(st: State, ids: seq<Id>, f: Frame)
    ensures QueueAll(st, ids, f).led.stranded == st.led.stranded && QueueAll(st, ids, f).net.conns.Keys == st.net.conns.Keys
    ensures QueueAll(st, ids, f).net.normals == st.net.normals
    decreases |ids|
  {
    if ids != [] {
      QueueKeys(st, ids[0], f);
      QueueStrandsNone(Queue(st, ids[0], f), ids[1..], f);
    }
  }

  lemma DeliverStrands(st: State, sender: Sender, f: Frame, flush: seq<Id>)
    ensures Deliver(st, sender, f, flush).led.stranded <= st.led.stranded + if Connected(st, sender) then {} else Elems(flush)
  {
    hide FlushAll;
    if sender.Subscriber? && sender.id in st.net.conns { FlushHelps(Queue(st, sender.id, f), flush); }
  }

  lemma {:induction false} PresentAmong(conns: set<Id>, ids: seq<Id>, id: Id)
    ensures id in Present(conns, ids) <==> id in ids && id in conns
    decreases |ids|
  {
    if ids != [] { PresentAmong(conns, ids[1..], id); }
  }

  /** Only a publisher that fails before its flush loop strands a connection: one
   *  whose reply cannot be written, or who is gone; and only a connection that it
   *  should have woken. */
  lemma OnlyFailuresStrand(st: State, e: Event, id: Id)
    requires Inv(st, false) && id in Next(st, e).led.stranded && id !in st.led.stranded
    ensures match e
            case Finish(t, false) =>
              t in st.net.tasks && (st.net.tasks[t].Inline? || st.net.tasks[t].Replying?) && id in st.net.tasks[t].flush
            case Publish(args, sender) =>
              && |args| >= 2 && args[0] in st.net.channels && id in st.net.channels[args[0]] && id in st.net.conns
              && (match sender case Plain(s) => s !in st.net.normals case Subscriber(j) => j !in st.net.conns)
            case _ => false
  {
    hide Base, Awake, Next;
    OnlyDropped(st, e, id);
    if e.Publish? && |e.args| >= 2 { PresentAmong(st.net.conns.Keys, Listening(st.net.channels, e.args[0]), id); }
  }

  lemma OnlyDropped(st: State, e: Event, id: Id)
    requires Inv(st, false) && id in Next(st, e).led.stranded && id !in st.led.stranded
    ensures id in Dropped(st, e)
  {
    hide Base, Awake, Deliver, FlushAll, QueueAll, Enrol, Withdraw, Listening, Present, Message, Joined, Laden;
    match e
    case Subscribe(s, ch) =>
      if s in st.net.normals {
        DeliverStrands(WithChannels(Join(st, s), Enrol(st.net.channels, ch, st.net.nextId)), Subscriber(st.net.nextId), Joined(ch, 1), []);
        DeliverSub(WithChannels(Join(st, s), Enrol(st.net.channels, ch, st.net.nextId)), st.net.nextId, Joined(ch, 1), []);
      }
    case SubscribeMore(i, ch) =>
      var st1 := Counted(WithChannels(st, Enrol(st.net.channels, ch, i)), i, CountOf(st.net.conns, i) + 1);
      DeliverStrands(st1, Subscriber(i), Joined(ch, CountOf(st1.net.conns, i)), []);
      DeliverSub(st1, i, Joined(ch, CountOf(st1.net.conns, i)), []);
    case Publish(args, sender) =>
      if |args| < 2 {
        DeliverStrands(st, sender, WrongArguments(), []);
      } else {
        var subs := Listening(st.net.channels, args[0]);
        QueueStrandsNone(st, subs, Message(args[0], args[1]));
        DeliverStrands(QueueAll(st, subs, Message(args[0], args[1])), sender, Integer(Signed64(|subs|)), Present(st.net.conns.Keys, subs));
      }
    case Send(sender, f) => DeliverStrands(st, sender, f, []);
    case Finish(t, ok) => FinishStrands(st, t, ok);
    case _ =>
  }

  lemma FinishStrands(st: State, t: TaskId, ok: bool)
    requires Inv(st, false)
    ensures Next(st, Finish(t, ok)).led.stranded <= st.led.stranded + Elems(Dropped(st, Finish(t, ok)))
  {
    hide Base, Awake, FlushAll, Laden;
    if t in st.net.tasks && ok {
      match st.net.tasks[t]
      case Inline(_, _, flush) => FlushHelps(Written(st, t), flush);
      case Replying(_, flush) => FlushHelps(Replied(st, t), flush);
      case _ =>
    }
  }

  lemma DeliverSub(st: State, id: Id, f: Frame, flush: seq<Id>)
    ensures Deliver(st, Subscriber(id), f, flush) == SendPub(st, id, f, flush)
  {
  }
}
