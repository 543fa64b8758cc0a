/** Progress of the pub/sub protocol: left to themselves, the suspended tasks
 *  come to rest. A task may respawn, but only boundedly often. */
module PubSubProgress {
  import opened Basics
  import opened Resp
  import opened PubSub
  import opened PubSubRuns

  // ---- How many steps a task can still cause ------------------------------------------

  /** A write followed by a respawn when more has arrived. */
  ghost function WriteWeight(net: Net, id: Id): nat {
    if id in net.conns && net.conns[id].io != [] then 3 else 1
  }

  ghost function TaskWeight(net: Net, task: Task): nat {
    match task
    case Spawned(id, cw) => if id !in net.conns then 1 else if cw.buffer == [] then 2 else 4
    case Writing(id, _) => WriteWeight(net, id)
    case Inline(id, _, flush) => WriteWeight(net, id) + 4 * |flush|
    case Replying(_, flush) => 1 + 4 * |flush|
  }

  ghost function Weight(net: Net, t: TaskId): nat {
    if t in net.tasks then TaskWeight(net, net.tasks[t]) else 0
  }

  ghost function Total(net: Net, n: nat): nat {
    if n == 0 then 0 else Total(net, n - 1) + Weight(net, n - 1)
  }

  /** An upper bound on the steps that the suspended tasks can take. */
  ghost function Unrest(net: Net): nat {
    Total(net, net.nextTask)
  }

  lemma {:induction false} TotalChange(a: Net, b: Net, t: TaskId, n: nat)
    requires forall k: nat :: k < n && k != t ==> Weight(b, k) == Weight(a, k)
    ensures t < n ==> Total(b, n) + Weight(a, t) == Total(a, n) + Weight(b, t)
    ensures t >= n ==> Total(b, n) == Total(a, n)
    decreases n
  {
    if n > 0 { TotalChange(a, b, t, n - 1); }
  }

  /** Only task `t` and at most one new task are affected. */
  lemma UnrestChange(a: Net, b: Net, t: TaskId)
    requires t < a.nextTask && a.nextTask <= b.nextTask <= a.nextTask + 1
    requires forall k: nat :: k < a.nextTask && k != t ==> Weight(b, k) == Weight(a, k)
    ensures Unrest(b) + Weight(a, t) == Unrest(a) + Weight(b, t) + if b.nextTask > a.nextTask then Weight(b, a.nextTask) else 0
  {
    TotalChange(a, b, t, a.nextTask);
  }

  /** The weight of a task depends on its own connection only. */
  lemma OtherWeights(st: State, st': State, id: Id, ts: set<TaskId>)
    requires Base(st, false) && Same(st.net.conns, st'.net.conns, id) && SameTasks(st.net.tasks, st'.net.tasks, ts)
    requires id in st.net.conns ==> OwnTasks(st, id) <= ts
    requires id !in st.net.conns ==> id !in st'.net.conns
    ensures forall k: nat :: k !in ts ==> Weight(st'.net, k) == Weight(st.net, k)
  {
    hide Base;
    if id in st.net.conns { Own(st, id, false); }
  }

  // ---- What each move costs ----------------------------------------------------------------

  lemma TriggerCost(st: State, id: Id)
    requires Base(st, false)
    ensures Base(Trigger(st, id), false) && Unrest(Trigger(st, id).net) <= Unrest(st.net) + 4
  {
    hide Base, ConnOk, Unrest;
    if id in st.net.conns && GetConnWriter(st.net.conns[id]).1.Some? {
      var c, cw := GetConnWriter(st.net.conns[id]).0, GetConnWriter(st.net.conns[id]).1.value;
      LendOk(st, id, Spawned(id, cw), {}, false);
      Unused(st, false);
      HomeOwnsNone(st, id);
      OtherWeights(st, Trigger(st, id), id, {st.net.nextTask});
      NewTaskCost(st.net, Trigger(st, id).net);
    }
  }

  lemma NewTaskCost(a: Net, b: Net)
    requires b.nextTask == a.nextTask + 1 && forall k: nat :: k < a.nextTask ==> Weight(b, k) == Weight(a, k)
    ensures Unrest(b) == Unrest(a) + Weight(b, a.nextTask)
  {
    TotalChange(a, b, a.nextTask, a.nextTask);
  }

  lemma HomeOwnsNone(st: State, id: Id)
    requires Base(st, false) && id in st.net.conns && st.net.conns[id].write.Some?
    ensures OwnTasks(st, id) == {}
  {
    assert ConnOk(st, id, false);
  }

  lemma {:induction false} FlushCost(st: State, ids: seq<Id>)
    requires Base(st, false)
    ensures Unrest(FlushAll(st, ids).net) <= Unrest(st.net) + 4 * |ids|
    decreases |ids|
  {
    hide Base, Unrest, Trigger;
    if ids != [] {
      TriggerCost(st, ids[0]);
      FlushCost(Trigger(st, ids[0]), ids[1..]);
    }
  }

  lemma TaskKnown(st: State, t: TaskId)
    requires Base(st, false) && t in st.net.tasks
    ensures t < st.net.nextTask && st.net.nextTask !in st.net.tasks
  {
    Unused(st, false);
    assert TaskOk(st, t, false);
  }

  lemma BeginCost(st: State, t: TaskId)
    requires Base(st, false) && t in st.net.tasks && st.net.tasks[t].Spawned?
    ensures Unrest(Begin(st, t).net) < Unrest(st.net)
  {
    hide Base, Unrest;
    TaskKnown(st, t);
    var id := st.net.tasks[t].id;
    if id in st.net.conns { HeldConn(st, t, false); }
    OtherWeights(st, Begin(st, t), id, {t});
    UnrestChange(st.net, Begin(st, t).net, t);
  }

  /** The publisher's loop that a task still has to run. */
  ghost function FlushOf(task: Task): seq<Id> {
    if task.Inline? || task.Replying? then task.flush else []
  }

  lemma WrittenCost(st: State, t: TaskId)
    requires Base(st, false) && t in st.net.tasks && !st.net.tasks[t].Replying? && !st.net.tasks[t].Spawned?
    ensures Unrest(Written(st, t).net) + 4 * |FlushOf(st.net.tasks[t])| < Unrest(st.net)
  {
    hide Base, Unrest, ConnOk, TaskOk;
    TaskKnown(st, t);
    var id := st.net.tasks[t].id;
    if id in st.net.conns { HeldConn(st, t, false); }
    OtherWeights(st, Written(st, t), id, {t, st.net.nextTask});
    UnrestChange(st.net, Written(st, t).net, t);
  }

  lemma BrokeCost(st: State, t: TaskId)
    requires Base(st, false) && t in st.net.tasks && !st.net.tasks[t].Replying? && !st.net.tasks[t].Spawned?
    ensures Unrest(Broke(st, t).net) + 4 * |FlushOf(st.net.tasks[t])| < Unrest(st.net)
  {
    hide Base, Unrest;
    TaskKnown(st, t);
    var id := st.net.tasks[t].id;
    if id in st.net.conns { HeldConn(st, t, false); }
    OtherWeights(st, Broke(st, t), id, {t});
    UnrestChange(st.net, Broke(st, t).net, t);
  }

  lemma ReplyCost(st: State, t: TaskId, st': State)
    requires Base(st, false) && t in st.net.tasks && st.net.tasks[t].Replying?
    requires st'.net.conns == st.net.conns && st'.net.tasks == st.net.tasks - {t} && st'.net.nextTask == st.net.nextTask
    ensures Unrest(st'.net) + 4 * |st.net.tasks[t].flush| < Unrest(st.net)
  {
    hide Base, Unrest;
    TaskKnown(st, t);
    Unused(st, false);
    OtherWeights(st, st', st.net.nextId, {t});
    UnrestChange(st.net, st'.net, t);
  }

  // ---- Main results ------------------------------------------------------------------------

  /** A step of an existing task. */
  ghost predicate Enabled(st: State, e: Event) {
    match e
    case Start(t) => t in st.net.tasks && st.net.tasks[t].Spawned?
    case Finish(t, _) => t in st.net.tasks && !st.net.tasks[t].Spawned?
    case _ => false
  }

  lemma ResumeCost(st: State, flush: seq<Id>, ok: bool)
    requires Base(st, false)
    ensures Unrest(Resume(st, flush, ok).net) <= Unrest(st.net) + 4 * |flush|
  {
    hide Base, Unrest, FlushAll;
    if ok { FlushCost(st, flush); }
  }

  /** Every step of a task, failed or not, brings the tasks closer to rest. */
  lemma StepsRest(st: State, e: Event)
    requires Inv(st, false) && Enabled(st, e)
    ensures Unrest(Next(st, e).net) < Unrest(st.net)
  {
    hide Base, Awake, Unrest, Begin, Written, Broke, Replied, HungUp, Resume;
    match e
    case Start(t) => BeginCost(st, t);
    case Finish(t, ok) =>
      match st.net.tasks[t]
      case Writing(_, _) => if ok { WrittenCost(st, t); } else { BrokeCost(st, t); }
      case Inline(_, _, flush) =>
        if ok { WrittenCost(st, t); WrittenOk(st, t, {}, false); } else { BrokeCost(st, t); BrokeOk(st, t, {}, false); }
        ResumeCost(if ok then Written(st, t) else Broke(st, t), flush, ok);
      case Replying(_, flush) =>
        if ok { RepliedCost(st, t); RepliedOk(st, t, {}, false); } else { HungUpCost(st, t); HungUpOk(st, t, {}, false); }
        ResumeCost(if ok then Replied(st, t) else HungUp(st, t), flush, ok);
  }

  lemma RepliedCost(st: State, t: TaskId)
    requires Base(st, false) && t in st.net.tasks && st.net.tasks[t].Replying?
    ensures Unrest(Replied(st, t).net) + 4 * |st.net.tasks[t].flush| < Unrest(st.net)
  {
    ReplyCost(st, t, Replied(st, t));
  }

  lemma HungUpCost(st: State, t: TaskId)
    requires Base(st, false) && t in st.net.tasks && st.net.tasks[t].Replying?
    ensures Unrest(HungUp(st, t).net) + 4 * |st.net.tasks[t].flush| < Unrest(st.net)
  {
    ReplyCost(st, t, HungUp(st, t));
  }

  /** Nothing but steps of existing tasks. */
  ghost predicate Settling(st: State, events: seq<Event>)
    requires Inv(st, false)
    decreases |events|
  {
    events != [] ==>
      Enabled(st, events[0]) && (NextOk(st, events[0], false); Settling(Next(st, events[0]), events[1..]))
  }

  /** Without new events the tasks can take only boundedly many steps. */
  lemma {:induction false} SettlingEnds(st: State, events: seq<Event>)
    requires Inv(st, false) && Settling(st, events)
    ensures |events| <= Unrest(st.net)
    decreases |events|
  {
    hide Base, Awake, Next, Unrest;
    if events != [] {
      NextOk(st, events[0], false);
      StepsRest(st, events[0]);
      SettlingEnds(Next(st, events[0]), events[1..]);
    }
  }

  /** A step that lets some task go on, successfully. */
  lemma SomeStep(st: State) returns (e: Event)
    requires Inv(st, false) && st.net.tasks != map[]
    ensures Enabled(st, e) && Smooth(st, e)
  {
    var t :| t in st.net.tasks;
    e := if st.net.tasks[t].Spawned? then Start(t) else Finish(t, true);
  }

  /** Every run without failures can be carried on, by steps of its own tasks
   *  alone and without failures, until all tasks are done; then every subscriber
   *  has received exactly what was appended for it. */
  lemma {:induction false} ComesToRest(events: seq<Event>) returns (more: seq<Event>)
    requires AllSmooth(events)
    ensures AllSmooth(events + more) && After(events + more).net.tasks == map[] && |more| <= Unrest(After(events).net)
    ensures forall id :: id in After(events + more).net.conns ==> After(events + more).net.conns[id].io == []
    decreases Unrest(After(events).net)
  {
    hide Base, Awake, Next, Unrest;
    var st := After(events);
    if st.net.tasks == map[] {
      more := [];
      assert events + more == events;
      forall id | id in st.net.conns ensures st.net.conns[id].io == [] { EverythingDelivered(events, id); }
    } else {
      var e := SomeStep(st);
      AfterStep(events, e);
      StepsRest(st, e);
      assert (events + [e])[..|events|] == events;
      var rest := ComesToRest(events + [e]);
      more := [e] + rest;
      assert events + more == events + [e] + rest;
    }
  }
}
