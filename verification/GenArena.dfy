/** The generational arena that holds pub/sub connections.
 *
 * Keys carry a 32-bit generation that wraps around. The model counts the
 * removals of each slot without bound and states exactly when a key resolves. */
module GenArena {
  import opened Basics
  import FreeList
  import opened SlotVec

  const SENTINEL: nat := 0xFFFF_FFFF
  const GENERATIONS: nat := 0x1_0000_0000

  datatype Ticket = Ticket(idx: nat, generation: nat)

  datatype Cell<T> = Cell(data: Option<T>, generation: nat, nextFree: nat)

  // ---- What an arena means -------------------------------------------------------

  /** The occupied slots with their values, and how often each slot has been removed. */
  datatype Contents<T> = Contents(live: map<nat, T>, gone: seq<nat>)

  ghost predicate Resolves<T>(c: Contents<T>, key: Ticket) {
    key.idx in c.live && key.idx < |c.gone| && key.generation == c.gone[key.idx] % GENERATIONS
  }

  datatype Event<T> = Insert(idx: nat, value: T) | Remove(idx: nat) | Update(idx: nat, value: T) | Grow

  /** `b` has at least the slots of `a`; the new ones have never been removed. */
  ghost predicate Extends(a: seq<nat>, b: seq<nat>) {
    |a| <= |b| && forall s :: 0 <= s < |b| ==> b[s] == if s < |a| then a[s] else 0
  }

  ghost predicate Step<T>(a: Contents<T>, e: Event<T>, b: Contents<T>) {
    match e
    case Insert(i, v) => Extends(a.gone, b.gone) && i !in a.live && i < |b.gone| && b.live == a.live[i := v]
    case Remove(i) => i in a.live && i < |a.gone| && b == Contents(a.live - {i}, a.gone[i := a.gone[i] + 1])
    case Update(i, v) => i in a.live && b == a.(live := a.live[i := v])
    case Grow => Extends(a.gone, b.gone) && b.live == a.live
  }

  ghost predicate Run<T>(states: seq<Contents<T>>, events: seq<Event<T>>) {
    |states| == |events| + 1 && forall n :: 0 <= n < |events| ==> Step(states[n], events[n], states[n + 1])
  }

  ghost function Removals<T>(events: seq<Event<T>>, i: nat): nat {
    if events == [] then 0
    else Removals(events[..|events| - 1], i) + if Last(events).Remove? && Last(events).idx == i then 1 else 0
  }

  /** The value last written into slot `i`, starting from `v`. */
  ghost function Written<T>(events: seq<Event<T>>, i: nat, v: T): T {
    if events == [] then v
    else if Last(events).Update? && Last(events).idx == i then Last(events).value
    else Written(events[..|events| - 1], i, v)
  }

  /** Over a whole run, slot `i`, occupied at the start, has been removed as often
   *  as the run removed it; until the first removal it holds its own value. */
  lemma {:induction false} SlotLife<T>(states: seq<Contents<T>>, events: seq<Event<T>>, i: nat)
    requires Run(states, events) && i in states[0].live && i < |states[0].gone|
    ensures i < |Last(states).gone| && Last(states).gone[i] == states[0].gone[i] + Removals(events, i)
    ensures Removals(events, i) == 0 ==>
              i in Last(states).live && Last(states).live[i] == Written(events, i, states[0].live[i])
    decreases |events|
  {
    if events != [] {
      var states', events' := states[..|states| - 1], events[..|events| - 1];
      assert forall n :: 0 <= n < |events'| ==> events'[n] == events[n];
      SlotLife(states', events', i);
      assert Step(states[|events| - 1], events[|events| - 1], states[|events|]);
    }
  }

  /** A key issued for slot `i` resolves later exactly when the slot is occupied
   *  and was removed a multiple of 2^32 times in between. */
  lemma KeyLife<T>(states: seq<Contents<T>>, events: seq<Event<T>>, key: Ticket)
    requires Run(states, events) && Resolves(states[0], key)
    ensures Resolves(Last(states), key) <==> key.idx in Last(states).live && Removals(events, key.idx) % 0x1_0000_0000 == 0
  {
    SlotLife(states, events, key.idx);
    SameRemainder(states[0].gone[key.idx], Removals(events, key.idx));
  }

  /** While its slot has been removed fewer than 2^32 times, a key resolves
   *  until its removal, to its own value, and never afterwards. */
  lemma KeySafety<T>(states: seq<Contents<T>>, events: seq<Event<T>>, key: Ticket)
    requires Run(states, events) && Resolves(states[0], key) && Removals(events, key.idx) < 0x1_0000_0000
    ensures Resolves(Last(states), key) <==> Removals(events, key.idx) == 0
    ensures Resolves(Last(states), key) ==> Last(states).live[key.idx] == Written(events, key.idx, states[0].live[key.idx])
  {
    KeyLife(states, events, key);
    SlotLife(states, events, key.idx);
  }

  lemma RunMore<T>(states: seq<Contents<T>>, events: seq<Event<T>>, e: Event<T>, c: Contents<T>)
    requires Run(states, events) && Step(Last(states), e, c)
    ensures Run(states + [c], events + [e])
  {
    var states', events' := states + [c], events + [e];
    forall n | 0 <= n < |events'| ensures Step(states'[n], events'[n], states'[n + 1]) {
      if n < |events| { assert states'[n] == states[n] && states'[n + 1] == states[n + 1] && events'[n] == events[n]; }
    }
  }

  /** Emptying slot `i` and filling it with `v` again, `n` times. */
  lemma {:induction false} Recycle<T>(c: Contents<T>, i: nat, v: T, n: nat) returns (states: seq<Contents<T>>, events: seq<Event<T>>)
    requires i in c.live && i < |c.gone|
    ensures Run(states, events) && states[0] == c && Removals(events, i) == n && i in Last(states).live && i < |Last(states).gone|
    ensures n > 0 ==> Last(states).live[i] == v
    decreases n
  {
    if n == 0 {
      states, events := [c], [];
    } else {
      var states0, events0 := Recycle(c, i, v, n - 1);
      var a := Last(states0);
      var b := Contents(a.live - {i}, a.gone[i := a.gone[i] + 1]);
      var d := Contents(b.live[i := v], b.gone);
      RunMore(states0, events0, Event.Remove(i), b);
      RunMore(states0 + [b], events0 + [Event.Remove(i)], Event.Insert(i, v), d);
      states, events := states0 + [b] + [d], events0 + [Event.Remove(i)] + [Event.Insert(i, v)];
      var events1 := events0 + [Event.Remove(i)];
      assert events1[..|events1| - 1] == events0 && events[..|events| - 1] == events1;
    }
  }

  /** The bound is sharp: from any state, 2^32 reuses of its slot make a stale
   *  key resolve again, to the value of a later owner. */
  lemma StaleKeyReturns<T>(c: Contents<T>, key: Ticket, v: T) returns (states: seq<Contents<T>>, events: seq<Event<T>>)
    requires Resolves(c, key)
    ensures Run(states, events) && states[0] == c && Removals(events, key.idx) == 0x1_0000_0000
    ensures Resolves(Last(states), key) && Last(states).live[key.idx] == v
  {
    states, events := Recycle(c, key.idx, v, GENERATIONS);
    KeyLife(states, events, key);
  }

  lemma SameRemainder(a: nat, d: nat)
    ensures (a + d) % GENERATIONS == a % GENERATIONS <==> d % GENERATIONS == 0
  {
  }

  // ---- How it is laid out ----------------------------------------------------------

  function Link(n: nat): Option<nat> {
    if n == SENTINEL then None else Some(n)
  }

  ghost predicate CellOk<T>(cell: Cell<T>, th: Thread, c: Contents<T>, s: nat)
    requires s < |c.gone|
  {
    && cell.generation == c.gone[s] % GENERATIONS
    && if cell.data.Some? then s in c.live && c.live[s] == cell.data.value && s !in th.link
       else s !in c.live && s in th.link && th.link[s] == Link(cell.nextFree)
  }

  /** Every slot is occupied or on the free list, and the list threads exactly
   *  the empty slots. */
  ghost predicate CellsOk<T>(slots: seq<Cell<T>>, freeHead: nat, th: Thread, c: Contents<T>) {
    && |slots| == |c.gone| && |slots| <= SENTINEL
    && (forall s {:trigger CellOk(slots[s], th, c, s)} :: 0 <= s < |slots| ==> CellOk(slots[s], th, c, s))
    && (forall s :: s in c.live ==> s < |slots|)
    && (forall s :: s in th.link ==> s < |slots|)
    && FreeList.Threaded(th.link, Link(freeHead), th.depth, th.list)
  }

  /** One slot is written and everything else stays. */
  lemma CellWritten<T>(slots: seq<Cell<T>>, freeHead: nat, th: Thread, c: Contents<T>, i: nat,
                     cell: Cell<T>, freeHead': nat, th': Thread, c': Contents<T>)
    requires CellsOk(slots, freeHead, th, c) && i < |slots| && |c'.gone| == |c.gone| && CellOk(cell, th', c', i)
    requires forall s :: 0 <= s < |c.gone| && s != i ==> c'.gone[s] == c.gone[s]
    requires forall s :: s != i ==> (s in th'.link <==> s in th.link) && (s in c'.live <==> s in c.live)
    requires forall s :: s != i && s in th.link ==> th'.link[s] == th.link[s]
    requires forall s :: s != i && s in c.live ==> c'.live[s] == c.live[s]
    requires FreeList.Threaded(th'.link, Link(freeHead'), th'.depth, th'.list)
    ensures CellsOk(slots[i := cell], freeHead', th', c')
  {
    var slots' := slots[i := cell];
    forall s | 0 <= s < |slots| ensures CellOk(slots'[s], th', c', s) {
      assert CellOk(slots[s], th, c, s);
    }
  }

  /** Threading the fresh slots `from .. start + n - 1`, each linking to the next
   *  and the last to the old head. */
  lemma {:induction false} GrowAbove(th: Thread, head: Option<nat>, start: nat, n: nat, from: nat) returns (th': Thread)
    requires FreeList.Threaded(th.link, head, th.depth, th.list) && forall s :: s in th.link ==> s < start
    requires start <= from <= start + n
    ensures FreeList.Threaded(th'.link, if from == start + n then head else Some(from), th'.depth, th'.list)
    ensures forall s :: s in th'.link <==> s in th.link || from <= s < start + n
    ensures forall s :: s in th.link ==> th'.link[s] == th.link[s]
    ensures forall s :: from <= s < start + n ==> th'.link[s] == if s + 1 < start + n then Some(s + 1) else head
    decreases start + n - from
  {
    if from == start + n {
      th' := th;
    } else {
      var th1 := GrowAbove(th, head, start, n, from + 1);
      var head1 := if from + 1 == start + n then head else Some(from + 1);
      FreeList.Push(th1.link, head1, th1.depth, th1.list, from);
      th' := th1.Pushed(head1, from);
    }
  }

  /** The slots that growing appends. */
  function Fresh<T>(start: nat, n: nat, total: nat, freeHead: nat): seq<Cell<T>>
    requires n <= total
  {
    seq(n, i requires 0 <= i => Cell(None, 0, if i + 1 < total then start + i + 1 else freeHead))
  }

  lemma GrowLaid<T>(slots: seq<Cell<T>>, freeHead: nat, th: Thread, c: Contents<T>, n: nat) returns (th': Thread, c': Contents<T>)
    requires CellsOk(slots, freeHead, th, c) && 0 < n && |slots| + n <= SENTINEL
    ensures c' == Contents(c.live, c.gone + seq(n, _ => 0))
    ensures CellsOk(slots + Fresh(|slots|, n, n, freeHead), |slots|, th', c')
  {
    var start := |slots|;
    th' := GrowAbove(th, Link(freeHead), start, n, start);
    c' := Contents(c.live, c.gone + seq(n, _ => 0));
    var slots' := slots + Fresh(start, n, n, freeHead);
    forall s | 0 <= s < |slots'| ensures CellOk(slots'[s], th', c', s) {
      if s < start { assert CellOk(slots[s], th, c, s); }
    }
  }

  class GenArena<T(==)> {
    var slots: seq<Cell<T>>
    var freeHead: nat
    var len: nat
    ghost var thread: Thread
    ghost var contents: Contents<T>

    ghost predicate Valid() reads this {
      CellsOk(slots, freeHead, thread, contents) && len == |contents.live|
    }

    constructor ()
      ensures Valid() && contents == Contents(map[], [])
    {
      slots, freeHead, len := [], SENTINEL, 0;
      thread := Thread(map[], map[], []);
      contents := Contents(map[], []);
    }

    /** Add free slots until there are `cap` of them. */
    method GrowTo(cap: nat)
      requires Valid() && cap <= SENTINEL
      modifies this
      ensures Valid() && contents.live == old(contents.live) && Extends(old(contents.gone), contents.gone)
      ensures |contents.gone| == if cap <= |old(contents.gone)| then |old(contents.gone)| else cap
      ensures old(|contents.gone|) < cap ==> freeHead == old(|slots|)
      ensures cap <= old(|contents.gone|) ==> unchanged(this)
    {
      var start := |slots|;
      if cap <= start {
        return;
      }
      var additional := cap - start;
      var grown := slots;
      for i := 0 to additional
        invariant grown == slots + Fresh(start, i, additional, freeHead)
      {
        var next := if i + 1 < additional then start + i + 1 else freeHead;
        grown := grown + [Cell(None, 0, next)];
      }
      ghost var th, c := GrowLaid(slots, freeHead, thread, contents, additional);
      slots, freeHead, thread, contents := grown, start, th, c;
    }

    /** Take a free slot, growing by one when there is none. */
    method Insert(value: T) returns (key: Ticket)
      requires Valid() && (freeHead != SENTINEL || |slots| < SENTINEL)
      modifies this
      ensures Valid() && Step(old(contents), Event.Insert(key.idx, value), contents)
      ensures Resolves(contents, key) && contents.live[key.idx] == value && len == old(len) + 1
      ensures if old(freeHead) == 0xFFFF_FFFF then |slots| == old(|slots|) + 1 else |slots| == old(|slots|) && key.idx == old(freeHead)
    {
      if freeHead == SENTINEL {
        GrowTo(|slots| + 1);
      }
      var idx := freeHead;
      InsertLaid(slots, freeHead, thread, contents, value);
      var cell := slots[idx];
      FreeList.AddSize(contents.live, idx, value);
      slots, freeHead, len := slots[idx := cell.(data := Some(value))], cell.nextFree, len + 1;
      contents, thread := contents.(live := contents.live[idx := value]), thread.Popped();
      key := Ticket(idx, cell.generation);
    }

    method Remove(key: Ticket) returns (res: Option<T>)
      requires Valid()
      modifies this
      ensures Valid() && (res.Some? <==> old(Resolves(contents, key)))
      ensures res.Some? ==>
                res.value == old(contents.live)[key.idx] && Step(old(contents), Event.Remove(key.idx), contents) && len == old(len) - 1
      ensures res.None? ==> unchanged(this)
    {
      if key.idx >= |slots| {
        return None;
      }
      var cell := slots[key.idx];
      assert CellOk(cell, thread, contents, key.idx);
      if cell.generation != key.generation || cell.data.None? {
        return None;
      }
      RemoveLaid(slots, freeHead, thread, contents, key.idx);
      FreeList.DropSize(contents.live, key.idx);
      var generation := (cell.generation + 1) % GENERATIONS;
      slots, len := slots[key.idx := Cell(None, generation, freeHead)], len - 1;
      thread := thread.Pushed(Link(freeHead), key.idx);
      contents := Contents(contents.live - {key.idx}, contents.gone[key.idx := contents.gone[key.idx] + 1]);
      freeHead := key.idx;
      res := cell.data;
    }

    /** Assigning through a mutable lookup. */
    method Update(key: Ticket, value: T) returns (found: bool)
      requires Valid()
      modifies this
      ensures Valid() && found == old(Resolves(contents, key))
      ensures found ==> Step(old(contents), Event.Update(key.idx, value), contents) && len == old(len)
      ensures !found ==> unchanged(this)
    {
      if key.idx >= |slots| {
        return false;
      }
      var cell := slots[key.idx];
      assert CellOk(cell, thread, contents, key.idx);
      if cell.generation != key.generation || cell.data.None? {
        return false;
      }
      var cell' := cell.(data := Some(value));
      CellWritten(slots, freeHead, thread, contents, key.idx, cell', freeHead, thread, contents.(live := contents.live[key.idx := value]));
      FreeList.KeepSize(contents.live, key.idx, value);
      slots := slots[key.idx := cell'];
      contents := contents.(live := contents.live[key.idx := value]);
      found := true;
    }

    method Get(key: Ticket) returns (res: Option<T>)
      requires Valid()
      ensures res.Some? <==> Resolves(contents, key)
      ensures res.Some? ==> res.value == contents.live[key.idx]
    {
      if key.idx >= |slots| {
        return None;
      }
      var cell := slots[key.idx];
      assert CellOk(cell, thread, contents, key.idx);
      if cell.generation == key.generation {
        res := cell.data;
      } else {
        res := None;
      }
    }

    /** The free list is acyclic and covers exactly the empty slots. */
    lemma FreeListComplete()
      requires Valid()
      ensures FreeList.Follows(thread.link, Link(freeHead), thread.list) && NoDup(thread.list)
      ensures forall s: nat :: s in thread.list <==> s < |slots| && slots[s].data.None?
      ensures forall s :: s in thread.list ==> s < |slots| && thread.link[s] == Link(slots[s].nextFree)
      ensures forall s: nat :: s in contents.live <==> s < |slots| && slots[s].data.Some?
    {
      FreeList.Walk(thread.link, Link(freeHead), thread.depth, thread.list);
      forall s: nat
        ensures s in thread.list <==> s < |slots| && slots[s].data.None?
        ensures s in thread.list ==> s < |slots| && thread.link[s] == Link(slots[s].nextFree)
        ensures s in contents.live <==> s < |slots| && slots[s].data.Some?
      {
        assert s in thread.list <==> s in Elems(thread.list);
        if s < |slots| { assert CellOk(slots[s], thread, contents, s); }
      }
    }
  }

  lemma InsertLaid<T>(slots: seq<Cell<T>>, freeHead: nat, th: Thread, c: Contents<T>, value: T)
    requires CellsOk(slots, freeHead, th, c) && freeHead != SENTINEL
    ensures freeHead < |slots| && freeHead !in c.live && th.list != []
    ensures var cell := slots[freeHead];
            && cell.generation == c.gone[freeHead] % GENERATIONS
            && CellsOk(slots[freeHead := cell.(data := Some(value))], cell.nextFree, th.Popped(), c.(live := c.live[freeHead := value]))
  {
    FreeList.Pop(th.link, Link(freeHead), th.depth, th.list);
    assert CellOk(slots[freeHead], th, c, freeHead);
    var cell := slots[freeHead];
    CellWritten(slots, freeHead, th, c, freeHead, cell.(data := Some(value)), cell.nextFree, th.Popped(), c.(live := c.live[freeHead := value]));
  }

  lemma RemoveLaid<T>(slots: seq<Cell<T>>, freeHead: nat, th: Thread, c: Contents<T>, i: nat)
    requires CellsOk(slots, freeHead, th, c) && i < |slots| && slots[i].data.Some?
    ensures i in c.live
    ensures CellsOk(slots[i := Cell(None, (slots[i].generation + 1) % GENERATIONS, freeHead)], i, th.Pushed(Link(freeHead), i),
                 Contents(c.live - {i}, c.gone[i := c.gone[i] + 1]))
  {
    assert CellOk(slots[i], th, c, i);
    FreeList.Push(th.link, Link(freeHead), th.depth, th.list, i);
    NextGeneration(c.gone[i]);
    CellWritten(slots, freeHead, th, c, i, Cell(None, (slots[i].generation + 1) % GENERATIONS, freeHead), i, th.Pushed(Link(freeHead), i),
              Contents(c.live - {i}, c.gone[i := c.gone[i] + 1]));
  }

  lemma NextGeneration(n: nat)
    ensures (n % GENERATIONS + 1) % GENERATIONS == (n + 1) % GENERATIONS
  {
  }
}
