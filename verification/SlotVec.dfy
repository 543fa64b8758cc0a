/** A vector of slots that recycles freed positions through an intrusive free
 *  list: the storage discipline of the overflow arena. The vector is owned by
 *  value, so an operation takes it and gives it back. */
module SlotVec {
  import opened Basics
  import FreeList

  datatype Slot<T> = Item(item: T) | NextFree(next: Option<nat>)

  datatype Vec<T> = Vec(slots: seq<Slot<T>>, freeHead: Option<nat>, count: nat)

  /** How the free positions are threaded. */
  datatype Thread = Thread(link: map<nat, Option<nat>>, depth: map<nat, nat>, list: seq<nat>) {
    ghost function Pushed(head: Option<nat>, s: nat): Thread {
      Thread(link[s := head], depth[s := |list|], list + [s])
    }

    ghost function Popped(): Thread
      requires list != []
    {
      Thread(link - {Last(list)}, depth - {Last(list)}, list[..|list| - 1])
    }
  }

  /** Every position is either free, with its link, or holds an item. */
  ghost predicate Laid<T>(slots: seq<Slot<T>>, link: map<nat, Option<nat>>, items: map<nat, T>) {
    && (forall s {:trigger link[s]} :: s in link ==> s < |slots| && slots[s] == NextFree(link[s]))
    && (forall s {:trigger items[s]} :: s in items ==> s < |slots| && slots[s] == Item(items[s]))
    && (forall s {:trigger slots[s]} :: 0 <= s < |slots| ==> s in link || s in items)
  }

  lemma LaidAt<T>(slots: seq<Slot<T>>, link: map<nat, Option<nat>>, items: map<nat, T>, s: nat)
    requires Laid(slots, link, items)
    ensures s in link ==> s < |slots| && slots[s] == NextFree(link[s])
    ensures s in items ==> s < |slots| && slots[s] == Item(items[s])
    ensures s < |slots| ==> s in link || s in items
  {
    assert s in link ==> link[s] == link[s];
    assert s in items ==> items[s] == items[s];
    assert s < |slots| ==> slots[s] == slots[s];
  }

  /** One position is written: it becomes free or occupied. */
  lemma LaidWrite<T>(slots: seq<Slot<T>>, link: map<nat, Option<nat>>, items: map<nat, T>,
                     slots': seq<Slot<T>>, link': map<nat, Option<nat>>, items': map<nat, T>, s: nat)
    requires Laid(slots, link, items) && s < |slots'| && |slots| <= |slots'| && (|slots'| > |slots| ==> |slots'| == |slots| + 1 && s == |slots|)
    requires forall q :: 0 <= q < |slots'| && q != s ==> slots'[q] == slots[q]
    requires forall q :: q != s ==> (q in link' <==> q in link) && (q in items' <==> q in items)
    requires forall q :: q != s && q in link' && q in link ==> link'[q] == link[q]
    requires forall q :: q != s && q in items' && q in items ==> items'[q] == items[q]
    requires if s in items' then s !in link' && slots'[s] == Item(items'[s]) else s in link' && slots'[s] == NextFree(link'[s])
    ensures Laid(slots', link', items')
  {
    forall q | q in link' ensures q < |slots'| && slots'[q] == NextFree(link'[q]) { LaidAt(slots, link, items, q); }
    forall q | q in items' ensures q < |slots'| && slots'[q] == Item(items'[q]) { LaidAt(slots, link, items, q); }
    forall q | 0 <= q < |slots'| ensures q in link' || q in items' { LaidAt(slots, link, items, q); }
  }

  /** The vector holds exactly `items`, and its free list threads the rest. */
  ghost predicate Holds<T>(v: Vec<T>, th: Thread, items: map<nat, T>) {
    && FreeList.Threaded(th.link, v.freeHead, th.depth, th.list)
    && Laid(v.slots, th.link, items)
    && v.count == |items|
  }

  lemma LaidReuse<T>(v: Vec<T>, th: Thread, items: map<nat, T>, x: T)
    requires Holds(v, th, items) && v.freeHead.Some?
    ensures th.list != [] && v.freeHead == Some(Last(th.list)) && Last(th.list) !in items
    ensures Last(th.list) < |v.slots| && v.slots[Last(th.list)].NextFree?
    ensures var s := Last(th.list);
            Holds(Vec(v.slots[s := Item(x)], v.slots[s].next, v.count + 1), th.Popped(), items[s := x])
  {
    hide Laid, FreeList.Threaded;
    FreeList.HeadListed(th.link, v.freeHead, th.depth, th.list);
    var s := Last(th.list);
    FreeList.Pop(th.link, v.freeHead, th.depth, th.list);
    LaidAt(v.slots, th.link, items, s);
    FreeList.AddSize(items, s, x);
    LaidWrite(v.slots, th.link, items, v.slots[s := Item(x)], th.Popped().link, items[s := x], s);
  }

  method Alloc<T>(v: Vec<T>, x: T, ghost th: Thread, ghost items: map<nat, T>) returns (v': Vec<T>, s: nat, ghost th': Thread)
    requires Holds(v, th, items)
    ensures s !in items && Holds(v', th', items[s := x])
  {
    if v.freeHead.Some? {
      LaidReuse(v, th, items, x);
      s := v.freeHead.value;
      v' := Vec(v.slots[s := Item(x)], v.slots[s].next, v.count + 1);
      th' := th.Popped();
    } else {
      s := |v.slots|;
      FreeList.AddSize(items, s, x);
      LaidAt(v.slots, th.link, items, s);
      LaidWrite(v.slots, th.link, items, v.slots + [Item(x)], th.link, items[s := x], s);
      v' := v.(slots := v.slots + [Item(x)], count := v.count + 1);
      th' := th;
    }
  }

  method Free<T>(v: Vec<T>, s: nat, ghost th: Thread, ghost items: map<nat, T>) returns (v': Vec<T>, ghost th': Thread)
    requires Holds(v, th, items) && s in items
    ensures Holds(v', th', items - {s})
  {
    LaidAt(v.slots, th.link, items, s);
    FreeList.Push(th.link, v.freeHead, th.depth, th.list, s);
    FreeList.DropSize(items, s);
    LaidWrite(v.slots, th.link, items, v.slots[s := NextFree(v.freeHead)], th.Pushed(v.freeHead, s).link, items - {s}, s);
    th' := th.Pushed(v.freeHead, s);
    v' := Vec(v.slots[s := NextFree(v.freeHead)], Some(s), v.count - 1);
  }

  /** Overwriting through a mutable borrow of an occupied slot. */
  method Put<T>(v: Vec<T>, s: nat, x: T, ghost th: Thread, ghost items: map<nat, T>) returns (v': Vec<T>)
    requires Holds(v, th, items) && s in items
    ensures Holds(v', th, items[s := x])
  {
    FreeList.KeepSize(items, s, x);
    LaidAt(v.slots, th.link, items, s);
    LaidWrite(v.slots, th.link, items, v.slots[s := Item(x)], th.link, items[s := x], s);
    v' := v.(slots := v.slots[s := Item(x)]);
  }

  /** Out-of-range positions make RadixOx panic; free ones answer None. */
  method Get<T>(v: Vec<T>, s: nat, ghost th: Thread, ghost items: map<nat, T>) returns (x: Option<T>)
    requires Holds(v, th, items) && s < |v.slots|
    ensures x == if s in items then Some(items[s]) else None
  {
    LaidAt(v.slots, th.link, items, s);
    match v.slots[s]
    case Item(o) => x := Some(o);
    case NextFree(_) => x := None;
  }
}
