/** What a heap stands for is a function of the heap: the ghost companions of
 *  the tree's operations cannot claim two different stores for one slab. */
module Determined {
  import opened Basics
  import opened Forest
  import opened Heap
  import opened Art
  import ChildTiers
  import SlotVec

  lemma ListsOneTable(es: seq<ChildTiers.Edge>, t: ChildTiers.Table, u: ChildTiers.Table)
    requires ChildTiers.Lists(es, t) && ChildTiers.Lists(es, u)
    ensures t == u
  {
    forall r | r in t ensures r in u && u[r] == t[r] { assert es[ChildTiers.PosOf(es, r)].radix == r; }
    forall r | r in u ensures r in t { assert es[ChildTiers.PosOf(es, r)].radix == r; }
  }

  lemma SlotOneTable(a: ChildTiers.Arena, g: ChildTiers.View, g': ChildTiers.View, s: nat)
    requires ChildTiers.ArenaOk(a, g) && ChildTiers.ArenaOk(a, g') && s in g.tables && s in g'.tables
    ensures g.tables[s] == g'.tables[s]
  {
    SlotVec.LaidAt(a.vec.slots, g.thread.link, g.items, s);
    SlotVec.LaidAt(a.vec.slots, g'.thread.link, g'.items, s);
    assert ChildTiers.OverflowOk(g.items[s], a.huge, g.tables[s]) && ChildTiers.OverflowOk(g'.items[s], a.huge, g'.tables[s]);
    ListsOneTable(g.items[s].light + ChildTiers.BigPart(g.items[s], a.huge), g.tables[s], g'.tables[s]);
  }

  lemma JoinsOne(t: ChildTiers.Table, o: ChildTiers.Table, kids: ChildTiers.Table, kids': ChildTiers.Table)
    requires Joins(t, o, kids) && Joins(t, o, kids')
    ensures kids == kids'
  {
  }

  lemma KidsDetermined(h: Heap, g: Layout, all: Grove, g': Layout, all': Grove, i: Idx)
    requires HeapOk(h, g, all) && HeapOk(h, g', all') && i in all && i in all'
    ensures all[i].kids == all'[i].kids
  {
    hide ChildTiers.ArenaOk, HeapOk, Joins, ChildTiers.Lists;
    KnowNode(h, g, all, i);
    KnowNode(h, g', all', i);
    ListsOneTable(h.nodes[i].childs, g.inl[i], g'.inl[i]);
    if h.nodes[i].overflow.Some? { SlotOneTable(h.arena, g.view, g'.view, h.nodes[i].overflow.value); }
    JoinsOne(g.inl[i], Behind(h.nodes[i], g.view.tables), all[i].kids, all'[i].kids);
  }

  /** One node means the same in every reading of the heap. */
  lemma SameNode(h: Heap, root: Idx, t: Trunk, u: Trunk, i: Idx)
    requires ArtOk(h, root, t) && ArtOk(h, root, u) && i in t.tree && i in u.tree && t.tree[i].lab == u.tree[i].lab
    ensures Full(u.tree[i]) == Full(t.tree[i]) && u.tree[i].val == t.tree[i].val && u.tree[i].exp == t.tree[i].exp
    ensures u.tree[i].kids == t.tree[i].kids
  {
    hide HeapOk, IsTree, Represents;
    TreeNode(h, root, t, i);
    TreeNode(h, root, u, i);
    KidsDetermined(h, t.layout, t.tree + t.loose, u.layout, u.tree + u.loose, i);
  }

  /** The tree below the root is the same in every reading, labels included. */
  lemma {:induction false} SameTree(h: Heap, root: Idx, t: Trunk, u: Trunk, i: Idx)
    requires ArtOk(h, root, t) && ArtOk(h, root, u) && i in t.tree
    ensures i in u.tree && u.tree[i].lab == t.tree[i].lab
    decreases |t.tree[i].lab|
  {
    hide HeapOk, Represents;
    if i != root {
      ParentEdge(t.tree, {root}, i);
      var p := t.tree[i].up;
      SameTree(h, root, t, u, p);
      SameNode(h, root, t, u, p);
      assert EdgeOk(u.tree, {root}, p, Last(t.tree[i].lab));
    }
  }

  lemma StoreWithin(h: Heap, root: Idx, t: Trunk, u: Trunk, k: Key)
    requires ArtOk(h, root, t) && ArtOk(h, root, u) && k in t.store
    ensures k in u.store && u.store[k] == t.store[k]
  {
    hide HeapOk, IsTree;
    var i :| Forest.Holds(t.tree, i, k);
    SameTree(h, root, t, u, i);
    SameNode(h, root, t, u, i);
  }

  /** Any two readings of a heap agree on the store and on which nodes hang
   *  from the root. */
  lemma StoreDetermined(h: Heap, root: Idx, t: Trunk, u: Trunk)
    requires ArtOk(h, root, t) && ArtOk(h, root, u)
    ensures t.store == u.store && t.tree.Keys == u.tree.Keys && t.loose.Keys == u.loose.Keys
  {
    hide ArtOk;
    forall k | k in t.store ensures k in u.store && u.store[k] == t.store[k] { StoreWithin(h, root, t, u, k); }
    forall k | k in u.store ensures k in t.store { StoreWithin(h, root, u, t, k); }
    forall i | i in t.tree ensures i in u.tree { SameTree(h, root, t, u, i); }
    forall i | i in u.tree ensures i in t.tree { SameTree(h, root, u, t, i); }
    SameNodes(h, root, t);
    SameNodes(h, root, u);
  }

  /** Every live node hangs from the root or is pending, not both. */
  lemma SameNodes(h: Heap, root: Idx, t: Trunk)
    requires ArtOk(h, root, t)
    ensures t.loose.Keys == h.nodes.Keys - t.tree.Keys
  {
    hide IsTree, Represents, ChildTiers.ArenaOk, SlotsOwned, NodeOk;
  }
}
