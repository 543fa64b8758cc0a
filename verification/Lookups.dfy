/** Lookup as a function of the slab alone, defined on any slab, broken or not.
 *  On a tree it is the store. On the slab that `del` of the empty key leaves
 *  behind when it breaks the tree, it is the store with the first bytes of every
 *  key cut off. */
module Lookups {
  import opened Basics
  import opened Forest
  import opened Heap
  import opened Art
  import opened Scan
  import opened Roots
  import ChildTiers
  import SlotVec

  // ---- Reading the slab ------------------------------------------------------------------

  function EdgeTo(es: seq<ChildTiers.Edge>, r: Byte): Option<Idx> {
    if es == [] then None else if es[0].radix == r then Some(es[0].idx) else EdgeTo(es[1..], r)
  }

  function ChildAt(h: Heap, i: Idx, r: Byte): Option<Idx> {
    if i !in h.nodes then None
    else
      var n := h.nodes[i];
      if EdgeTo(n.childs, r).Some? then EdgeTo(n.childs, r)
      else if n.overflow.None? || n.overflow.value >= |h.arena.vec.slots| || !h.arena.vec.slots[n.overflow.value].Item? then None
      else
        var o := h.arena.vec.slots[n.overflow.value].item;
        if EdgeTo(o.light, r).Some? then EdgeTo(o.light, r)
        else if o.big.Some? && o.big.value in h.arena.huge then EdgeTo(h.arena.huge[o.big.value], r)
        else None
  }

  /** The node a descent from `i` ends at, if it lands exactly. */
  function Landing(h: Heap, i: Idx, key: Key, cur: nat): Option<Idx>
    decreases |key| - cur
  {
    if cur >= |key| then None
    else
      var c := ChildAt(h, i, key[cur]);
      if c.None? || c.value !in h.nodes then None
      else
        match Compare(h.nodes[c.value].comp, key[cur + 1..])
        case Final => c
        case Partial(_) => None
        case Path => Landing(h, c.value, key, cur + 1 + |h.nodes[c.value].comp|)
  }

  /** What `get` answers. */
  function Found(h: Heap, root: Idx, now: nat, key: Key): Option<Value> {
    var i := if key == [] then Some(root) else Landing(h, root, key, 0);
    if i.None? || i.value !in h.nodes || Expired(h.nodes[i.value].exp, now) then None else h.nodes[i.value].val
  }

  // ---- On a tree ----------------------------------------------------------------------------

  lemma {:induction false} EdgeToMeans(es: seq<ChildTiers.Edge>, r: Byte)
    ensures EdgeTo(es, r).Some? ==> exists k :: 0 <= k < |es| && es[k] == ChildTiers.Edge(r, EdgeTo(es, r).value)
    ensures EdgeTo(es, r).None? ==> !ChildTiers.HasRadix(es, r)
    decreases |es|
  {
    if es != [] && es[0].radix != r {
      EdgeToMeans(es[1..], r);
      if EdgeTo(es, r).Some? {
        var k :| 0 <= k < |es[1..]| && es[1..][k] == ChildTiers.Edge(r, EdgeTo(es, r).value);
        assert es[k + 1] == es[1..][k];
      } else {
        forall k | 0 <= k < |es| ensures es[k].radix != r { if k > 0 { assert es[k] == es[1..][k - 1]; } }
      }
    } else if es != [] {
      assert es[0] == ChildTiers.Edge(r, es[0].idx);
    }
  }

  lemma EdgeToLists(es: seq<ChildTiers.Edge>, t: ChildTiers.Table, r: Byte)
    requires ChildTiers.Lists(es, t)
    ensures EdgeTo(es, r) == if r in t then Some(t[r]) else None
  {
    EdgeToMeans(es, r);
    if EdgeTo(es, r).Some? {
      var k :| 0 <= k < |es| && es[k] == ChildTiers.Edge(r, EdgeTo(es, r).value);
      assert es[k].radix in t;
    }
  }

  lemma {:induction false} EdgeToConcat(a: seq<ChildTiers.Edge>, b: seq<ChildTiers.Edge>, r: Byte)
    ensures EdgeTo(a + b, r) == if EdgeTo(a, r).Some? then EdgeTo(a, r) else EdgeTo(b, r)
    decreases |a|
  {
    if a == [] {
      assert a + b == b;
    } else {
      EdgeToConcat(a[1..], b, r);
      assert (a + b)[1..] == a[1..] + b;
    }
  }

  lemma ChildAtKids(h: Heap, g: Layout, all: Grove, i: Idx, r: Byte)
    requires HeapOk(h, g, all) && i in all
    ensures ChildAt(h, i, r) == if r in all[i].kids then Some(all[i].kids[r]) else None
  {
    hide ChildTiers.Lists, HeapOk, NodesOk, SlotsOwned;
    KnowNode(h, g, all, i);
    var n := h.nodes[i];
    EdgeToLists(n.childs, g.inl[i], r);
    if n.overflow.Some? { SlotEdges(h.arena, g.view, n.overflow.value, r); }
  }

  lemma SlotEdges(a: ChildTiers.Arena, v: ChildTiers.View, s: nat, r: Byte)
    requires ChildTiers.ArenaOk(a, v) && s in v.tables
    ensures s < |a.vec.slots| && a.vec.slots[s].Item?
    ensures var o := a.vec.slots[s].item;
            (if EdgeTo(o.light, r).Some? then EdgeTo(o.light, r)
             else if o.big.Some? && o.big.value in a.huge then EdgeTo(a.huge[o.big.value], r)
             else None) == if r in v.tables[s] then Some(v.tables[s][r]) else None
  {
    hide ChildTiers.Lists;
    SlotVec.LaidAt(a.vec.slots, v.thread.link, v.items, s);
    var o := v.items[s];
    assert ChildTiers.OverflowOk(o, a.huge, v.tables[s]);
    EdgeToLists(o.light + ChildTiers.BigPart(o, a.huge), v.tables[s], r);
    EdgeToConcat(o.light, ChildTiers.BigPart(o, a.huge), r);
  }

  lemma TreeChild(h: Heap, root: Idx, t: Trunk, i: Idx, r: Byte)
    requires ArtOk(h, root, t) && i in t.tree
    ensures ChildAt(h, i, r) == if r in t.tree[i].kids then Some(t.tree[i].kids[r]) else None
  {
    hide HeapOk, IsTree, Represents;
    ChildAtKids(h, t.layout, t.tree + t.loose, i, r);
  }

  /** On a tree a descent lands on the node spelling the key, if there is one. */
  lemma {:induction false} LandingFinds(h: Heap, root: Idx, t: Trunk, i: Idx, key: Key, cur: nat)
    requires ArtOk(h, root, t) && i in t.tree && cur < |key| && Full(t.tree[i]) == key[..cur]
    ensures var j := Landing(h, i, key, cur);
            && (j.Some? ==> j.value in t.tree && j.value in h.nodes && Full(t.tree[j.value]) == key)
            && (j.None? ==> forall k :: k in t.tree ==> Full(t.tree[k]) != key)
    decreases |key| - cur
  {
    hide HeapOk, Represents, Compare, ChildAt, Parts;
    TreeChild(h, root, t, i, key[cur]);
    if key[cur] !in t.tree[i].kids {
      AbsentBelow(t.tree, root, i, key, cur);
      assert key[..cur + 1] <= key;
    } else {
      StepDown(t.tree, root, i, key, cur);
      var c := t.tree[i].kids[key[cur]];
      TreeNode(h, root, t, c);
      var comp := h.nodes[c].comp;
      CompareMeans(comp, key[cur + 1..]);
      match Compare(comp, key[cur + 1..])
      case Final => assert key == key[..cur + 1] + key[cur + 1..];
      case Partial(_) => AbsentInside(t.tree, root, c, key, cur + 1);
      case Path =>
        assert key[..cur + 1 + |comp|] == key[..cur + 1] + key[cur + 1..][..|comp|];
        LandingFinds(h, root, t, c, key, cur + 1 + |comp|);
    }
  }

  /** On a tree a lookup answers as the store does. */
  lemma FoundIsStored(h: Heap, root: Idx, t: Trunk, now: nat, key: Key)
    requires ArtOk(h, root, t)
    ensures Found(h, root, now, key) == if Live(t.store, now, key) then Some(t.store[key].val) else None
  {
    hide HeapOk, Represents, Landing;
    if key == [] {
      RootSpellsNothing(h, root, t);
      return;
    }
    LandingFinds(h, root, t, root, key, 0);
    var j := Landing(h, root, key, 0);
    if j.Some? {
      TreeNode(h, root, t, j.value);
      HitIsPresent(t.tree, root, t.store, j.value);
    } else if key in t.store {
      StoredSomewhere(t.tree, t.store, key);
    }
  }

  lemma StoredSomewhere(f: Grove, store: Store, key: Key)
    requires Represents(f, store) && key in store
    ensures exists k :: k in f && Full(f[k]) == key
  {
    var k :| Forest.Holds(f, k, key);
  }

  // ---- A root with a compression -----------------------------------------------------------------

  /** The same slab with the root's compression cleared. */
  function Uncompressed(h: Heap, root: Idx): Heap
    requires root in h.nodes
  {
    Heap(h.nodes[root := h.nodes[root].(comp := [])], h.arena)
  }

  lemma SameChildren(h: Heap, root: Idx, i: Idx, r: Byte)
    requires root in h.nodes
    ensures ChildAt(Uncompressed(h, root), i, r) == ChildAt(h, i, r)
  {
  }

  /** Lookups never read the compression of the root. */
  lemma {:induction false} RootCompressionIgnored(h: Heap, root: Idx, t: Trunk, i: Idx, key: Key, cur: nat)
    requires root in h.nodes && ArtOk(Uncompressed(h, root), root, t) && i in t.tree
    ensures Landing(h, i, key, cur) == Landing(Uncompressed(h, root), i, key, cur)
    decreases |key| - cur
  {
    hide HeapOk, Represents, ChildAt, Compare;
    if cur < |key| {
      SameChildren(h, root, i, key[cur]);
      TreeChild(Uncompressed(h, root), root, t, i, key[cur]);
      if key[cur] in t.tree[i].kids {
        assert EdgeOk(t.tree, {root}, i, key[cur]);
        var c := t.tree[i].kids[key[cur]];
        assert c != root;
        RootCompressionIgnored(h, root, t, c, key, cur + 1 + |if c in h.nodes then h.nodes[c].comp else []|);
      }
    }
  }

  // ---- After the breaking `del` --------------------------------------------------------------------

  /** The bytes of `p` are dropped from the front of every label. */
  ghost function Shifted(f: Grove, root: Idx, p: Key): Grove {
    map i | i in f :: if i == root then f[i].(lab := [], comp := []) else f[i].(lab := if |p| <= |f[i].lab| then f[i].lab[|p|..] else [])
  }

  /** `f` is a tree but for the compression of its root. */
  ghost predicate Overgrown(f: Grove, root: Idx) {
    && Linked(f, {root}) && f[root].lab == []
    && forall i :: i in f && i != root ==> |f[root].comp| < |f[i].lab| && f[root].comp <= f[i].lab
  }

  lemma ShiftedFull(f: Grove, root: Idx, i: Idx)
    requires Overgrown(f, root) && i in f
    ensures Full(f[i]) == f[root].comp + Full(Shifted(f, root, f[root].comp)[i])
  {
    var p := f[root].comp;
    if i != root { assert f[i].lab == p + f[i].lab[|p|..]; }
  }

  lemma ShiftedTree(f: Grove, root: Idx)
    requires Overgrown(f, root)
    ensures IsTree(Shifted(f, root, f[root].comp), root)
  {
    var p, g := f[root].comp, Shifted(f, root, f[root].comp);
    forall i, r | i in g && r in g[i].kids ensures EdgeOk(g, {root}, i, r) {
      assert EdgeOk(f, {root}, i, r);
      ShiftedFull(f, root, i);
      var c := f[i].kids[r];
      assert f[c].lab == p + g[c].lab && f[c].lab == p + Full(g[i]) + [r];
      assert g[c].lab == f[c].lab[|p|..] == Full(g[i]) + [r];
    }
    forall c | c in g && c !in {root} ensures ParentOk(g, c) {
      ParentEdge(f, {root}, c);
      assert f[c].lab == p + g[c].lab;
      assert Last(g[c].lab) == Last(f[c].lab);
    }
  }

  /** The store with `p` cut off every key that begins with it. */
  ghost function CutStore(store: Store, p: Key): Store {
    map s | s in (set k | k in store && p <= k :: k[|p|..]) && p + s in store :: store[p + s]
  }

  lemma CutKeys(store: Store, p: Key, s: Key)
    ensures s in CutStore(store, p) <==> p + s in store
  {
    if p + s in store { assert p <= p + s && (p + s)[|p|..] == s; }
  }

  lemma ShiftedStore(f: Grove, root: Idx, store: Store)
    requires Overgrown(f, root) && Represents(f, store)
    ensures Represents(Shifted(f, root, f[root].comp), CutStore(store, f[root].comp))
  {
    var p, g := f[root].comp, Shifted(f, root, f[root].comp);
    var short := CutStore(store, p);
    forall i | i in g && g[i].val.Some? ensures Full(g[i]) in short && short[Full(g[i])] == Entry(g[i].val.value, g[i].exp) {
      ShiftedFull(f, root, i);
      CutKeys(store, p, Full(g[i]));
    }
    forall s | s in short ensures exists j :: Forest.Holds(g, j, s) {
      CutKeys(store, p, s);
      var j :| Forest.Holds(f, j, p + s);
      ShiftedFull(f, root, j);
      assert (p + Full(g[j]))[|p|..] == Full(g[j]) && (p + s)[|p|..] == s;
      assert Forest.Holds(g, j, s);
    }
  }

  /** Absorbing its only child leaves the root overgrown. */
  lemma MergedOvergrown(f: Grove, root: Idx, store: Store, r: Byte)
    requires IsTree(f, root) && Represents(f, store) && f[root].val.None? && f[root].kids.Keys == {r}
    ensures f[root].kids[r] in f && Overgrown(Merge(f, root, r), root) && Represents(Merge(f, root, r), store)
    ensures root in Merge(f, root, r) && Merge(f, root, r)[root].comp == [r] + f[f[root].kids[r]].comp
  {
    hide Represents;
    var c := f[root].kids[r];
    MergeLinked(f, {root}, root, r);
    MergeSpots(f, {root}, root, r);
    MergeEntries(f, Merge(f, root, r), store, c, root);
    assert EdgeOk(f, {root}, root, r);
    assert [] + [r] + f[c].comp == [r] + f[c].comp;
    forall i | i in f && i != root && i != c ensures |Full(f[c])| < |f[i].lab| && Full(f[c]) <= f[i].lab {
      OnTheWay(f, root, root, i);
      assert f[c].lab == [r] <= Full(f[i]);
      OnePath(f, root, c, i);
    }
  }

  lemma CompressionCleared(h: Heap, g: Layout, all: Grove, i: Idx)
    requires HeapOk(h, g, all) && i in all
    ensures i in h.nodes && HeapOk(Uncompressed(h, i), g, all[i := all[i].(comp := [])])
  {
    hide ChildTiers.ArenaOk, HeapOk, ChildTiers.Lists, Joins;
    KnowNode(h, g, all, i);
    var n := h.nodes[i].(comp := []);
    SameOwners(g, {i});
    assert Behind(n, g.view.tables) == Behind(h.nodes[i], g.view.tables);
    WriteNode(h, g, all, h.arena, g.view, i, n, g.inl[i], all[i].(comp := []), g.owner);
    assert g.inl[i := g.inl[i]] == g.inl;
  }

  lemma ShiftedBody(all: Grove, f: Grove, loose: Grove, root: Idx, p: Key)
    requires SameBody(all, f + loose) && f.Keys !! loose.Keys && root in f
    ensures root in all && SameBody(all[root := all[root].(comp := [])], Shifted(f, root, p) + loose) && Shifted(f, root, p).Keys == f.Keys
  {
    var x, y := all[root := all[root].(comp := [])], Shifted(f, root, p) + loose;
    assert x.Keys == y.Keys;
    forall i | i in x ensures y[i].comp == x[i].comp && y[i].val == x[i].val && y[i].exp == x[i].exp && y[i].kids == x[i].kids { }
  }

  /** `del` of the empty key when it breaks the tree. The slab is a tree again
   *  once the root's compression is cleared, and lookups do not read that: they
   *  answer as on the store with the bytes `p`, which the root has absorbed, cut
   *  off the front of every key. */
  method DelRootShifts(h: Heap, root: Idx, ghost t: Trunk) returns (h': Heap, ghost t': Trunk, ghost p: Key)
    requires ArtOk(h, root, t) && OneInlineChild(h, root)
    ensures h' == AbsorbHeap(Forgotten(h, root), root) && Broken(h', root)
    ensures root in h'.nodes && p == h'.nodes[root].comp && p != []
    ensures ArtOk(Uncompressed(h', root), root, t') && t'.store == CutStore(t.store - {[]}, p)
    ensures forall now, key ::
              Found(h', root, now, key) == if Live(t.store, now, p + key) then Some(t.store[p + key].val) else None
  {
    hide HeapOk, Represents, Broken, Found, CutStore, Shifted, Overgrown, SameBody, Merge;
    ghost var t1;
    var h1;
    RootSpellsNothing(h, root, t);
    h1, t1 := ForgetValue(h, root, root, t);
    RootSpellsNothing(h1, root, t1);
    assert t1.store == t.store - {[]};
    LinkedKidsLive(t1.tree, {root}, t1.loose, root);
    ghost var g;
    h', g := TryRecompress(h1, root, t1.layout, t1.tree + t1.loose);
    ghost var r := SingleChild(h1, root).value.radix;
    ghost var all, f := Merge(t1.tree + t1.loose, root, r), Merge(t1.tree, root, r);
    MergedOvergrown(t1.tree, root, t1.store, r);
    MergeBodies(t1.tree, t1.loose, root, r);
    p := f[root].comp;
    t', g := Cleared(h', root, g, all, f, t1.loose, t1.store);
    AnswersShifted(h', root, t', t.store, p);
    CompressedRootBroken(h', root);
  }

  lemma Cleared(h: Heap, root: Idx, g: Layout, all: Grove, f: Grove, loose: Grove, store: Store) returns (t: Trunk, g': Layout)
    requires HeapOk(h, g, all) && SameBody(all, f + loose) && f.Keys !! loose.Keys && root in f
    requires Overgrown(f, root) && Represents(f, store)
    ensures root in h.nodes && h.nodes[root].comp == f[root].comp && g' == g
    ensures ArtOk(Uncompressed(h, root), root, t) && t.store == CutStore(store, f[root].comp) && t.loose == loose
  {
    hide HeapOk, Represents, CutStore, Shifted, Overgrown;
    var p := f[root].comp;
    g' := g;
    ShiftedBody(all, f, loose, root, p);
    CompressionCleared(h, g, all, root);
    RootComp(h, g, all, root);
    Relabel(Uncompressed(h, root), g, all[root := all[root].(comp := [])], Shifted(f, root, p) + loose);
    ShiftedTree(f, root);
    ShiftedStore(f, root, store);
    t := Trunk(g, Shifted(f, root, p), loose, CutStore(store, p));
  }

  lemma RootComp(h: Heap, g: Layout, all: Grove, i: Idx)
    requires HeapOk(h, g, all) && i in all
    ensures i in h.nodes && h.nodes[i].comp == all[i].comp
  {
    hide HeapOk;
    KnowNode(h, g, all, i);
  }

  lemma AnswersShifted(h: Heap, root: Idx, t: Trunk, store: Store, p: Key)
    requires root in h.nodes && ArtOk(Uncompressed(h, root), root, t) && t.store == CutStore(store - {[]}, p) && p != []
    ensures forall now, key ::
              Found(h, root, now, key) == if Live(store, now, p + key) then Some(store[p + key].val) else None
  {
    hide HeapOk, Represents, CutStore, Landing;
    forall now, key
      ensures Found(h, root, now, key) == if Live(store, now, p + key) then Some(store[p + key].val) else None
    {
      FoundIsStored(Uncompressed(h, root), root, t, now, key);
      CutEntry(store, p, key);
      if key != [] {
        RootCompressionIgnored(h, root, t, root, key, 0);
        LandingFinds(Uncompressed(h, root), root, t, root, key, 0);
        NotTheRoot(t.tree, root, key, Landing(h, root, key, 0));
      }
    }
  }

  lemma NotTheRoot(f: Grove, root: Idx, key: Key, j: Option<Idx>)
    requires IsTree(f, root) && key != [] && (j.Some? ==> j.value in f && Full(f[j.value]) == key)
    ensures j != Some(root)
  {
  }

  lemma CutEntry(store: Store, p: Key, s: Key)
    requires p != []
    ensures s in CutStore(store - {[]}, p) <==> p + s in store
    ensures p + s in store ==> CutStore(store - {[]}, p)[s] == store[p + s]
  {
    CutKeys(store - {[]}, p, s);
  }
}
