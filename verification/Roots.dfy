/** Commands on the empty key and the empty prefix. They work on the root
 *  itself, where recompression and bulk clearing can break the tree; the
 *  contracts say exactly when they do. */
module Roots {
  import opened Basics
  import opened Forest
  import opened Heap
  import opened Art
  import opened Scan
  import opened Determined
  import ChildTiers
  import SlotVec

  /** The heap no longer stands for any tree. */
  ghost predicate Broken(h: Heap, root: Idx) {
    forall t :: !ArtOk(h, root, t)
  }

  /** Recompression would absorb this node's child once it has no value. */
  predicate OneInlineChild(h: Heap, i: Idx) {
    i in h.nodes && |h.nodes[i].childs| == 1 && h.nodes[i].overflow.None?
  }

  lemma RootSpellsNothing(h: Heap, root: Idx, t: Trunk)
    requires ArtOk(h, root, t)
    ensures root in t.tree && root in h.nodes && h.nodes[root].comp == [] && Full(t.tree[root]) == []
    ensures h.nodes[root].val == t.tree[root].val && h.nodes[root].exp == t.tree[root].exp
    ensures [] in t.store <==> h.nodes[root].val.Some?
    ensures [] in t.store ==> t.store[[]] == Entry(h.nodes[root].val.value, h.nodes[root].exp)
  {
    hide HeapOk, Represents;
    TreeNode(h, root, t, root);
    HitIsPresent(t.tree, root, t.store, root);
  }

  /** A root with a compression is not the root of any tree: lookups ignore it. */
  lemma CompressedRootBroken(h: Heap, root: Idx)
    requires root in h.nodes && h.nodes[root].comp != []
    ensures Broken(h, root)
  {
    forall t ensures !ArtOk(h, root, t) {
      if ArtOk(h, root, t) { RootSpellsNothing(h, root, t); }
    }
  }

  /** The root forgets its value and is then recompressed like any node. */
  method ClearRoot(h: Heap, root: Idx, ghost t: Trunk) returns (h': Heap, ghost t': Trunk)
    requires ArtOk(h, root, t)
    ensures !OneInlineChild(h, root) ==> ArtOk(h', root, t') && t'.store == t.store - {[]} && t'.loose == t.loose
    ensures OneInlineChild(h, root) ==> Broken(h', root)
    ensures root in h.nodes && h' == AbsorbHeap(Forgotten(h, root), root)
  {
    hide HeapOk, Represents, Broken;
    RootSpellsNothing(h, root, t);
    h', t' := ForgetValue(h, root, root, t);
    RootSpellsNothing(h', root, t');
    assert t'.store == t.store - {[]};
    LinkedKidsLive(t'.tree, {root}, t'.loose, root);
    ghost var g;
    h', g := TryRecompress(h', root, t'.layout, t'.tree + t'.loose);
    if OneInlineChild(h, root) {
      assert SingleChild(Forgotten(h, root), root).Some?;
      ghost var f := Merge(t'.tree + t'.loose, root, SingleChild(Forgotten(h, root), root).value.radix);
      LiveNode(h', g, f, root);
      KnowVal(h', g, f, root);
      CompressedRootBroken(h', root);
    }
  }

  /** `get` of the empty key. */
  method GetRoot(h: Heap, root: Idx, now: nat, ghost t: Trunk) returns (h': Heap, res: Option<Value>, ghost t': Trunk)
    requires ArtOk(h, root, t)
    ensures res == if Live(t.store, now, []) then Some(t.store[[]].val) else None
    ensures var expired := root in h.nodes && Expired(h.nodes[root].exp, now);
            && (!(expired && OneInlineChild(h, root)) ==>
                  ArtOk(h', root, t') && t'.loose == t.loose && t'.store == if expired then t.store - {[]} else t.store)
            && (expired && OneInlineChild(h, root) ==> Broken(h', root))
  {
    hide HeapOk, IsTree, Represents, Broken;
    RootSpellsNothing(h, root, t);
    if Expired(h.nodes[root].exp, now) {
      h', t' := ClearRoot(h, root, t);
      return h', None, t';
    }
    return h, h.nodes[root].val, t;
  }

  /** `del` of the empty key breaks the tree exactly when the root has one
   *  inline child and no overflow slot. */
  method DelRoot(h: Heap, root: Idx, ghost t: Trunk) returns (h': Heap, res: Option<Value>, ghost t': Trunk)
    requires ArtOk(h, root, t)
    ensures res == if [] in t.store then Some(t.store[[]].val) else None
    ensures !OneInlineChild(h, root) ==> ArtOk(h', root, t') && t'.loose == t.loose && t'.store == t.store - {[]}
    ensures OneInlineChild(h, root) ==> Broken(h', root)
    ensures root in h.nodes && h' == AbsorbHeap(Forgotten(h, root), root)
  {
    hide HeapOk, IsTree, Represents, Broken;
    RootSpellsNothing(h, root, t);
    res := h.nodes[root].val;
    h', t' := ClearRoot(h, root, t);
  }

  /** The first key of a new store hangs inline from the root. */
  lemma FirstLeafInline(h: Heap, root: Idx, key: Key, v: Value, e: Expiry, h': Heap)
    requires FirstLeaf(h, root, key, v, e, h') && h.nodes[root].childs == [] && h.nodes[root].overflow.None?
    ensures OneInlineChild(h', root) && h'.nodes[root].comp == h.nodes[root].comp && h'.nodes[root].childs[0].radix == key[0]
    ensures h'.nodes[root].childs[0].idx != root && h'.nodes[root].childs[0].idx in h'.nodes
    ensures h'.nodes[h'.nodes[root].childs[0].idx] == Node(key[1..], [], Some(v), e, None)
  {
  }

  /** With one stored key `k`, deleting the absent empty key makes the stored key
   *  unreachable from the root. */
  method LoseOneKey(root: Idx, k: Key, v: Value) returns (h: Heap)
    requires k != []
    ensures Broken(h, root) && root in h.nodes && h.nodes[root].childs == [] && h.nodes[root].overflow.None?
    ensures h.nodes[root].comp == k && h.nodes[root].val == Some(v)
  {
    hide ArtOk, Broken, FirstLeaf;
    ghost var t;
    h, t := New(root);
    ghost var h0 := h;
    h, t := SetInternal(h, root, k, NO_EXPIRY, v, t);
    FirstLeafInline(h0, root, k, v, NO_EXPIRY, h);
    var res;
    h, res, t := DelRoot(h, root, t);
    assert k == [] + [k[0]] + k[1..];
  }

  /** With one stored key `k` and an empty key that has expired, looking up the
   *  empty key does the same. */
  method LoseByLookup(root: Idx, k: Key, v: Value, w: Value, e: Expiry, now: nat) returns (h: Heap, res: Option<Value>)
    requires k != [] && e != NO_EXPIRY && e < now
    ensures Broken(h, root) && res.None?
  {
    hide ArtOk, Broken, FirstLeaf;
    ghost var t;
    h, t := New(root);
    ghost var h0 := h;
    h, t := SetInternal(h, root, k, NO_EXPIRY, v, t);
    FirstLeafInline(h0, root, k, v, NO_EXPIRY, h);
    h, t := SetInternal(h, root, [], e, w, t);
    h, res, t := GetRoot(h, root, now, t);
  }

  // ---- The empty prefix ----------------------------------------------------------------------

  /** Drop all inline children of a node, leaving its overflow slot alone. */
  method ClearInline(h: Heap, i: Idx, ghost g: Layout, ghost all: Grove) returns (h': Heap, ghost g': Layout)
    requires HeapOk(h, g, all) && i in all
    ensures i in h.nodes && h' == Heap(h.nodes[i := h.nodes[i].(childs := [])], h.arena)
    ensures HeapOk(h', g', all[i := all[i].(kids := Behind(h.nodes[i], g.view.tables))])
  {
    hide ChildTiers.ArenaOk, HeapOk;
    KnowNode(h, g, all, i);
    var n := h.nodes[i].(childs := []);
    ghost var o := Behind(h.nodes[i], g.view.tables);
    SameOwners(g, {i});
    assert Behind(n, g.view.tables) == o;
    assert NodeOk(n, map[], g.view.tables, all[i].(kids := o));
    WriteNode(h, g, all, h.arena, g.view, i, n, map[], all[i].(kids := o), g.owner);
    h' := Heap(h.nodes[i := n], h.arena);
    g' := Layout(g.view, g.inl[i := map[]], g.owner);
  }

  /** A root that points at a freed node is not the root of any tree. */
  lemma DanglingRootBroken(h: Heap, root: Idx, g: Layout, all: Grove, r: Byte)
    requires HeapOk(h, g, all) && root in all && r in all[root].kids && all[root].kids[r] !in h.nodes
    ensures Broken(h, root)
  {
    hide HeapOk, Represents;
    forall t ensures !ArtOk(h, root, t) {
      if ArtOk(h, root, t) { DanglingRoot(h, root, g, all, r, t); }
    }
  }

  lemma DanglingRoot(h: Heap, root: Idx, g: Layout, all: Grove, r: Byte, t: Trunk)
    requires HeapOk(h, g, all) && root in all && r in all[root].kids && ArtOk(h, root, t)
    ensures all[root].kids[r] in h.nodes
  {
    hide HeapOk, Represents;
    var all' := t.tree + t.loose;
    KidsDetermined(h, g, all, t.layout, all', root);
    assert EdgeOk(t.tree, {root}, root, r);
    LiveNode(h, t.layout, all', all[root].kids[r]);
  }

  /** The root without its inline children, holding what `val` says. */
  ghost function BareSpot(h: Heap, root: Idx, t: Trunk, val: Option<Value>): Spot
    requires root in h.nodes && root in t.tree
  {
    t.tree[root].(val := val, kids := Behind(h.nodes[root], t.layout.view.tables))
  }

  /** Strip the root, remembering its children. */
  method StripRoot(h: Heap, root: Idx, val: Option<Value>, ghost t: Trunk) returns (h': Heap, stack: seq<Idx>, ghost g: Layout)
    requires ArtOk(h, root, t)
    ensures root in h.nodes && root in t.tree && Pending(t.tree - {root}, stack)
    ensures HeapOk(h', g, (t.tree + t.loose)[root := BareSpot(h, root, t, val)])
  {
    hide HeapOk, Represents, Pending, Linked;
    RootSpellsNothing(h, root, t);
    ghost var all := t.tree + t.loose;
    var es := IterChildren(h, root, t.layout, all);
    stack := seq(|es|, k requires 0 <= k < |es| => es[k].idx);
    RootCut(t.tree, t.loose, root, es, stack);
    h' := SetFields(h, root, val, h.nodes[root].exp, t.layout, all);
    ghost var all1 := all[root := all[root].(val := val, exp := all[root].exp)];
    h', g := ClearInline(h', root, t.layout, all1);
    SameBehind(h, root, t, val);
    assert all1[root := all1[root].(kids := Behind(h.nodes[root].(val := val), t.layout.view.tables))] == all[root := BareSpot(h, root, t, val)];
  }

  lemma SameBehind(h: Heap, root: Idx, t: Trunk, val: Option<Value>)
    requires root in h.nodes
    ensures Behind(h.nodes[root].(val := val), t.layout.view.tables) == Behind(h.nodes[root], t.layout.view.tables)
  {
  }

  lemma OnlyRootLeft(f: Grove, b: Grove, root: Idx, s: Spot)
    requires f.Keys !! b.Keys && root in f
    ensures (f + b)[root := s] - (f - {root}).Keys == map[root := s] + b
    ensures PartOf(f - {root}, (f + b)[root := s]) && map[root := s].Keys !! b.Keys
  {
  }

  /** Strip the root and free every node that hung below it, `budget` at a time. */
  method EmptyRoot(h: Heap, root: Idx, val: Option<Value>, budget: nat, ghost t: Trunk) returns (h': Heap, count: nat, ghost g: Layout)
    requires ArtOk(h, root, t) && budget > 0
    ensures root in h.nodes && root in t.tree && count == |Valued(t.tree - {root})|
    ensures map[root := BareSpot(h, root, t, val)].Keys !! t.loose.Keys
    ensures HeapOk(h', g, map[root := BareSpot(h, root, t, val)] + t.loose)
  {
    hide HeapOk, Represents, Pending, Valued, PartOf, IsTree, BareSpot;
    var stack;
    h', stack, g := StripRoot(h, root, val, t);
    ghost var bare := BareSpot(h, root, t, val);
    OnlyRootLeft(t.tree, t.loose, root, bare);
    h', count, g := FreeWhole(h', stack, budget, g, (t.tree + t.loose)[root := bare], t.tree - {root});
  }

  /** Free a whole severed part. */
  method FreeWhole(h: Heap, stack: seq<Idx>, budget: nat, ghost g: Layout, ghost all: Grove, ghost mine: Grove)
    returns (h': Heap, count: nat, ghost g': Layout)
    requires HeapOk(h, g, all) && PartOf(mine, all) && Pending(mine, stack) && budget > 0
    ensures HeapOk(h', g', all - mine.Keys) && count == |Valued(mine)|
  {
    hide HeapOk, Pending, Valued, PartOf;
    var rest := stack;
    ghost var left := mine;
    h', count, g' := h, 0, g;
    Untouched(all, mine);
    while rest != []
      invariant HeapOk(h', g', all - (mine.Keys - left.Keys)) && Pending(left, rest)
      invariant PartOf(left, mine) && PartOf(left, all - (mine.Keys - left.Keys))
      invariant count + |Valued(left)| == |Valued(mine)|
      decreases |left|, |rest|
    {
      var n;
      ghost var before := left;
      h', rest, n, g', left := FreeNodes(h', rest, budget, g', all - (mine.Keys - left.Keys), left);
      FreedMore(all, mine, before, left);
      if rest == [] { SmallerThan(left, before); }
      count := count + n;
    }
    Drained(left, rest);
    assert mine.Keys - left.Keys == mine.Keys;
  }

  lemma Untouched(all: Grove, mine: Grove)
    requires PartOf(mine, all)
    ensures all - (mine.Keys - mine.Keys) == all && PartOf(mine, mine)
  {
  }

  lemma FreedMore(all: Grove, mine: Grove, before: Grove, left: Grove)
    requires PartOf(mine, all) && PartOf(before, mine) && PartOf(left, before)
    ensures all - (mine.Keys - before.Keys) - (before.Keys - left.Keys) == all - (mine.Keys - left.Keys)
    ensures PartOf(left, mine) && PartOf(left, all - (mine.Keys - left.Keys))
  {
  }

  lemma SmallerThan(left: Grove, before: Grove)
    requires PartOf(left, before)
    ensures |left| <= |before|
  {
    assert left.Keys <= before.Keys;
    ChildTiers.Subset(left.Keys, before.Keys);
  }

  /** `deln` of the empty prefix. The count is always right, but the root's
   *  inline children are cleared and its overflow link is not: the tree
   *  survives exactly when the root has no overflow slot. */
  method DelnRoot(h: Heap, root: Idx, ghost t: Trunk) returns (h': Heap, count: nat, ghost t': Trunk)
    requires ArtOk(h, root, t)
    ensures root in h.nodes && count == |t.store|
    ensures h.nodes[root].overflow.None? ==> ArtOk(h', root, t') && t'.store == map[] && t'.loose == t.loose
    ensures h.nodes[root].overflow.Some? ==> Broken(h', root)
  {
    hide HeapOk, Represents, Valued, Broken, IsTree;
    RootSpellsNothing(h, root, t);
    ghost var g;
    h', count, g := EmptyRoot(h, root, None, |h.nodes| + 1, t);
    ghost var bare := BareSpot(h, root, t, None);
    RootCount(t.tree, root, t.store);
    if h.nodes[root].val.Some? {
      count := count + 1;
    }
    t' := Trunk(g, map[root := bare], t.loose, map[]);
    if h.nodes[root].overflow.None? { StrippedTree(t.tree, t.loose, root, bare, t.store, h', g, map[]); } else { StrippedBroken(h, root, t, bare, h', g); }
  }

  /** The entry of the empty key alone. */
  ghost function OnlyEmptyKey(store: Store): Store {
    map k | k in store && k == [] :: store[k]
  }

  /** `deln_async` of the empty prefix, when nothing else runs. It keeps the
   *  root's value, counts it if it has not expired, and fails as `deln` does. */
  method DelnAsyncRoot(h: Heap, root: Idx, now: nat, ghost t: Trunk) returns (h': Heap, count: nat, ghost t': Trunk)
    requires ArtOk(h, root, t)
    ensures root in h.nodes && count == |t.store - {[]}| + if Live(t.store, now, []) then 1 else 0
    ensures h.nodes[root].overflow.None? ==> ArtOk(h', root, t') && t'.store == OnlyEmptyKey(t.store) && t'.loose == t.loose
    ensures h.nodes[root].overflow.Some? ==> Broken(h', root)
  {
    hide HeapOk, Represents, Valued, Broken, IsTree, OnlyEmptyKey, BareSpot;
    RootSpellsNothing(h, root, t);
    var val := h.nodes[root].val;
    ghost var g;
    h', count, g := EmptyRoot(h, root, val, YIELD_BUDGET, t);
    RootCount(t.tree, root, t.store);
    OthersCount(t.store);
    count := count + if val.Some? && !Expired(h.nodes[root].exp, now) then 1 else 0;
    ghost var bare := BareSpot(h, root, t, val);
    t' := Trunk(g, map[root := bare], t.loose, OnlyEmptyKey(t.store));
    BareKids(h, root, t, val);
    if h.nodes[root].overflow.None? {
      if val.None? { NoEmptyKey(t.store); }
      StrippedTree(t.tree, t.loose, root, bare, t.store, h', g, OnlyEmptyKey(t.store));
    } else {
      StrippedBroken(h, root, t, bare, h', g);
    }
  }

  lemma BareKids(h: Heap, root: Idx, t: Trunk, val: Option<Value>)
    requires root in h.nodes && root in t.tree
    ensures BareSpot(h, root, t, val).val == val
    ensures h.nodes[root].overflow.None? ==> BareSpot(h, root, t, val) == t.tree[root].(val := val, kids := map[])
  {
  }

  lemma NoEmptyKey(store: Store)
    ensures [] !in store ==> OnlyEmptyKey(store) == map[]
  {
  }

  /** The cut of `deln_async` for the empty prefix, when the root has no overflow
   *  slot: everything below the root is severed, and the value it may hold stays. */
  method CutRoot(h: Heap, root: Idx, now: nat, ghost t: Trunk)
    returns (h': Heap, stack: seq<Idx>, initial: nat, ghost t': Trunk, ghost mine: Grove)
    requires ArtOk(h, root, t) && root in h.nodes && h.nodes[root].overflow.None?
    ensures ArtOk(h', root, t') && t'.store == OnlyEmptyKey(t.store)
    ensures mine.Keys !! t.loose.Keys && t'.loose == t.loose + mine && Pending(mine, stack)
    ensures initial == (if Live(t.store, now, []) then 1 else 0) && |Valued(mine)| == |t.store - {[]}|
    ensures mine.Keys == Covering(t.tree, []) - {root}
  {
    hide HeapOk, Represents, Valued, Pending, IsTree, OnlyEmptyKey, BareSpot, Covering;
    RootSpellsNothing(h, root, t);
    AllCovered(t.tree, root);
    var val := h.nodes[root].val;
    initial := if val.Some? && !Expired(h.nodes[root].exp, now) then 1 else 0;
    ghost var g;
    h', stack, g := StripRoot(h, root, val, t);
    RootCount(t.tree, root, t.store);
    OthersCount(t.store);
    ghost var bare := BareSpot(h, root, t, val);
    BareKids(h, root, t, val);
    mine := t.tree - {root};
    SeveredRoot(t.tree, t.loose, root, bare);
    if val.None? { NoEmptyKey(t.store); }
    BareRoot(t.tree, root, bare, t.store);
    t' := Trunk(g, map[root := bare], t.loose + mine, OnlyEmptyKey(t.store));
  }

  lemma AllCovered(f: Grove, root: Idx)
    ensures (f - {root}).Keys == Covering(f, []) - {root}
  {
  }

  lemma SeveredRoot(f: Grove, b: Grove, root: Idx, s: Spot)
    requires f.Keys !! b.Keys && root in f
    ensures (f + b)[root := s] == map[root := s] + (b + (f - {root})) && map[root := s].Keys !! (b + (f - {root})).Keys
    ensures (f - {root}).Keys !! b.Keys
  {
  }

  lemma OthersCount(store: Store)
    ensures |store - {[]}| == |store| - if [] in store then 1 else 0
  {
    assert (store - {[]}).Keys == store.Keys - {[]};
  }

  /** A bare root without an overflow slot is a tree, ... */
  lemma StrippedTree(f: Grove, loose: Grove, root: Idx, bare: Spot, was: Store, h: Heap, g: Layout, store: Store)
    requires IsTree(f, root) && Represents(f, was) && bare == f[root].(val := bare.val, kids := map[]) && (bare.val == None || bare.val == f[root].val)
    requires root !in loose && HeapOk(h, g, map[root := bare] + loose)
    requires store == if bare.val.None? then map[] else OnlyEmptyKey(was)
    ensures ArtOk(h, root, Trunk(g, map[root := bare], loose, store))
  {
    hide HeapOk, Represents, IsTree;
    BareRoot(f, root, bare, was);
  }

  /** ... and one with a slot points at freed nodes. */
  lemma StrippedBroken(h: Heap, root: Idx, t: Trunk, bare: Spot, h': Heap, g: Layout)
    requires ArtOk(h, root, t) && root in h.nodes && h.nodes[root].overflow.Some? && root in t.tree && root !in t.loose
    requires bare == BareSpot(h, root, t, bare.val) && HeapOk(h', g, map[root := bare] + t.loose)
    ensures Broken(h', root)
  {
    hide HeapOk, Represents, Broken, IsTree;
    var r := SlotChild(h, root, t);
    LiveNode(h', g, map[root := bare] + t.loose, bare.kids[r]);
    DanglingRootBroken(h', root, g, map[root := bare] + t.loose, r);
  }

  // ---- Reaching the overflow slot --------------------------------------------------------------

  /** A node with more than six children has an overflow slot. */
  lemma ManyKids(h: Heap, root: Idx, t: Trunk, i: Idx)
    requires ArtOk(h, root, t) && i in t.tree && |t.tree[i].kids| > ChildTiers.CHILDS_SIZE
    ensures i in h.nodes && h.nodes[i].overflow.Some?
  {
    hide ChildTiers.ArenaOk, IsTree, Represents;
    KnowNode(h, t.layout, t.tree + t.loose, i);
    ChildTiers.ListsSize(h.nodes[i].childs, t.layout.inl[i]);
    if h.nodes[i].overflow.None? { JoinNothing(t.layout.inl[i], t.tree[i].kids); }
  }

  /** The first byte of every stored key selects a child of the root. */
  lemma FirstByte(h: Heap, root: Idx, t: Trunk, k: Key)
    requires ArtOk(h, root, t) && k in t.store && k != []
    ensures root in t.tree && k[0] in t.tree[root].kids
  {
    hide HeapOk;
    var j :| Forest.Holds(t.tree, j, k);
    OnTheWay(t.tree, root, root, j);
  }

  lemma {:induction false} DistinctSize<T>(s: seq<T>)
    requires NoDup(s)
    ensures |Elems(s)| == |s|
    decreases |s|
  {
    if s == [] {
      assert Elems(s) == {};
    } else {
      var init := s[..|s| - 1];
      DistinctSize(init);
      assert Last(s) !in init;
      assert s == init + [Last(s)];
      assert Elems(s) == Elems(init) + {Last(s)};
    }
  }

  /** A store with seven first bytes has an overflow slot at its root, so `deln`
   *  of the empty prefix breaks it. */
  lemma SevenFirstBytes(h: Heap, root: Idx, t: Trunk, bytes: seq<Byte>)
    requires ArtOk(h, root, t) && NoDup(bytes) && |bytes| > ChildTiers.CHILDS_SIZE
    requires forall b :: b in bytes ==> exists k :: k in t.store && k != [] && k[0] == b
    ensures root in h.nodes && h.nodes[root].overflow.Some?
  {
    hide ArtOk;
    RootSpellsNothing(h, root, t);
    forall b | b in Elems(bytes) ensures b in t.tree[root].kids {
      var k :| k in t.store && k != [] && k[0] == b;
      FirstByte(h, root, t, k);
    }
    DistinctSize(bytes);
    ChildTiers.Subset(Elems(bytes), t.tree[root].kids.Keys);
    ManyKids(h, root, t, root);
  }

  /** The one-byte keys below `[n]`. */
  ghost predicate SmallKeys(store: Store, n: nat) {
    && (forall c: Byte :: c < n ==> [c] in store)
    && (forall k :: k in store ==> |k| == 1 && k[0] < n)
  }

  method StoreSmallKeys(root: Idx, v: Value, n: Byte) returns (h: Heap, ghost t: Trunk)
    ensures ArtOk(h, root, t) && SmallKeys(t.store, n) && |t.store| == n - 1
  {
    hide ArtOk, SmallKeys, FirstLeaf;
    h, t := New(root);
    NoSmallKeys();
    for b := 1 to n
      invariant ArtOk(h, root, t) && |t.store| == b - 1 && SmallKeys(t.store, b)
    {
      ghost var before := t.store;
      h, t := SetInternal(h, root, [b], NO_EXPIRY, v, t);
      OneMoreKey(before, b, Entry(v, NO_EXPIRY));
    }
  }

  lemma SmallKeysBreak(h: Heap, root: Idx, t: Trunk)
    requires ArtOk(h, root, t) && SmallKeys(t.store, 8)
    ensures root in h.nodes && h.nodes[root].overflow.Some? && [] !in t.store && t.store - {[]} == t.store
  {
    hide ArtOk;
    var bytes: seq<Byte> := [1, 2, 3, 4, 5, 6, 7];
    forall b | b in bytes ensures exists k :: k in t.store && k != [] && k[0] == b {
      var k: Key := [b];
      assert k in t.store && k[0] == b;
    }
    SevenFirstBytes(h, root, t, bytes);
  }

  /** Seven one-byte keys in a new store, and `deln` of the empty prefix. */
  method LoseSevenKeys(root: Idx, v: Value) returns (h: Heap, count: nat)
    ensures Broken(h, root) && count == 7
  {
    hide ArtOk, Broken;
    ghost var t;
    h, t := StoreSmallKeys(root, v, 8);
    SmallKeysBreak(h, root, t);
    h, count, t := DelnRoot(h, root, t);
  }

  /** The same seven keys, and `deln_async` of the empty prefix. */
  method LoseSevenKeysAsync(root: Idx, v: Value, now: nat) returns (h: Heap, count: nat)
    ensures Broken(h, root) && count == 7
  {
    hide ArtOk, Broken;
    ghost var t;
    h, t := StoreSmallKeys(root, v, 8);
    SmallKeysBreak(h, root, t);
    h, count, t := DelnAsyncRoot(h, root, now, t);
  }

  lemma NoSmallKeys()
    ensures SmallKeys(map[], 1)
  {
  }

  lemma OneMoreKey(store: Store, b: Byte, e: Entry)
    requires SmallKeys(store, b)
    ensures SmallKeys(store[[b] := e], b + 1) && |store[[b] := e]| == |store| + 1
  {
    var k: Key := [b];
    assert k[0] == b && k !in store;
    assert store[k := e].Keys == store.Keys + {k};
    forall c: Byte | c < b + 1 ensures [c] in store[k := e] {
      if c == b { assert [c] == k; } else { assert [c] in store; }
    }
  }

  /** A child of the root behind its overflow slot. */
  lemma SlotChild(h: Heap, root: Idx, t: Trunk) returns (r: Byte)
    requires ArtOk(h, root, t) && root in h.nodes && h.nodes[root].overflow.Some?
    ensures var o := Behind(h.nodes[root], t.layout.view.tables);
            r in o && o[r] in t.tree && o[r] != root
  {
    hide ChildTiers.ArenaOk, Represents;
    KnowNode(h, t.layout, t.tree + t.loose, root);
    var o := Behind(h.nodes[root], t.layout.view.tables);
    r :| r in o;
    assert EdgeOk(t.tree, {root}, root, r);
  }

  lemma RootCut(f: Grove, b: Grove, root: Idx, es: seq<ChildTiers.Edge>, stack: seq<Idx>)
    requires IsTree(f, root) && f.Keys !! b.Keys && ChildTiers.Lists(es, f[root].kids)
    requires |stack| == |es| && forall k :: 0 <= k < |es| ==> stack[k] == es[k].idx
    ensures Pending(f - {root}, stack) && (f - {root}).Keys !! b.Keys
  {
    KidsOf(f, {root}, root, es, stack);
    FreeTopLinked(f, {root}, root);
    assert {root} - {root} + f[root].kids.Values == Elems(stack);
  }

  lemma RootCount(f: Grove, root: Idx, store: Store)
    requires IsTree(f, root) && Represents(f, store)
    ensures |store| == |Valued(f - {root})| + if f[root].val.Some? then 1 else 0
  {
    hide Represents;
    TreeDistinctKeys(f, root);
    ValuedCount(f, store);
    FreedValued(f, root);
  }

  lemma BareRoot(f: Grove, root: Idx, bare: Spot, store: Store)
    requires IsTree(f, root) && Represents(f, store) && bare == f[root].(val := bare.val, kids := map[]) && (bare.val == None || bare.val == f[root].val)
    ensures IsTree(map[root := bare], root)
    ensures Represents(map[root := bare], if bare.val.None? then map[] else OnlyEmptyKey(store))
  {
    assert Linked(map[root := bare], {root});
    assert Full(bare) == [];
    var g, rest := map[root := bare], if bare.val.None? then map[] else OnlyEmptyKey(store);
    if bare.val.Some? { assert Full(f[root]) in store; }
    forall k | k in rest ensures exists j :: Forest.Holds(g, j, k) { assert Forest.Holds(g, root, k); }
  }

  // ---- Every key and every prefix --------------------------------------------------------------

  predicate GetBreaks(h: Heap, root: Idx, now: nat, key: Key) {
    key == [] && root in h.nodes && Expired(h.nodes[root].exp, now) && OneInlineChild(h, root)
  }

  predicate DelBreaks(h: Heap, root: Idx, key: Key) {
    key == [] && OneInlineChild(h, root)
  }

  predicate DelnBreaks(h: Heap, root: Idx, prefix: Key) {
    prefix == [] && root in h.nodes && h.nodes[root].overflow.Some?
  }

  /** `get` of any key. */
  method GetAny(h: Heap, root: Idx, now: nat, key: Key, ghost t: Trunk) returns (h': Heap, res: Option<Value>, ghost t': Trunk)
    requires ArtOk(h, root, t)
    ensures res == if Live(t.store, now, key) then Some(t.store[key].val) else None
    ensures !GetBreaks(h, root, now, key) ==>
              && ArtOk(h', root, t') && t'.loose == t.loose
              && t'.store == if key in t.store && Expired(t.store[key].exp, now) then t.store - {key} else t.store
    ensures GetBreaks(h, root, now, key) ==> Broken(h', root)
  {
    hide ArtOk, Broken;
    if key == [] {
      RootSpellsNothing(h, root, t);
      h', res, t' := GetRoot(h, root, now, t);
      assert key !in t.store ==> t.store - {key} == t.store;
    } else {
      h', res, t' := Art.Get(h, root, now, key, t);
    }
  }

  /** `del` of any key. */
  method DelAny(h: Heap, root: Idx, key: Key, ghost t: Trunk) returns (h': Heap, res: Option<Value>, ghost t': Trunk)
    requires ArtOk(h, root, t)
    ensures res == if key in t.store then Some(t.store[key].val) else None
    ensures !DelBreaks(h, root, key) ==> ArtOk(h', root, t') && t'.loose == t.loose && t'.store == t.store - {key}
    ensures DelBreaks(h, root, key) ==> Broken(h', root)
  {
    hide ArtOk, Broken;
    if key == [] {
      h', res, t' := DelRoot(h, root, t);
    } else {
      h', res, t' := Art.Del(h, root, key, t);
    }
  }

  /** `deln` of any prefix. */
  method DelnAny(h: Heap, root: Idx, prefix: Key, ghost t: Trunk) returns (h': Heap, count: nat, ghost t': Trunk)
    requires ArtOk(h, root, t)
    ensures count == |Matching(t.store, prefix)|
    ensures !DelnBreaks(h, root, prefix) ==> ArtOk(h', root, t') && t'.loose == t.loose && t'.store == Outside(t.store, prefix)
    ensures DelnBreaks(h, root, prefix) ==> Broken(h', root)
  {
    hide ArtOk, Broken;
    if prefix == [] {
      h', count, t' := DelnRoot(h, root, t);
      assert Matching(t.store, prefix) == t.store && Outside(t.store, prefix) == map[];
    } else {
      h', count, t' := Art.Deln(h, root, prefix, t);
    }
  }
}
