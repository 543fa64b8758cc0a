/** The tree operations, on an owned heap. The class in OxidArt.dfy is the
 *  mutable object around them. */
module Art {
  import opened Basics
  import opened Forest
  import opened Heap
  import ChildTiers
  import SlotVec

  // ---- Comparing a compression with the rest of a key ---------------------------------

  datatype CompResult = Path | Final | Partial(common: nat)

  function CommonLen(a: Key, b: Key): nat {
    if a == [] || b == [] || a[0] != b[0] then 0 else 1 + CommonLen(a[1..], b[1..])
  }

  lemma {:induction false} CommonLenMaximal(a: Key, b: Key)
    ensures var n := CommonLen(a, b);
            n <= |a| && n <= |b| && a[..n] == b[..n] && (n < |a| && n < |b| ==> a[n] != b[n])
  {
    if a == [] || b == [] || a[0] != b[0] {
    } else {
      CommonLenMaximal(a[1..], b[1..]);
      var n := CommonLen(a, b);
      assert a[..n] == [a[0]] + a[1..][..n - 1];
      assert b[..n] == [b[0]] + b[1..][..n - 1];
    }
  }

  function Compare(comp: Key, rest: Key): CompResult {
    var common := CommonLen(comp, rest);
    if |comp| == |rest| then (if common == |rest| then Final else Partial(common))
    else if |comp| > |rest| then Partial(common)
    else if common == |comp| then Path
    else Partial(common)
  }

  /** `comp` and `rest` part after `n` common bytes, inside `comp`. */
  ghost predicate Parts(comp: Key, rest: Key, n: nat) {
    n < |comp| && n <= |rest| && comp[..n] == rest[..n] && (n < |rest| ==> comp[n] != rest[n])
  }

  lemma CompareMeans(comp: Key, rest: Key)
    ensures Compare(comp, rest).Final? <==> comp == rest
    ensures Compare(comp, rest).Path? <==> comp <= rest && |comp| < |rest|
    ensures Compare(comp, rest).Partial? ==> Parts(comp, rest, Compare(comp, rest).common) && !(comp <= rest)
  {
    CommonLenMaximal(comp, rest);
    var n := CommonLen(comp, rest);
    if n == |comp| { assert comp[..n] == comp; assert comp == rest[..n]; }
    if n == |rest| { assert rest[..n] == rest; }
    if n < |comp| && n < |rest| { assert comp[n] != rest[n]; }
  }

  // ---- State -----------------------------------------------------------------------------

  /** What a heap stands for: its layout, the tree hanging from the root, the
   *  severed nodes still waiting to be freed, and the stored entries. */
  datatype Trunk = Trunk(layout: Layout, tree: Grove, loose: Grove, store: map<Key, Entry>)

  ghost predicate ArtOk(h: Heap, root: Idx, t: Trunk) {
    && t.tree.Keys !! t.loose.Keys
    && HeapOk(h, t.layout, t.tree + t.loose)
    && IsTree(t.tree, root)
    && Represents(t.tree, t.store)
  }

  lemma UnionSet(a: Grove, b: Grove, i: Idx, s: Spot)
    requires a.Keys !! b.Keys && i !in b
    ensures (a + b)[i := s] == a[i := s] + b && a[i := s].Keys !! b.Keys
  {
  }

  lemma UnionDrop(a: Grove, b: Grove, i: Idx)
    requires a.Keys !! b.Keys && i !in b
    ensures (a + b) - {i} == (a - {i}) + b && (a - {i}).Keys !! b.Keys
  {
  }

  /** Reading one tree node off the heap. */
  lemma TreeNode(h: Heap, root: Idx, t: Trunk, i: Idx)
    requires ArtOk(h, root, t) && i in t.tree
    ensures i in h.nodes && h.nodes[i].comp == t.tree[i].comp && h.nodes[i].val == t.tree[i].val && h.nodes[i].exp == t.tree[i].exp
    ensures h.nodes[i].childs == [] && h.nodes[i].overflow.None? <==> t.tree[i].kids == map[]
  {
    hide ChildTiers.ArenaOk, SlotsOwned, IsTree, Represents;
    KnowNode(h, t.layout, t.tree + t.loose, i);
    ChildlessKids(h, t.layout, t.tree + t.loose, i);
  }

  // ---- Descent ---------------------------------------------------------------------------

  /** Where a descent by key stops: at the node spelling the key, inside a
   *  compression, or at a node lacking the next child. */
  datatype Stop =
    | Exact(idx: Idx, parent: Idx, radix: Byte)
    | Inside(idx: Idx, cursor: nat, common: nat, parent: Idx, radix: Byte)
    | NoChild(idx: Idx, cursor: nat)

  ghost predicate HangsFrom(f: Grove, root: Idx, i: Idx, p: Idx, r: Byte) {
    i in f && i != root && p in f && f[i].up == p && f[i].lab != [] && Last(f[i].lab) == r
  }

  ghost predicate Landed(f: Grove, root: Idx, key: Key, w: Stop) {
    match w
    case Exact(i, p, r) => HangsFrom(f, root, i, p, r) && Full(f[i]) == key
    case Inside(i, cur, n, p, r) =>
      && HangsFrom(f, root, i, p, r) && cur <= |key| && f[i].lab == key[..cur]
      && Parts(f[i].comp, key[cur..], n) && !(f[i].comp <= key[cur..])
    case NoChild(i, cur) => i in f && cur < |key| && Full(f[i]) == key[..cur] && key[cur] !in f[i].kids
  }

  method Descend(h: Heap, root: Idx, key: Key, ghost t: Trunk) returns (w: Stop)
    requires ArtOk(h, root, t) && key != []
    ensures Landed(t.tree, root, key, w)
  {
    hide HeapOk, Represents, Parts;
    var idx, cursor := root, 0;
    while true
      invariant cursor < |key| && idx in t.tree && Full(t.tree[idx]) == key[..cursor]
      decreases |key| - cursor
    {
      var child := Find(h, idx, key[cursor], t.layout, t.tree + t.loose);
      if child.None? {
        return NoChild(idx, cursor);
      }
      StepDown(t.tree, root, idx, key, cursor);
      var parent, radix := idx, key[cursor];
      idx, cursor := child.value, cursor + 1;
      TreeNode(h, root, t, idx);
      var comp := h.nodes[idx].comp;
      CompareMeans(comp, key[cursor..]);
      match Compare(comp, key[cursor..])
      case Final =>
        assert key == key[..cursor] + key[cursor..];
        return Exact(idx, parent, radix);
      case Partial(n) =>
        return Inside(idx, cursor, n, parent, radix);
      case Path =>
        assert key[..cursor + |comp|] == key[..cursor] + key[cursor..][..|comp|];
        cursor := cursor + |comp|;
    }
  }

  lemma StepDown(f: Grove, root: Idx, i: Idx, key: Key, cur: nat)
    requires IsTree(f, root) && i in f && cur < |key| && Full(f[i]) == key[..cur] && key[cur] in f[i].kids
    ensures var c := f[i].kids[key[cur]]; HangsFrom(f, root, c, i, key[cur]) && f[c].lab == key[..cur + 1]
  {
    assert EdgeOk(f, {root}, i, key[cur]);
    assert key[..cur + 1] == key[..cur] + [key[cur]];
  }

  /** Unless the descent lands exactly, the key is not stored. */
  lemma MissIsAbsent(f: Grove, root: Idx, store: map<Key, Entry>, key: Key, w: Stop)
    requires IsTree(f, root) && Represents(f, store) && Landed(f, root, key, w) && !w.Exact?
    ensures forall j :: j in f ==> Full(f[j]) != key
    ensures key !in store
  {
    match w
    case Inside(i, cur, n, p, r) => AbsentInside(f, root, i, key, cur);
    case NoChild(i, cur) =>
      AbsentBelow(f, root, i, key, cur);
      assert key[..cur + 1] <= key;
  }

  /** An exact landing decides membership by the node's value. */
  lemma HitIsPresent(f: Grove, root: Idx, store: map<Key, Entry>, i: Idx)
    requires IsTree(f, root) && Represents(f, store) && i in f
    ensures Full(f[i]) in store <==> f[i].val.Some?
    ensures f[i].val.Some? ==> store[Full(f[i])] == Entry(f[i].val.value, f[i].exp)
  {
    if Full(f[i]) in store {
      var j :| Holds(f, j, Full(f[i]));
      FullInjective(f, root, i, j);
    }
  }

  // ---- Storing ---------------------------------------------------------------------------

  /** Overwrite the value and expiry of a node. */
  method StoreAt(h: Heap, root: Idx, i: Idx, v: Value, e: Expiry, ghost t: Trunk) returns (h': Heap, ghost t': Trunk)
    requires ArtOk(h, root, t) && i in t.tree
    ensures ArtOk(h', root, t') && t'.loose == t.loose
    ensures t'.tree == SetVal(t.tree, i, v, e) && t'.store == t.store[Full(t.tree[i]) := Entry(v, e)]
    ensures Grows(t.tree, t'.tree)
    ensures i in h.nodes && h' == Heap(h.nodes[i := h.nodes[i].(val := Some(v), exp := e)], h.arena)
  {
    hide HeapOk, IsTree, Represents;
    h' := SetFields(h, i, Some(v), e, t.layout, t.tree + t.loose);
    UnionSet(t.tree, t.loose, i, t.tree[i].(val := Some(v), exp := e));
    SetValTree(t.tree, root, t.store, i, v, e);
    t' := t.(tree := SetVal(t.tree, i, v, e), store := t.store[Full(t.tree[i]) := Entry(v, e)]);
  }

  /** Hang a fresh leaf, with or without a value, below node `p`. */
  method CreateLeaf(h: Heap, root: Idx, p: Idx, r: Byte, v: Option<Value>, comp: Key, e: Expiry, ghost t: Trunk)
    returns (h': Heap, x: Idx, ghost t': Trunk)
    requires ArtOk(h, root, t) && p in t.tree && r !in t.tree[p].kids
    requires forall j :: j in t.tree ==> Full(t.tree[j]) != Full(t.tree[p]) + [r] + comp
    ensures x !in t.tree && ArtOk(h', root, t') && t'.loose == t.loose
    ensures t'.tree == AddLeaf(t.tree, p, r, x, comp, v, e) && Grows(t.tree, t'.tree)
    ensures t'.store == Storing(t.store, Full(t.tree[p]) + [r] + comp, v, e)
    ensures x !in h.nodes && p in h.nodes
    ensures |h.nodes[p].childs| < ChildTiers.CHILDS_SIZE ==>
              h' == Inlined(Heap(h.nodes[x := Node(comp, [], v, e, None)], h.arena), p, r, x)
  {
    hide HeapOk, IsTree, Represents, Grows;
    ghost var all := t.tree + t.loose;
    ghost var leaf := Leaf(t.tree, p, r, comp, v, e);
    ghost var g;
    h', x, g := InsertLeaf(h, comp, v, e, leaf.lab, p, t.layout, all);
    UnionSet(t.tree, t.loose, x, leaf);
    ghost var f := t.tree[x := leaf];
    h', g := PushChild(h', p, x, r, g, f + t.loose);
    UnionSet(f, t.loose, p, f[p].(kids := f[p].kids[r := x]));
    AddLeafTree(t.tree, root, t.store, p, r, x, comp, v, e);
    AddLeafGrows(t.tree, p, r, x, comp, v, e);
    t' := Trunk(g, AddLeaf(t.tree, p, r, x, comp, v, e), t.loose, Storing(t.store, Full(t.tree[p]) + [r] + comp, v, e));
  }

  lemma AddLeafGrows(f: Grove, p: Idx, r: Byte, x: Idx, comp: Key, v: Option<Value>, e: Expiry)
    requires p in f && x !in f
    ensures Grows(f, AddLeaf(f, p, r, x, comp, v, e))
  {
  }

  /** A split on the slab: two halves joined by one inline edge. */
  function Halved(h: Heap, i: Idx, n: nat, m: Idx): Heap
    requires i in h.nodes && n < |h.nodes[i].comp|
  {
    Inlined(Heap(h.nodes[i := Upper(h.nodes[i], n)][m := Lower(h.nodes[i], n)], h.arena), i, h.nodes[i].comp[n], m)
  }

  /** The structural half of a split: node `i` keeps `n` bytes, a new node gets
   *  the rest. */
  method SplitAt(h: Heap, root: Idx, i: Idx, n: nat, ghost t: Trunk) returns (h': Heap, m: Idx, ghost t': Trunk)
    requires ArtOk(h, root, t) && i in t.tree && n < |t.tree[i].comp|
    ensures m !in t.tree && ArtOk(h', root, t') && t'.loose == t.loose && t'.store == t.store
    ensures t'.tree == Split(t.tree, i, n, m) && Grows(t.tree, t'.tree)
    ensures m !in h.nodes && i in h.nodes && h.nodes[i].comp == t.tree[i].comp
    ensures h' == Halved(h, i, n, m)
  {
    hide HeapOk, IsTree, Represents, Split, SplitOffGrove, AddKid, SameBody, Grows;
    ghost var all := t.tree + t.loose;
    ghost var g;
    TreeNode(h, root, t, i);
    var r := h.nodes[i].comp[n];
    h', m, g := SplitOff(h, i, n, t.layout, all);
    ghost var f := SplitOffGrove(all, i, n, m);
    SplitOffReady(all, i, n, m);
    h', g := PushChild(h', i, m, r, g, f);
    SplitBodies(t.tree, t.loose, i, n, m);
    Relabel(h', g, AddKid(f, i, r, m), Split(t.tree, i, n, m) + t.loose);
    SplitTree(t.tree, root, t.store, i, n, m);
    SplitGrows(t.tree, i, n, m);
    t' := t.(layout := g, tree := Split(t.tree, i, n, m));
  }

  lemma SplitGrows(f: Grove, i: Idx, n: nat, m: Idx)
    requires i in f && n < |f[i].comp| && m !in f
    ensures Grows(f, Split(f, i, n, m))
  {
  }

  lemma SplitOffReady(all: Grove, i: Idx, n: nat, m: Idx)
    requires i in all && n < |all[i].comp| && m !in all
    ensures i in SplitOffGrove(all, i, n, m) && SplitOffGrove(all, i, n, m)[i].kids == map[]
  {
  }

  lemma SplitBodies(f: Grove, b: Grove, i: Idx, n: nat, m: Idx)
    requires f.Keys !! b.Keys && i in f && n < |f[i].comp| && m !in f && m !in b
    ensures Split(f, i, n, m).Keys !! b.Keys
    ensures SameBody(AddKid(SplitOffGrove(f + b, i, n, m), i, f[i].comp[n], m), Split(f, i, n, m) + b)
  {
    SplitKeysOf(f, b, i, n, m);
    SplitHalves(f, b, i, n, m);
    SplitRest(f, b, i, n, m);
  }

  lemma SplitHalves(f: Grove, b: Grove, i: Idx, n: nat, m: Idx)
    requires f.Keys !! b.Keys && i in f && n < |f[i].comp| && m !in f && m !in b
    ensures var x, y := AddKid(SplitOffGrove(f + b, i, n, m), i, f[i].comp[n], m), Split(f, i, n, m) + b;
            i in x && i in y && m in x && m in y && x[i] == y[i] && x[m] == y[m]
  {
    assert (f + b)[i] == f[i];
    assert map[][f[i].comp[n] := m] == map[f[i].comp[n] := m];
  }

  lemma SplitRest(f: Grove, b: Grove, i: Idx, n: nat, m: Idx)
    requires f.Keys !! b.Keys && i in f && n < |f[i].comp| && m !in f && m !in b
    ensures var x, y := AddKid(SplitOffGrove(f + b, i, n, m), i, f[i].comp[n], m), Split(f, i, n, m) + b;
            forall j :: j in x && j != i && j != m ==> j in y && y[j] == x[j].(up := y[j].up)
  {
  }

  lemma SplitKeysOf(f: Grove, b: Grove, i: Idx, n: nat, m: Idx)
    requires f.Keys !! b.Keys && i in f && n < |f[i].comp|
    ensures Split(f, i, n, m).Keys == f.Keys + {m}
    ensures AddKid(SplitOffGrove(f + b, i, n, m), i, f[i].comp[n], m).Keys == f.Keys + b.Keys + {m}
  {
  }

  /** Make a node for a key whose descent stopped inside a compression, and store
   *  a value there, if there is one. */
  method SplitNode(h: Heap, root: Idx, i: Idx, cur: nat, n: nat, key: Key, e: Expiry, v: Option<Value>, ghost t: Trunk)
    returns (h': Heap, at: Idx, ghost m: Idx, ghost t': Trunk)
    requires ArtOk(h, root, t) && i in t.tree && cur <= |key| && t.tree[i].lab == key[..cur] && Parts(t.tree[i].comp, key[cur..], n)
    requires forall j :: j in t.tree ==> Full(t.tree[j]) != key
    ensures ArtOk(h', root, t') && t'.loose == t.loose && t'.store == Storing(t.store, key, v, e)
    ensures Grows(t.tree, t'.tree) && at in t'.tree && Full(t'.tree[at]) == key
    ensures m !in h.nodes && i in h.nodes && h.nodes[i].comp == t.tree[i].comp
    ensures n == |key[cur..]| ==> at == i && h' == StoredOn(Halved(h, i, n, m), i, v, e)
    ensures n < |key[cur..]| ==> at !in h.nodes && at != m && h' == Forked(Halved(h, i, n, m), i, key[cur..], n, at, v, e)
    ensures n < |key[cur..]| ==> t'.tree[at].up == i && t'.tree[at].lab == key[..cur] + t.tree[i].comp[..n] + [key[cur..][n]]
  {
    hide ArtOk, Split, SetVal, AddLeaf;
    var rest := key[cur..];
    var low; ghost var t1;
    h', low, t1 := SplitAt(h, root, i, n, t);
    m := low;
    SplitKeys(t.tree, i, n, m, key, cur);
    if n == |rest| {
      at := i;
      t' := t1;
      if v.Some? {
        SetValKeys(t1.tree, i, v.value, e);
        h', t' := StoreAt(h', root, i, v.value, e, t1);
      }
    } else {
      h', at, t' := CreateLeaf(h', root, i, rest[n], v, rest[n + 1..], e, t1);
      LeafKey(t1.tree, i, rest[n], at, rest[n + 1..], v, e);
    }
  }

  function StoredOn(h: Heap, i: Idx, v: Option<Value>, e: Expiry): Heap
    requires i in h.nodes
  {
    if v.Some? then Heap(h.nodes[i := h.nodes[i].(val := v, exp := e)], h.arena) else h
  }

  function Forked(h: Heap, i: Idx, rest: Key, n: nat, x: Idx, v: Option<Value>, e: Expiry): Heap
    requires i in h.nodes && n < |rest|
  {
    Inlined(Heap(h.nodes[x := Node(rest[n + 1..], [], v, e, None)], h.arena), i, rest[n], x)
  }

  lemma SetValKeys(f: Grove, i: Idx, v: Value, e: Expiry)
    requires i in f
    ensures Full(SetVal(f, i, v, e)[i]) == Full(f[i])
  {
  }

  lemma LeafKey(f: Grove, p: Idx, r: Byte, x: Idx, comp: Key, v: Option<Value>, e: Expiry)
    requires p in f && x !in f
    ensures x in AddLeaf(f, p, r, x, comp, v, e) && AddLeaf(f, p, r, x, comp, v, e)[x] == Leaf(f, p, r, comp, v, e)
    ensures Full(Leaf(f, p, r, comp, v, e)) == Full(f[p]) + [r] + comp
  {
  }

  /** The upper half of a split spells the common part of the key. */
  lemma SplitUpper(f: Grove, i: Idx, n: nat, m: Idx, key: Key, cur: nat)
    requires i in f && m !in f && cur <= |key| && f[i].lab == key[..cur] && Parts(f[i].comp, key[cur..], n)
    ensures var g := Split(f, i, n, m); var rest := key[cur..];
            && i in g && Full(g[i]) == key[..cur] + f[i].comp[..n] && |Full(g[i])| == cur + n && g[i].kids.Keys == {f[i].comp[n]}
            && (n == |rest| ==> Full(g[i]) == key)
            && (n < |rest| ==> rest[n] != f[i].comp[n] && Full(g[i]) + [rest[n]] + rest[n + 1..] == key)
  {
    var rest := key[cur..];
    assert key == key[..cur] + rest;
    if n < |rest| { assert rest == rest[..n] + [rest[n]] + rest[n + 1..]; } else { assert rest[..n] == rest; }
  }

  lemma SplitKeys(f: Grove, i: Idx, n: nat, m: Idx, key: Key, cur: nat)
    requires i in f && m !in f && cur <= |key| && f[i].lab == key[..cur] && Parts(f[i].comp, key[cur..], n)
    requires forall j :: j in f ==> Full(f[j]) != key
    ensures i in Split(f, i, n, m)
    ensures Full(Split(f, i, n, m)[i]) == key[..cur] + f[i].comp[..n]
    ensures n == |key[cur..]| ==> Full(Split(f, i, n, m)[i]) == key
    ensures n < |key[cur..]| ==> key[cur..][n] !in Split(f, i, n, m)[i].kids
    ensures n < |key[cur..]| ==> Full(Split(f, i, n, m)[i]) + [key[cur..][n]] + key[cur..][n + 1..] == key
    ensures n < |key[cur..]| ==> forall j :: j in Split(f, i, n, m) ==> Full(Split(f, i, n, m)[j]) != key
  {
    SplitUpper(f, i, n, m, key, cur);
    SplitFull(f, i, n, m);
    SplitOthers(f, i, n, m);
  }

  lemma SplitOthers(f: Grove, i: Idx, n: nat, m: Idx)
    requires i in f && n < |f[i].comp| && m !in f
    ensures Split(f, i, n, m).Keys == f.Keys + {m}
    ensures forall j :: j in f && j != i ==> Full(Split(f, i, n, m)[j]) == Full(f[j])
  {
  }

  /** A leaf for `key` was hung below node `p`. */
  ghost predicate Hung(h: Heap, f: Grove, key: Key, v: Value, e: Expiry, h': Heap, p: Idx, x: Idx) {
    && p in f && p in h.nodes && x !in h.nodes
    && |Full(f[p])| < |key| && Full(f[p]) <= key && key[|Full(f[p])|] !in f[p].kids
    && var cur := |Full(f[p])|;
       |h.nodes[p].childs| < ChildTiers.CHILDS_SIZE ==>
         h' == Inlined(Heap(h.nodes[x := Node(key[cur + 1..], [], Some(v), e, None)], h.arena), p, key[cur], x)
  }

  /** Node `i` was split for `key` after `n` bytes of its compression. */
  ghost predicate Forking(h: Heap, f: Grove, key: Key, v: Value, e: Expiry, h': Heap, i: Idx, n: nat, m: Idx, x: Idx) {
    && i in f && i in h.nodes && h.nodes[i].comp == f[i].comp && f[i].lab <= key && Parts(f[i].comp, key[|f[i].lab|..], n) && m !in h.nodes
    && var rest := key[|f[i].lab|..];
       && (n == |rest| ==> h' == StoredOn(Halved(h, i, n, m), i, Some(v), e))
       && (n < |rest| ==> x !in h.nodes && x != m && h' == Forked(Halved(h, i, n, m), i, rest, n, x, Some(v), e))
  }

  /** What storing does to the slab. */
  ghost predicate Written(h: Heap, f: Grove, key: Key, v: Value, e: Expiry, h': Heap) {
    || (exists i :: i in f && Full(f[i]) == key && i in h.nodes && h' == StoredOn(h, i, Some(v), e))
    || (exists p, x :: Hung(h, f, key, v, e, h', p, x))
    || (exists i, n, m, x :: Forking(h, f, key, v, e, h', i, n, m, x))
  }

  method SetInternal(h: Heap, root: Idx, key: Key, e: Expiry, v: Value, ghost t: Trunk) returns (h': Heap, ghost t': Trunk)
    requires ArtOk(h, root, t)
    ensures ArtOk(h', root, t') && t'.loose == t.loose && t'.store == t.store[key := Entry(v, e)]
    ensures Grows(t.tree, t'.tree)
    ensures root in h.nodes && root in t.tree
    ensures key == [] ==> h' == StoredOn(h, root, Some(v), e)
    ensures key != [] && t.tree[root].kids == map[] ==> FirstLeaf(h, root, key, v, e, h')
    ensures Written(h, t.tree, key, v, e, h')
  {
    hide HeapOk, Represents, FirstLeaf, Hung, Forking;
    TreeNode(h, root, t, root);
    if key == [] {
      assert Full(t.tree[root]) == key;
      h', t' := StoreAt(h, root, root, v, e, t);
      return;
    }
    var w := Descend(h, root, key, t);
    if t.tree[root].kids == map[] { NowhereToGo(t.tree, root, key, w); }
    match w
    case Exact(i, _, _) =>
      h', t' := StoreAt(h, root, i, v, e, t);
    case Inside(i, cur, n, _, _) =>
      MissIsAbsent(t.tree, root, t.store, key, w);
      var at; ghost var m;
      h', at, m, t' := SplitNode(h, root, i, cur, n, key, e, Some(v), t);
      KnowForking(h, t.tree, key, v, e, h', i, cur, n, m, at);
    case NoChild(p, cur) =>
      MissIsAbsent(t.tree, root, t.store, key, w);
      assert key == key[..cur] + [key[cur]] + key[cur + 1..];
      var x;
      h', x, t' := CreateLeaf(h, root, p, key[cur], Some(v), key[cur + 1..], e, t);
      KnowHung(h, t.tree, key, v, e, h', p, cur, x);
      assert p == root && cur == 0 && h.nodes[root].childs == [] ==> FirstLeaf(h, root, key, v, e, h') by { KnowFirstLeaf(h, root, key, v, e, x); }
  }

  lemma KnowHung(h: Heap, f: Grove, key: Key, v: Value, e: Expiry, h': Heap, p: Idx, cur: nat, x: Idx)
    requires p in f && p in h.nodes && x !in h.nodes && cur < |key| && Full(f[p]) == key[..cur] && key[cur] !in f[p].kids
    requires |h.nodes[p].childs| < ChildTiers.CHILDS_SIZE ==>
               h' == Inlined(Heap(h.nodes[x := Node(key[cur + 1..], [], Some(v), e, None)], h.arena), p, key[cur], x)
    ensures Hung(h, f, key, v, e, h', p, x)
  {
  }

  lemma KnowForking(h: Heap, f: Grove, key: Key, v: Value, e: Expiry, h': Heap, i: Idx, cur: nat, n: nat, m: Idx, x: Idx)
    requires i in f && i in h.nodes && h.nodes[i].comp == f[i].comp && cur <= |key| && f[i].lab == key[..cur] && Parts(f[i].comp, key[cur..], n)
    requires m !in h.nodes
    requires n == |key[cur..]| ==> h' == StoredOn(Halved(h, i, n, m), i, Some(v), e)
    requires n < |key[cur..]| ==> x !in h.nodes && x != m && h' == Forked(Halved(h, i, n, m), i, key[cur..], n, x, Some(v), e)
    ensures Forking(h, f, key, v, e, h', i, n, m, x)
  {
    assert |f[i].lab| == cur;
  }

  /** The first child of the root is one inline leaf. */
  ghost predicate FirstLeaf(h: Heap, root: Idx, key: Key, v: Value, e: Expiry, h': Heap) {
    && key != [] && root in h.nodes
    && exists x :: x !in h.nodes && h' == Inlined(Heap(h.nodes[x := Node(key[1..], [], Some(v), e, None)], h.arena), root, key[0], x)
  }

  lemma KnowFirstLeaf(h: Heap, root: Idx, key: Key, v: Value, e: Expiry, x: Idx)
    requires key != [] && root in h.nodes && x !in h.nodes
    ensures FirstLeaf(h, root, key, v, e, Inlined(Heap(h.nodes[x := Node(key[1..], [], Some(v), e, None)], h.arena), root, key[0], x))
  {
  }

  /** In a tree of one node every descent stops at the root. */
  lemma NowhereToGo(f: Grove, root: Idx, key: Key, w: Stop)
    requires IsTree(f, root) && f[root].kids == map[] && Landed(f, root, key, w)
    ensures w == NoChild(root, 0)
  {
    forall i | i in f ensures i == root {
      OnTheWay(f, root, root, i);
    }
  }

  /** The node of a key, made without a value if there is none yet. */
  method EnsureKey(h: Heap, root: Idx, key: Key, ghost t: Trunk) returns (h': Heap, at: Idx, ghost t': Trunk)
    requires ArtOk(h, root, t)
    ensures ArtOk(h', root, t') && t'.loose == t.loose && t'.store == t.store && Grows(t.tree, t'.tree)
    ensures at in t'.tree && Full(t'.tree[at]) == key
    ensures (exists i :: i in t.tree && Full(t.tree[i]) == key) ==> h' == h && t' == t
  {
    hide HeapOk, Represents, SetVal, AddLeaf;
    if key == [] {
      return h, root, t;
    }
    var w := Descend(h, root, key, t);
    match w
    case Exact(i, _, _) =>
      return h, i, t;
    case Inside(i, cur, n, _, _) =>
      MissIsAbsent(t.tree, root, t.store, key, w);
      ghost var m;
      h', at, m, t' := SplitNode(h, root, i, cur, n, key, NO_EXPIRY, None, t);
    case NoChild(p, cur) =>
      MissIsAbsent(t.tree, root, t.store, key, w);
      assert key == key[..cur] + [key[cur]] + key[cur + 1..];
      h', at, t' := CreateLeaf(h, root, p, key[cur], None, key[cur + 1..], NO_EXPIRY, t);
      LeafKey(t.tree, p, key[cur], at, key[cur + 1..], None, NO_EXPIRY);
  }

  // ---- Deleting --------------------------------------------------------------------------

  /** The grove after recompressing node `i`, given what its node looks like. */
  ghost function Recompressed(h: Heap, i: Idx, f: Grove): Grove
    requires SingleChild(h, i).Some? ==> i in f && SingleChild(h, i).value.radix in f[i].kids && f[i].kids[SingleChild(h, i).value.radix] in f
  {
    if SingleChild(h, i).Some? then Merge(f, i, SingleChild(h, i).value.radix) else f
  }

  lemma MergeBodies(a: Grove, b: Grove, i: Idx, r: Byte)
    requires a.Keys !! b.Keys && i in a && r in a[i].kids && a[i].kids[r] in a && a[i].kids[r] != i
    ensures Merge(a, i, r).Keys !! b.Keys
    ensures SameBody(Merge(a + b, i, r), Merge(a, i, r) + b)
  {
    var c := a[i].kids[r];
    var x, y := Merge(a + b, i, r), Merge(a, i, r) + b;
    assert (a + b)[i] == a[i] && (a + b)[c] == a[c];
    assert x.Keys == y.Keys;
    assert x[i] == y[i];
    forall j | j in x && j != i ensures x[j] == y[j].(up := x[j].up) { }
  }

  lemma UnionSwap(a: Grove, b: Grove)
    requires a.Keys !! b.Keys
    ensures a + b == b + a
  {
  }

  lemma LinkedKidsLive(f: Grove, tops: set<Idx>, b: Grove, i: Idx)
    requires Linked(f, tops) && f.Keys !! b.Keys && i in f
    ensures KidsLive(f + b, i) && KidsLive(b + f, i)
    ensures forall r :: r in f[i].kids ==> f[i].kids[r] in f && f[i].kids[r] != i
  {
    forall r | r in f[i].kids ensures f[i].kids[r] in f && f[i].kids[r] != i { assert EdgeOk(f, tops, i, r); }
  }

  /** Recompress whatever lives at index `i`: nothing, a tree node other than
   *  the root, or a severed node of the pending deletion `mine`. */
  method Recompress(h: Heap, root: Idx, i: Idx, ghost t: Trunk, ghost mine: Grove, ghost tops: set<Idx>) returns (h': Heap, ghost t': Trunk)
    requires ArtOk(h, root, t) && i != root
    requires i in t.loose ==> PartOf(mine, t.loose) && Linked(mine, tops) && i in mine
    ensures ArtOk(h', root, t') && t'.store == t.store
    ensures i !in t.tree && i !in t.loose ==> t' == t
    ensures i in t.tree ==> t'.loose == t.loose && Absorbs(h, i, t.tree) && t'.tree == Recompressed(h, i, t.tree)
    ensures i in t.loose ==> t'.tree == t.tree && Absorbs(h, i, t.loose) && Absorbs(h, i, mine) && t'.loose == Recompressed(h, i, t.loose)
    ensures h' == AbsorbHeap(h, i)
  {
    hide HeapOk, Represents, IsTree, Merge, SingleChild, AbsorbHeap;
    ghost var all := t.tree + t.loose;
    if i in t.tree { TreeKidsLive(t.tree, root, t.loose, i); }
    if i in t.loose { MineKidsLive(mine, tops, t.loose, t.tree, i); }
    ghost var g;
    h', g := TryRecompress(h, i, t.layout, all);
    t' := t;
    if SingleChild(h, i).Some? {
      ghost var r := SingleChild(h, i).value.radix;
      if i in t.tree {
        MergeBodies(t.tree, t.loose, i, r);
        MergeTree(t.tree, root, t.store, i, r);
        Relabel(h', g, Merge(all, i, r), Merge(t.tree, i, r) + t.loose);
        t' := t.(layout := g, tree := Merge(t.tree, i, r));
      } else {
        MergeBodies(t.loose, t.tree, i, r);
        UnionSwap(t.tree, t.loose);
        UnionSwap(t.tree, Merge(t.loose, i, r));
        Relabel(h', g, Merge(all, i, r), t.tree + Merge(t.loose, i, r));
        t' := t.(layout := g, loose := Merge(t.loose, i, r));
      }
    }
  }

  /** If node `i` qualifies, it has one child in `f` and no value there. */
  ghost predicate Absorbs(h: Heap, i: Idx, f: Grove) {
    SingleChild(h, i).Some? ==>
      i in f && f[i].val.None? && f[i].kids.Keys == {SingleChild(h, i).value.radix} && f[i].kids[SingleChild(h, i).value.radix] in f
  }

  lemma TreeKidsLive(f: Grove, root: Idx, b: Grove, i: Idx)
    requires IsTree(f, root) && f.Keys !! b.Keys && i in f
    ensures KidsLive(f + b, i)
    ensures forall r :: r in f[i].kids ==> f[i].kids[r] in f && f[i].kids[r] != i
  {
    LinkedKidsLive(f, {root}, b, i);
  }

  method RecompressTree(h: Heap, root: Idx, i: Idx, ghost t: Trunk) returns (h': Heap, ghost t': Trunk)
    requires ArtOk(h, root, t) && i in t.tree && i != root
    ensures ArtOk(h', root, t') && t'.loose == t.loose && t'.store == t.store
    ensures Absorbs(h, i, t.tree) && t'.tree == Recompressed(h, i, t.tree) && h' == AbsorbHeap(h, i)
  {
    hide HeapOk, Represents, IsTree, Merge, SingleChild, AbsorbHeap;
    h', t' := Recompress(h, root, i, t, map[], {});
  }

  lemma MineKidsLive(mine: Grove, tops: set<Idx>, loose: Grove, tree: Grove, i: Idx)
    requires Linked(mine, tops) && PartOf(mine, loose) && tree.Keys !! loose.Keys && i in mine
    ensures KidsLive(tree + loose, i) && loose[i] == mine[i] && (tree + loose)[i] == mine[i]
    ensures forall r :: r in mine[i].kids ==> mine[i].kids[r] in mine && mine[i].kids[r] != i
  {
    forall r | r in mine[i].kids ensures mine[i].kids[r] in mine && mine[i].kids[r] != i { assert EdgeOk(mine, tops, i, r); }
  }

  ghost function Without(store: map<Key, Entry>, s: Spot): map<Key, Entry> {
    if s.val.Some? then store - {Full(s)} else store
  }

  function Forgotten(h: Heap, i: Idx): Heap
    requires i in h.nodes
  {
    Heap(h.nodes[i := h.nodes[i].(val := None)], h.arena)
  }

  /** Forget the value of a node that stays. */
  method ForgetValue(h: Heap, root: Idx, i: Idx, ghost t: Trunk) returns (h': Heap, ghost t': Trunk)
    requires ArtOk(h, root, t) && i in t.tree
    ensures ArtOk(h', root, t') && t'.loose == t.loose && t'.tree == ClearVal(t.tree, i)
    ensures t'.store == Without(t.store, t.tree[i])
    ensures i in h.nodes && h' == Forgotten(h, i)
  {
    hide HeapOk, IsTree, Represents;
    TreeNode(h, root, t, i);
    h' := SetFields(h, i, None, h.nodes[i].exp, t.layout, t.tree + t.loose);
    assert t.tree[i].(val := None, exp := t.tree[i].exp) == t.tree[i].(val := None);
    UnionSet(t.tree, t.loose, i, t.tree[i].(val := None));
    ClearValTree(t.tree, root, t.store, i);
    t' := t.(tree := ClearVal(t.tree, i), store := Without(t.store, t.tree[i]));
  }

  /** A leaf goes, and its inline edge with it. */
  function Plucked(h: Heap, i: Idx, p: Idx, k: nat): Heap
    requires i != p && p in h.nodes && k < |h.nodes[p].childs|
  {
    Uninlined(Heap(h.nodes - {i}, h.arena), p, k)
  }

  /** Remove a childless node and its parent's edge to it. */
  method RemoveLeaf(h: Heap, root: Idx, i: Idx, p: Idx, r: Byte, ghost t: Trunk) returns (h': Heap, ghost t': Trunk)
    requires ArtOk(h, root, t) && HangsFrom(t.tree, root, i, p, r) && t.tree[i].kids == map[]
    ensures p in t.tree && i != p && p in t'.tree && t'.tree == DropLeaf(t.tree, i)
    ensures ArtOk(h', root, t') && t'.loose == t.loose && t'.store == Without(t.store, t.tree[i])
    ensures p in h.nodes && forall k :: 0 <= k < |h.nodes[p].childs| && h.nodes[p].childs[k].radix == r ==> h' == Plucked(h, i, p, k)
  {
    hide HeapOk, Represents, IsTree;
    TreeNode(h, root, t, i);
    TreeNode(h, root, t, p);
    DropLeafTree(t.tree, root, t.store, i);
    ghost var all, f := t.tree + t.loose, t.tree - {i};
    ghost var g;
    h', g := FreeNode(h, i, t.layout, all);
    UnionDrop(t.tree, t.loose, i);
    h', g := RemoveChild(h', p, r, g, f + t.loose);
    UnionSet(f, t.loose, p, f[p].(kids := f[p].kids - {r}));
    assert DropKid(f, p, r) == DropLeaf(t.tree, i);
    t' := Trunk(g, DropLeaf(t.tree, i), t.loose, Without(t.store, t.tree[i]));
  }

  /** The key at node `i`, which the descent reached from `p`, is removed. A node
   *  with children only loses its value; one without leaves the tree. */
  method DeleteNode(h: Heap, root: Idx, i: Idx, p: Idx, r: Byte, ghost t: Trunk) returns (h': Heap, ghost t': Trunk)
    requires ArtOk(h, root, t) && HangsFrom(t.tree, root, i, p, r)
    ensures ArtOk(h', root, t') && t'.loose == t.loose && t'.store == Without(t.store, t.tree[i])
    ensures i in h.nodes && p in h.nodes && i != p
    ensures h.nodes[i].childs != [] || h.nodes[i].overflow.Some? ==> h' == AbsorbHeap(Forgotten(h, i), i)
    ensures h.nodes[i].childs == [] && h.nodes[i].overflow.None? ==>
              forall k :: 0 <= k < |h.nodes[p].childs| && h.nodes[p].childs[k].radix == r ==>
                h' == if p == root then Plucked(h, i, p, k) else AbsorbHeap(Plucked(h, i, p, k), p)
  {
    hide HeapOk, Represents, AbsorbHeap;
    TreeNode(h, root, t, i);
    TreeNode(h, root, t, p);
    ParentEdge(t.tree, {root}, i);
    var n := h.nodes[i];
    if n.childs != [] || n.overflow.Some? {
      h', t' := ForgetValue(h, root, i, t);
      h', t' := RecompressTree(h', root, i, t');
    } else {
      h', t' := RemoveLeaf(h, root, i, p, r, t);
      if p != root {
        h', t' := RecompressTree(h', root, p, t');
      }
    }
  }

  /** Lookup with lazy expiration: an expired node found on the way is deleted. */
  method GetIdx(h: Heap, root: Idx, now: nat, key: Key, ghost t: Trunk) returns (h': Heap, res: Option<Idx>, ghost t': Trunk)
    requires ArtOk(h, root, t) && key != []
    ensures ArtOk(h', root, t') && t'.loose == t.loose
    ensures res.Some? ==> h' == h && t' == t && res.value in t.tree && Full(t.tree[res.value]) == key && !Expired(t.tree[res.value].exp, now)
    ensures res.None? ==> key !in t.store || Expired(t.store[key].exp, now)
    ensures res.None? ==> t'.store == t.store - {key}
  {
    hide HeapOk, IsTree, Represents;
    var w := Descend(h, root, key, t);
    if !w.Exact? {
      MissIsAbsent(t.tree, root, t.store, key, w);
      assert t.store - {key} == t.store;
      return h, None, t;
    }
    TreeNode(h, root, t, w.idx);
    HitIsPresent(t.tree, root, t.store, w.idx);
    if Expired(h.nodes[w.idx].exp, now) {
      assert t.store - {key} == Without(t.store, t.tree[w.idx]);
      h', t' := DeleteNode(h, root, w.idx, w.parent, w.radix, t);
      return h', None, t';
    }
    return h, Some(w.idx), t;
  }

  method Get(h: Heap, root: Idx, now: nat, key: Key, ghost t: Trunk) returns (h': Heap, res: Option<Value>, ghost t': Trunk)
    requires ArtOk(h, root, t) && key != []
    ensures ArtOk(h', root, t') && t'.loose == t.loose
    ensures res == if key in t.store && !Expired(t.store[key].exp, now) then Some(t.store[key].val) else None
    ensures t'.store == if key in t.store && Expired(t.store[key].exp, now) then t.store - {key} else t.store
  {
    hide HeapOk, IsTree, Represents;
    var idx;
    h', idx, t' := GetIdx(h, root, now, key, t);
    if idx.None? {
      assert key !in t.store ==> t.store - {key} == t.store;
      return h', None, t';
    }
    TreeNode(h, root, t, idx.value);
    HitIsPresent(t.tree, root, t.store, idx.value);
    res := h.nodes[idx.value].val;
  }

  /** What deleting the leaf `i`, inline below a parent other than the root, does
   *  to the slab. */
  ghost predicate LeafGone(h: Heap, root: Idx, f: Grove, i: Idx, h': Heap) {
    i in f && i in h.nodes && i != root && f[i].lab != [] && h.nodes[i].childs == [] && h.nodes[i].overflow.None? && f[i].up != root ==>
      && f[i].up in h.nodes && f[i].up != i
      && forall k :: 0 <= k < |h.nodes[f[i].up].childs| && h.nodes[f[i].up].childs[k].radix == Last(f[i].lab) ==>
           h' == AbsorbHeap(Plucked(h, i, f[i].up, k), f[i].up)
  }

  /** Deleting answers with the stored value, expired or not. */
  method Del(h: Heap, root: Idx, key: Key, ghost t: Trunk) returns (h': Heap, res: Option<Value>, ghost t': Trunk)
    requires ArtOk(h, root, t) && key != []
    ensures ArtOk(h', root, t') && t'.loose == t.loose
    ensures res == if key in t.store then Some(t.store[key].val) else None
    ensures t'.store == t.store - {key}
    ensures forall i :: i in t.tree && Full(t.tree[i]) == key ==> LeafGone(h, root, t.tree, i, h')
  {
    hide HeapOk, IsTree, Represents, AbsorbHeap, Plucked;
    var w := Descend(h, root, key, t);
    if !w.Exact? {
      MissIsAbsent(t.tree, root, t.store, key, w);
      assert t.store - {key} == t.store;
      return h, None, t;
    }
    TreeNode(h, root, t, w.idx);
    HitIsPresent(t.tree, root, t.store, w.idx);
    var n := h.nodes[w.idx];
    assert t.store - {key} == Without(t.store, t.tree[w.idx]);
    if (n.childs != [] || n.overflow.Some?) && n.val.None? {
      forall i | i in t.tree && Full(t.tree[i]) == key ensures i == w.idx { FullInjective(t.tree, root, i, w.idx); }
      return h, None, t;
    }
    h', t' := DeleteNode(h, root, w.idx, w.parent, w.radix, t);
    forall i | i in t.tree && Full(t.tree[i]) == key ensures i == w.idx { FullInjective(t.tree, root, i, w.idx); }
    res := n.val;
  }

  /** How many nodes a cooperative command visits before it yields. */
  const YIELD_BUDGET: nat := 256

  // ---- Severing and freeing ----------------------------------------------------------------

  /** `mine` is part of `loose`. */
  ghost predicate PartOf(mine: Grove, loose: Grove) {
    forall i :: i in mine ==> i in loose && loose[i] == mine[i]
  }

  /** A pending deletion: the nodes it still has to free hang from its stack. */
  ghost predicate Pending(mine: Grove, stack: seq<Idx>) {
    NoDup(stack) && Linked(mine, Elems(stack))
  }

  /** The entries with a prefix, and the others. */
  ghost function Matching(store: map<Key, Entry>, prefix: Key): map<Key, Entry> {
    map k | k in store && prefix <= k :: store[k]
  }

  ghost function Outside(store: map<Key, Entry>, prefix: Key): map<Key, Entry> {
    map k | k in store && !(prefix <= k) :: store[k]
  }

  /** Find the subtree covered by a prefix and cut the edge to it. */
  method FindAndCut(h: Heap, root: Idx, prefix: Key, ghost t: Trunk)
    returns (h': Heap, stack: seq<Idx>, parent: Idx, ghost t': Trunk, ghost mine: Grove)
    requires ArtOk(h, root, t) && prefix != []
    ensures ArtOk(h', root, t') && t'.store == Outside(t.store, prefix)
    ensures mine.Keys !! t.loose.Keys && t'.loose == t.loose + mine && Pending(mine, stack)
    ensures |Valued(mine)| == |Matching(t.store, prefix)| && mine.Keys == Covering(t.tree, prefix)
    ensures if stack == [] then parent == root && h' == h && t' == t else parent in t'.tree
  {
    hide HeapOk, Represents, IsTree, Linked;
    var w := Descend(h, root, prefix, t);
    if w.NoChild? || (w.Inside? && w.common != |prefix| - w.cursor) {
      NothingBelow(t.tree, root, t.store, prefix, w);
      EmptyPending();
      assert t.loose + map[] == t.loose;
      return h, [], root, t, map[];
    }
    ghost var i := w.idx;
    assert t.tree[i].lab <= prefix <= Full(t.tree[i]) by { CoversPrefix(t.tree, root, prefix, w); }
    h', t', mine := Cut(h, root, w.idx, w.parent, w.radix, prefix, t);
    SinglePending(mine, w.idx);
    return h', [w.idx], w.parent, t', mine;
  }

  lemma EmptyPending()
    ensures Pending(map[], []) && |Valued(map[])| == 0
  {
  }

  lemma SinglePending(mine: Grove, i: Idx)
    requires Linked(mine, {i})
    ensures Pending(mine, [i])
  {
    assert Elems([i]) == {i};
  }

  lemma CoversPrefix(f: Grove, root: Idx, prefix: Key, w: Stop)
    requires Landed(f, root, prefix, w) && (w.Exact? || (w.Inside? && w.common == |prefix| - w.cursor))
    ensures w.idx in f && f[w.idx].lab <= prefix <= Full(f[w.idx])
  {
    if w.Inside? {
      var rest := prefix[w.cursor..];
      assert prefix == prefix[..w.cursor] + rest;
      assert rest == rest[..w.common] == f[w.idx].comp[..w.common];
    }
  }

  /** A descent that ends elsewhere proves that no stored key has the prefix. */
  lemma NothingBelow(f: Grove, root: Idx, store: map<Key, Entry>, prefix: Key, w: Stop)
    requires IsTree(f, root) && Represents(f, store) && Landed(f, root, prefix, w)
    requires w.NoChild? || (w.Inside? && w.common != |prefix| - w.cursor)
    ensures forall j :: j in f ==> !(prefix <= Full(f[j]))
    ensures store == Outside(store, prefix) && Matching(store, prefix) == map[]
  {
    forall j | j in f ensures !(prefix <= Full(f[j])) {
      if prefix <= Full(f[j]) { PassesThrough(f, root, prefix, w, j); }
    }
    forall k | k in store ensures !(prefix <= k) {
      var j :| Holds(f, j, k);
    }
  }

  lemma PassesThrough(f: Grove, root: Idx, prefix: Key, w: Stop, j: Idx)
    requires IsTree(f, root) && Landed(f, root, prefix, w) && j in f && prefix <= Full(f[j])
    ensures w.Exact? || (w.Inside? && w.common == |prefix| - w.cursor)
  {
    match w
    case Exact(i, p, r) =>
    case Inside(i, cur, n, p, r) =>
      assert f[i].lab <= prefix;
      assert Full(f[i])[cur + n] == f[i].comp[n] && (n < |prefix| - cur ==> prefix[cur..][n] == prefix[cur + n]);
      OnTheWay(f, root, i, j);
    case NoChild(i, cur) =>
      assert f[i].lab <= Full(f[i]) <= prefix;
      OnTheWay(f, root, i, j);
  }

  method Cut(h: Heap, root: Idx, i: Idx, p: Idx, r: Byte, ghost prefix: Key, ghost t: Trunk)
    returns (h': Heap, ghost t': Trunk, ghost mine: Grove)
    requires ArtOk(h, root, t) && HangsFrom(t.tree, root, i, p, r) && t.tree[i].lab <= prefix <= Full(t.tree[i])
    ensures ArtOk(h', root, t') && t'.store == Outside(t.store, prefix)
    ensures mine.Keys !! t.loose.Keys && t'.loose == t.loose + mine && Linked(mine, {i})
    ensures |Valued(mine)| == |Matching(t.store, prefix)| && p in t'.tree && mine.Keys == Covering(t.tree, prefix)
  {
    hide HeapOk, Represents, IsTree, Linked;
    StumpTree(t.tree, root, i);
    StumpStore(t.tree, root, t.store, i, prefix);
    TwigLinked(t.tree, root, i);
    ghost var g;
    h', g := RemoveChild(h, p, r, t.layout, t.tree + t.loose);
    UnionSet(t.tree, t.loose, p, t.tree[p].(kids := t.tree[p].kids - {r}));
    mine := Twig(t.tree, i);
    CutBodies(t.tree, t.loose, i);
    t' := Trunk(g, Stump(t.tree, i), t.loose + mine, Outside(t.store, prefix));
    CutCount(t.tree, root, t.store, i, prefix);
  }

  lemma CutBodies(f: Grove, b: Grove, i: Idx)
    requires f.Keys !! b.Keys && i in f && f[i].up in f && f[i].lab != [] && f[i].up in Stump(f, i)
    ensures DropKid(f, f[i].up, Last(f[i].lab)) + b == Stump(f, i) + (b + Twig(f, i))
    ensures Stump(f, i).Keys !! (b + Twig(f, i)).Keys && Twig(f, i).Keys !! b.Keys
  {
    var x, y := DropKid(f, f[i].up, Last(f[i].lab)) + b, Stump(f, i) + (b + Twig(f, i));
    assert x.Keys == y.Keys;
    forall j | j in x ensures x[j] == y[j] { }
  }

  /** As many values are severed as keys disappear. */
  lemma CutCount(f: Grove, root: Idx, store: map<Key, Entry>, i: Idx, prefix: Key)
    requires IsTree(f, root) && i in f && Represents(Twig(f, i), Matching(store, prefix))
    ensures |Valued(Twig(f, i))| == |Matching(store, prefix)|
  {
    hide Represents, IsTree;
    TreeDistinctKeys(f, root);
    ValuedCount(Twig(f, i), Matching(store, prefix));
  }

  /** Free one severed node; its children are handed back. */
  method FreeOne(h: Heap, i: Idx, ghost g: Layout, ghost all: Grove, ghost mine: Grove, ghost tops: set<Idx>)
    returns (h': Heap, kids: seq<Idx>, hadVal: bool, ghost g': Layout)
    requires HeapOk(h, g, all) && PartOf(mine, all) && Linked(mine, tops) && i in mine && i in h.nodes
    ensures HeapOk(h', g', all - {i}) && h'.nodes == h.nodes - {i}
    ensures NoDup(kids) && Elems(kids) == mine[i].kids.Values && hadVal == mine[i].val.Some?
  {
    hide HeapOk, Linked, ChildTiers.Lists;
    var es := IterChildren(h, i, g, all);
    kids := seq(|es|, k requires 0 <= k < |es| => es[k].idx);
    KidsOf(mine, tops, i, es, kids);
    KnowVal(h, g, all, i);
    hadVal := h.nodes[i].val.Some?;
    h', g' := FreeNode(h, i, g, all);
  }

  lemma KnowVal(h: Heap, g: Layout, all: Grove, i: Idx)
    requires HeapOk(h, g, all) && i in all && i in h.nodes
    ensures h.nodes[i].val == all[i].val && h.nodes[i].exp == all[i].exp && h.nodes[i].comp == all[i].comp
  {
    hide ChildTiers.ArenaOk;
    KnowNode(h, g, all, i);
  }

  /** Distinct radixes lead to distinct children. */
  lemma KidsOf(f: Grove, tops: set<Idx>, i: Idx, es: seq<ChildTiers.Edge>, kids: seq<Idx>)
    requires Linked(f, tops) && i in f && ChildTiers.Lists(es, f[i].kids)
    requires |kids| == |es| && forall k :: 0 <= k < |es| ==> kids[k] == es[k].idx
    ensures NoDup(kids) && Elems(kids) == f[i].kids.Values
  {
    forall j, k | 0 <= j < k < |kids| ensures kids[j] != kids[k] {
      ChildTiers.ListsDistinct(es, f[i].kids, j, k);
      assert EdgeOk(f, tops, i, es[j].radix) && EdgeOk(f, tops, i, es[k].radix);
      var n := |Full(f[i])|;
      assert f[kids[j]].lab[n] == es[j].radix && f[kids[k]].lab[n] == es[k].radix;
    }
    forall c | c in f[i].kids.Values ensures c in kids {
      var r :| r in f[i].kids && f[i].kids[r] == c;
      assert kids[ChildTiers.PosOf(es, r)] == c;
    }
    forall c | c in kids ensures c in f[i].kids.Values {
      var k :| 0 <= k < |kids| && kids[k] == c;
      assert es[k].radix in f[i].kids;
    }
  }

  /** Pop and free up to `budget` nodes; returns how many values they held. */
  method FreeNodes(h: Heap, stack: seq<Idx>, budget: nat, ghost g: Layout, ghost all: Grove, ghost mine: Grove)
    returns (h': Heap, stack': seq<Idx>, count: nat, ghost g': Layout, ghost mine': Grove)
    requires HeapOk(h, g, all) && PartOf(mine, all) && Pending(mine, stack)
    ensures HeapOk(h', g', all - (mine.Keys - mine'.Keys)) && h'.nodes == h.nodes - (mine.Keys - mine'.Keys)
    ensures Pending(mine', stack') && PartOf(mine', mine)
    ensures count + |Valued(mine')| == |Valued(mine)|
    ensures |mine| - |mine'| <= budget && (stack' != [] ==> |mine| - |mine'| == budget)
  {
    hide HeapOk, Linked, Valued;
    h', stack', count, g', mine' := h, stack, 0, g, mine;
    var processed := 0;
    assert all - (mine.Keys - mine.Keys) == all && h.nodes - (mine.Keys - mine.Keys) == h.nodes;
    while processed < budget && stack' != []
      invariant HeapOk(h', g', all - (mine.Keys - mine'.Keys)) && h'.nodes == h.nodes - (mine.Keys - mine'.Keys)
      invariant NoDup(stack') && Linked(mine', Elems(stack')) && PartOf(mine', mine)
      invariant count + |Valued(mine')| == |Valued(mine)|
      invariant processed <= budget && |mine| - |mine'| == processed
      decreases |mine'|
    {
      var i := Last(stack');
      ghost var rest := stack'[..|stack'| - 1];
      assert stack' == rest + [i];
      stack' := stack'[..|stack'| - 1];
      TopLive(h', g', all, mine, mine', rest, i);
      if i in h'.nodes {
        var kids, hadVal;
        h', kids, hadVal, g' := FreeOne(h', i, g', all - (mine.Keys - mine'.Keys), mine', Elems(rest + [i]));
        PopPush(mine', rest, i, kids);
        stack' := stack' + kids;
        if hadVal {
          count := count + 1;
        }
        FreedValued(mine', i);
        LooseShrinks(all, h.nodes, mine, mine', i);
        mine' := mine' - {i};
        processed := processed + 1;
      }
    }
  }

  lemma TopLive(h: Heap, g: Layout, all: Grove, mine: Grove, now: Grove, rest: seq<Idx>, i: Idx)
    requires PartOf(mine, all) && PartOf(now, mine) && HeapOk(h, g, all - (mine.Keys - now.Keys))
    requires Linked(now, Elems(rest + [i]))
    ensures i in now && i in h.nodes && PartOf(now, all - (mine.Keys - now.Keys))
  {
    hide ChildTiers.ArenaOk, NodeOk;
    assert i in rest + [i];
    assert i in Elems(rest + [i]);
    LiveNode(h, g, all - (mine.Keys - now.Keys), i);
  }

  /** The same on the tree: severed nodes go, the tree and the store stay. */
  method FreeChunk(h: Heap, root: Idx, stack: seq<Idx>, budget: nat, ghost t: Trunk, ghost mine: Grove)
    returns (h': Heap, stack': seq<Idx>, count: nat, ghost t': Trunk, ghost mine': Grove)
    requires ArtOk(h, root, t) && PartOf(mine, t.loose) && Pending(mine, stack)
    ensures ArtOk(h', root, t') && t'.tree == t.tree && t'.store == t.store
    ensures Pending(mine', stack') && PartOf(mine', mine)
    ensures t'.loose == t.loose - (mine.Keys - mine'.Keys)
    ensures count + |Valued(mine')| == |Valued(mine)|
    ensures |mine| - |mine'| <= budget && (stack' != [] ==> |mine| - |mine'| == budget)
  {
    hide HeapOk, IsTree, Represents, Pending, Valued;
    ghost var g;
    InUnion(t.tree, t.loose, mine);
    h', stack', count, g, mine' := FreeNodes(h, stack, budget, t.layout, t.tree + t.loose, mine);
    LooseDrops(t.tree, t.loose, mine.Keys - mine'.Keys);
    t' := t.(layout := g, loose := t.loose - (mine.Keys - mine'.Keys));
  }

  lemma InUnion(tree: Grove, loose: Grove, mine: Grove)
    requires PartOf(mine, loose)
    ensures PartOf(mine, tree + loose) && mine.Keys <= loose.Keys
  {
  }

  lemma LooseDrops(tree: Grove, loose: Grove, gone: set<Idx>)
    requires tree.Keys !! loose.Keys && gone <= loose.Keys
    ensures (tree + loose) - gone == tree + (loose - gone) && tree.Keys !! (loose - gone).Keys
  {
  }

  /** Replacing the popped top by its children keeps the deletion pending. */
  lemma PopPush(mine: Grove, rest: seq<Idx>, i: Idx, kids: seq<Idx>)
    requires NoDup(rest + [i]) && Linked(mine, Elems(rest + [i])) && i in mine
    requires NoDup(kids) && Elems(kids) == mine[i].kids.Values
    ensures NoDup(rest + kids) && Linked(mine - {i}, Elems(rest + kids))
  {
    var tops := Elems(rest + [i]);
    assert (rest + [i])[|rest|] == i;
    assert forall k :: 0 <= k < |rest| ==> (rest + [i])[k] == rest[k];
    assert i in tops;
    FreeTopLinked(mine, tops, i);
    SpliceElems(rest, i, kids);
  }

  lemma SpliceElems(rest: seq<Idx>, i: Idx, kids: seq<Idx>)
    requires NoDup(rest + [i]) && NoDup(kids) && Elems(kids) !! Elems(rest + [i])
    ensures NoDup(rest + kids) && Elems(rest + kids) == Elems(rest + [i]) - {i} + Elems(kids)
  {
    assert (rest + [i])[|rest|] == i;
    assert forall k :: 0 <= k < |rest| ==> (rest + [i])[k] == rest[k];
    assert forall x :: x in rest + [i] <==> x in rest || x == i;
    assert forall x :: x in rest + kids <==> x in rest || x in kids;
    forall j, k | 0 <= j < |rest| && 0 <= k < |kids| ensures rest[j] != kids[k] {
      assert rest[j] in Elems(rest + [i]) && kids[k] in Elems(kids);
    }
  }

  lemma FreedValued(f: Grove, i: Idx)
    requires i in f
    ensures |Valued(f)| == |Valued(f - {i})| + (if f[i].val.Some? then 1 else 0)
    ensures |f - {i}| == |f| - 1
  {
    assert Valued(f - {i}) == Valued(f) - {i};
    RemoveKeySize(f, i);
  }

  lemma LooseShrinks(loose: Grove, nodes: map<Idx, Node>, mine: Grove, now: Grove, i: Idx)
    requires PartOf(mine, loose) && PartOf(now, mine) && i in now
    ensures (loose - (mine.Keys - now.Keys)) - {i} == loose - (mine.Keys - (now - {i}).Keys)
    ensures (nodes - (mine.Keys - now.Keys)) - {i} == nodes - (mine.Keys - (now - {i}).Keys)
    ensures PartOf(now - {i}, mine)
  {
  }

  /** Free everything pending, without a budget; returns how many values went. */
  method FreeAll(h: Heap, root: Idx, stack: seq<Idx>, ghost t: Trunk, ghost mine: Grove)
    returns (h': Heap, count: nat, ghost t': Trunk)
    requires ArtOk(h, root, t) && PartOf(mine, t.loose) && Pending(mine, stack)
    ensures ArtOk(h', root, t') && t'.tree == t.tree && t'.store == t.store && t'.loose == t.loose - mine.Keys
    ensures count == |Valued(mine)|
  {
    hide ArtOk;
    var rest;
    ghost var left;
    h', rest, count, t', left := FreeChunk(h, root, stack, |h.nodes| + 1, t, mine);
    EnoughBudget(h, root, t, mine);
    Drained(left, rest);
    assert mine.Keys - left.Keys == mine.Keys;
  }

  lemma EnoughBudget(h: Heap, root: Idx, t: Trunk, mine: Grove)
    requires ArtOk(h, root, t) && PartOf(mine, t.loose)
    ensures |mine| <= |h.nodes|
  {
    hide ChildTiers.ArenaOk, NodeOk;
    assert mine.Keys <= h.nodes.Keys;
    ChildTiers.Subset(mine.Keys, h.nodes.Keys);
  }

  /** An empty stack means that nothing is left to free. */
  lemma Drained(mine: Grove, stack: seq<Idx>)
    requires Pending(mine, stack)
    ensures stack == [] ==> mine == map[] && |Valued(mine)| == 0
  {
    if stack == [] {
      assert Elems(stack) == {};
      NoTopsEmpty(mine);
      assert Valued(mine) == {};
    }
  }

  lemma Undrained(mine: Grove, stack: seq<Idx>)
    requires Pending(mine, stack) && stack != []
    ensures |mine| > 0
  {
    assert stack[0] in Elems(stack);
    assert stack[0] in mine;
  }

  lemma TakenBack(loose: Grove, mine: Grove)
    requires mine.Keys !! loose.Keys
    ensures PartOf(mine, loose + mine) && (loose + mine) - mine.Keys == loose
  {
  }

  method Deln(h: Heap, root: Idx, prefix: Key, ghost t: Trunk) returns (h': Heap, count: nat, ghost t': Trunk)
    requires ArtOk(h, root, t) && prefix != []
    ensures ArtOk(h', root, t') && t'.loose == t.loose
    ensures t'.store == Outside(t.store, prefix)
    ensures count == |Matching(t.store, prefix)|
  {
    hide ArtOk, Pending, PartOf, Valued, Matching, Outside, SingleChild;
    var stack, parent;
    ghost var mine;
    h', stack, parent, t', mine := FindAndCut(h, root, prefix, t);
    TakenBack(t.loose, mine);
    Drained(mine, stack);
    if stack == [] {
      return h', 0, t';
    }
    h', count, t' := FreeAll(h', root, stack, t', mine);
    if parent != root {
      h', t' := RecompressTree(h', root, parent, t');
    }
  }

  // ---- A new tree --------------------------------------------------------------------------

  /** The slab may give the root any index. */
  method New(root: Idx) returns (h: Heap, ghost t: Trunk)
    ensures ArtOk(h, root, t) && t.store == map[] && t.loose == map[]
    ensures t == NewTrunk(root) && h.nodes == map[root := Node([], [], None, NO_EXPIRY, None)]
  {
    h := Heap(map[root := Node([], [], None, NO_EXPIRY, None)], ChildTiers.Arena(SlotVec.Vec([], None, 0), map[]));
    t := NewTrunk(root);
    NewOk(root);
  }

  ghost function NewTrunk(root: Idx): Trunk {
    Trunk(Layout(ChildTiers.View(SlotVec.Thread(map[], map[], []), map[], map[], map[]), map[root := map[]], map[]),
          map[root := Spot([], root, [], None, NO_EXPIRY, map[])], map[], map[])
  }

  lemma NewOk(root: Idx)
    ensures ArtOk(Heap(map[root := Node([], [], None, NO_EXPIRY, None)], ChildTiers.Arena(SlotVec.Vec([], None, 0), map[])),
                  root, NewTrunk(root))
  {
    var t := NewTrunk(root);
    assert t.tree + t.loose == t.tree;
    EmptyNodeOk(Node([], [], None, NO_EXPIRY, None), map[], t.tree[root]);
    assert IsTree(t.tree, root);
  }
}
