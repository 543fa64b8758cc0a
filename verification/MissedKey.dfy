/** A scan that misses a key. From a new store, 257 keys are stored; `getn_async`
 *  of the empty prefix visits 256 nodes and yields with the two leaves of one
 *  node on its stack; another task deletes the key of one leaf, and the node
 *  absorbs the other. Both frames are skipped, and the key of the other leaf,
 *  which was live all the time, is never reported. */
module MissedKey {
  import opened Basics
  import opened Forest
  import opened Heap
  import opened Art
  import opened Scan
  import ChildTiers

  type Edge = ChildTiers.Edge

  /** The key of `n` bytes 1. */
  function Ones(n: nat): Key {
    seq(n, _ => 1)
  }

  function Bare(childs: seq<Edge>): Node {
    Node([], childs, None, NO_EXPIRY, None)
  }

  function Holding(childs: seq<Edge>, v: Value): Node {
    Node([], childs, Some(v), NO_EXPIRY, None)
  }

  /** Which node is which: the two-leaf node, its leaves and the chain. */
  datatype Cast = Cast(fork: Idx, one: Idx, two: Idx, chain: seq<Idx>)

  function AfterLink(chain: seq<Idx>, j: nat): seq<Edge> {
    if j + 1 < |chain| then [ChildTiers.Edge(1, chain[j + 1])] else []
  }

  ghost predicate Distinct(root: Idx, c: Cast) {
    && NoDup(c.chain) && c.fork != root && c.one != root && c.two != root && c.one != c.fork && c.two != c.fork && c.one != c.two
    && forall x :: x in c.chain ==> x != root && x != c.fork && x != c.one && x != c.two
  }

  /** Nothing else is in the slab. */
  ghost predicate Only(nodes: set<Idx>, root: Idx, c: Cast) {
    forall i :: i in nodes <==> i == root || i == c.fork || i == c.one || i == c.two || i in c.chain
  }

  ghost predicate TopShape(nodes: map<Idx, Node>, root: Idx, c: Cast, v: Value) {
    && root in nodes && c.fork in nodes && c.one in nodes && c.two in nodes
    && nodes[root] == Bare([ChildTiers.Edge(2, c.fork)] + if c.chain == [] then [] else [ChildTiers.Edge(1, c.chain[0])])
    && nodes[c.fork] == Bare([ChildTiers.Edge(1, c.one), ChildTiers.Edge(2, c.two)])
    && nodes[c.one] == Holding([], v) && nodes[c.two] == Holding([], v)
  }

  ghost predicate ChainShape(nodes: map<Idx, Node>, chain: seq<Idx>, v: Value) {
    forall j {:trigger chain[j]} :: 0 <= j < |chain| ==> chain[j] in nodes && nodes[chain[j]] == Holding(AfterLink(chain, j), v)
  }

  /** The slab: root, fork, two leaves and the chain. */
  ghost predicate Shape(h: Heap, root: Idx, c: Cast, v: Value) {
    Distinct(root, c) && Only(h.nodes.Keys, root, c) && TopShape(h.nodes, root, c, v) && ChainShape(h.nodes, c.chain, v)
  }

  // ---- Reading the tree off the slab --------------------------------------------------------

  /** An inline edge is an edge of the tree. */
  lemma InlineKid(h: Heap, root: Idx, t: Trunk, i: Idx, k: nat)
    requires ArtOk(h, root, t) && i in t.tree && i in h.nodes && k < |h.nodes[i].childs|
    ensures var e := h.nodes[i].childs[k];
            && e.radix in t.tree[i].kids && t.tree[i].kids[e.radix] == e.idx
            && e.idx in t.tree && e.idx != root && t.tree[e.idx].up == i && t.tree[e.idx].lab == Full(t.tree[i]) + [e.radix]
  {
    hide HeapOk, Represents, ChildTiers.Lists;
    EdgesListed(h, root, t, i);
    ListsPick(ChildEdges(h, i), t.tree[i].kids);
    var e := h.nodes[i].childs[k];
    assert ChildEdges(h, i)[k] == e;
    assert EdgeOk(t.tree, {root}, i, e.radix);
  }

  /** A node without inline edges and without a slot has no children; one with
   *  inline edges only has just those. */
  lemma InlineOnly(h: Heap, root: Idx, t: Trunk, i: Idx, r: Byte)
    requires ArtOk(h, root, t) && i in t.tree && i in h.nodes && h.nodes[i].overflow.None?
    ensures r in t.tree[i].kids <==> exists k :: 0 <= k < |h.nodes[i].childs| && h.nodes[i].childs[k].radix == r
  {
    hide HeapOk, Represents, IsTree;
    EdgesListed(h, root, t, i);
    assert ChildEdges(h, i) == h.nodes[i].childs;
    if exists k :: 0 <= k < |h.nodes[i].childs| && h.nodes[i].childs[k].radix == r {
      var k :| 0 <= k < |h.nodes[i].childs| && h.nodes[i].childs[k].radix == r;
      assert ChildEdges(h, i)[k].radix in t.tree[i].kids;
    }
  }

  /** The keys that the nodes spell. */
  ghost predicate Spells(t: Trunk, root: Idx, c: Cast) {
    && root in t.tree && Full(t.tree[root]) == []
    && c.fork in t.tree && t.tree[c.fork].lab == [2] && Full(t.tree[c.fork]) == [2]
    && c.one in t.tree && t.tree[c.one].up == c.fork && t.tree[c.one].lab == [2, 1] && Full(t.tree[c.one]) == [2, 1]
    && c.two in t.tree && t.tree[c.two].lab == [2, 2] && Full(t.tree[c.two]) == [2, 2]
    && (forall j {:trigger c.chain[j]} :: 0 <= j < |c.chain| ==> c.chain[j] in t.tree && Full(t.tree[c.chain[j]]) == Ones(j + 1))
  }

  lemma OnesMore(j: nat)
    ensures Ones(j) + [1] == Ones(j + 1) && Ones(0) == []
  {
  }

  lemma SpelledNode(h: Heap, root: Idx, t: Trunk, i: Idx, k: nat)
    requires ArtOk(h, root, t) && i in t.tree && i in h.nodes && k < |h.nodes[i].childs| && h.nodes[i].childs[k].idx in h.nodes
    requires h.nodes[h.nodes[i].childs[k].idx].comp == []
    ensures var e := h.nodes[i].childs[k];
            e.idx in t.tree && t.tree[e.idx].up == i && t.tree[e.idx].lab == Full(t.tree[i]) + [e.radix] && Full(t.tree[e.idx]) == Full(t.tree[i]) + [e.radix]
  {
    hide HeapOk, Represents;
    InlineKid(h, root, t, i, k);
    TreeNode(h, root, t, h.nodes[i].childs[k].idx);
  }

  lemma ReadTop(h: Heap, root: Idx, t: Trunk, c: Cast, v: Value)
    requires ArtOk(h, root, t) && TopShape(h.nodes, root, c, v)
    ensures root in t.tree && Full(t.tree[root]) == []
    ensures c.fork in t.tree && t.tree[c.fork].lab == [2] && Full(t.tree[c.fork]) == [2]
    ensures c.one in t.tree && t.tree[c.one].up == c.fork && t.tree[c.one].lab == [2, 1] && Full(t.tree[c.one]) == [2, 1]
    ensures c.two in t.tree && t.tree[c.two].lab == [2, 2] && Full(t.tree[c.two]) == [2, 2]
  {
    hide ArtOk;
    RootLive(h, root, t);
    RootNothing(h, root, t);
    assert h.nodes[root].childs[0] == ChildTiers.Edge(2, c.fork);
    SpelledNode(h, root, t, root, 0);
    SpelledNode(h, root, t, c.fork, 0);
    SpelledNode(h, root, t, c.fork, 1);
    assert [] + [2] == [2] && [2] + [1] == [2, 1] && [2] + [2] == [2, 2];
  }

  lemma RootNothing(h: Heap, root: Idx, t: Trunk)
    requires ArtOk(h, root, t)
    ensures root in t.tree && Full(t.tree[root]) == []
  {
    hide HeapOk, Represents;
  }

  /** The edge that leads to link `j`. */
  lemma LinkEdge(h: Heap, root: Idx, c: Cast, v: Value, j: nat)
    requires TopShape(h.nodes, root, c, v) && ChainShape(h.nodes, c.chain, v) && j < |c.chain|
    ensures c.chain[j] in h.nodes && h.nodes[c.chain[j]].comp == []
    ensures j == 0 ==> root in h.nodes && |h.nodes[root].childs| == 2 && h.nodes[root].childs[1] == ChildTiers.Edge(1, c.chain[0])
    ensures j > 0 ==> c.chain[j - 1] in h.nodes && h.nodes[c.chain[j - 1]].childs == [ChildTiers.Edge(1, c.chain[j])]
  {
    assert c.chain[j] in h.nodes;
    if j > 0 { assert c.chain[j - 1] in h.nodes; }
  }

  lemma {:induction false} ReadChain(h: Heap, root: Idx, t: Trunk, c: Cast, v: Value, j: nat)
    requires ArtOk(h, root, t) && TopShape(h.nodes, root, c, v) && ChainShape(h.nodes, c.chain, v) && j < |c.chain|
    ensures c.chain[j] in t.tree && Full(t.tree[c.chain[j]]) == Ones(j + 1)
    decreases j
  {
    hide ArtOk, TopShape, ChainShape, Ones;
    OnesMore(j);
    LinkEdge(h, root, c, v, j);
    if j == 0 {
      RootNothing(h, root, t);
      SpelledNode(h, root, t, root, 1);
    } else {
      ReadChain(h, root, t, c, v, j - 1);
      SpelledNode(h, root, t, c.chain[j - 1], 0);
    }
  }

  lemma ReadTree(h: Heap, root: Idx, t: Trunk, c: Cast, v: Value)
    requires ArtOk(h, root, t) && Shape(h, root, c, v)
    ensures Spells(t, root, c)
    ensures forall i :: i in t.tree ==> i == root || i == c.fork || i == c.one || i == c.two || i in c.chain
    ensures forall i :: i in t.tree ==> i in h.nodes && t.tree[i].comp == []
  {
    hide ArtOk, TopShape, ChainShape, Distinct;
    ReadTop(h, root, t, c, v);
    forall j | 0 <= j < |c.chain| ensures c.chain[j] in t.tree && Full(t.tree[c.chain[j]]) == Ones(j + 1) { ReadChain(h, root, t, c, v, j); }
    forall i | i in t.tree ensures i in h.nodes && t.tree[i].comp == [] {
      TreeNode(h, root, t, i);
      NoCompression(h, root, c, v, i);
    }
  }

  lemma NoCompression(h: Heap, root: Idx, c: Cast, v: Value, i: Idx)
    requires Shape(h, root, c, v) && i in h.nodes
    ensures h.nodes[i].comp == [] && h.nodes[i].overflow.None? && |h.nodes[i].childs| <= 2
  {
    if i in c.chain { var j :| 0 <= j < |c.chain| && c.chain[j] == i; }
  }

  // ---- Building it ------------------------------------------------------------------------------

  /** The next link hangs from the end of the chain. */
  lemma NextPlace(h: Heap, root: Idx, t: Trunk, c: Cast, v: Value, h': Heap)
    requires ArtOk(h, root, t) && Shape(h, root, c, v) && Written(h, t.tree, Ones(|c.chain| + 1), v, NO_EXPIRY, h')
    ensures exists x :: x !in h.nodes && Shape(h', root, c.(chain := c.chain + [x]), v)
  {
    hide ArtOk, Hung, Forking, Shape;
    var key := Ones(|c.chain| + 1);
    ReadTree(h, root, t, c, v);
    if i :| i in t.tree && Full(t.tree[i]) == key && i in h.nodes && h' == StoredOn(h, i, Some(v), NO_EXPIRY) {
      NotSpelled(t, root, c, i);
    } else if p, x :| Hung(h, t.tree, key, v, NO_EXPIRY, h', p, x) {
      AtTheEnd(h, root, t, c, v, h', p, x);
      Linked(h, root, c, v, h', p, x);
    } else {
      var i, n, m, x :| Forking(h, t.tree, key, v, NO_EXPIRY, h', i, n, m, x);
      NoFork(h, t, key, v, h', i, n, m, x);
    }
  }

  lemma NotSpelled(t: Trunk, root: Idx, c: Cast, i: Idx)
    requires Spells(t, root, c) && i in t.tree && (i == root || i == c.fork || i == c.one || i == c.two || i in c.chain)
    ensures Full(t.tree[i]) != Ones(|c.chain| + 1)
  {
    var key := Ones(|c.chain| + 1);
    assert key[0] == 1;
    if i in c.chain { var j :| 0 <= j < |c.chain| && c.chain[j] == i; assert |Full(t.tree[i])| == j + 1; }
  }

  lemma NoFork(h: Heap, t: Trunk, key: Key, v: Value, h': Heap, i: Idx, n: nat, m: Idx, x: Idx)
    requires forall j :: j in t.tree ==> t.tree[j].comp == []
    ensures !Forking(h, t.tree, key, v, NO_EXPIRY, h', i, n, m, x)
  {
  }

  /** The end of the chain, or the root when there is no chain yet. */
  function End(root: Idx, c: Cast): Idx {
    if c.chain == [] then root else Last(c.chain)
  }

  lemma AtTheEnd(h: Heap, root: Idx, t: Trunk, c: Cast, v: Value, h': Heap, p: Idx, x: Idx)
    requires ArtOk(h, root, t) && Shape(h, root, c, v) && Spells(t, root, c)
    requires forall i :: i in t.tree ==> i == root || i == c.fork || i == c.one || i == c.two || i in c.chain
    requires Hung(h, t.tree, Ones(|c.chain| + 1), v, NO_EXPIRY, h', p, x)
    ensures p == End(root, c) && x !in h.nodes && p in h.nodes
    ensures h' == Inlined(Heap(h.nodes[x := Holding([], v)], h.arena), p, 1, x)
  {
    hide ArtOk, Shape, Ones, Hung;
    var n := |c.chain| + 1;
    HungOnes(h, t.tree, n, v, h', p, x);
    NoCompression(h, root, c, v, p);
    OnlyPlace(h, root, t, c, v, p);
    LengthAtEnd(t, root, c, p);
    HungLast(h, t.tree, n, v, h', p, x);
  }

  lemma HungOnes(h: Heap, f: Grove, n: nat, v: Value, h': Heap, p: Idx, x: Idx)
    requires Hung(h, f, Ones(n), v, NO_EXPIRY, h', p, x)
    ensures p in f && p in h.nodes && x !in h.nodes && |Full(f[p])| < n && 1 !in f[p].kids
    ensures Full(f[p]) != [] ==> Full(f[p])[0] == 1
  {
    assert forall k :: 0 <= k < n ==> Ones(n)[k] == 1;
  }

  lemma HungLast(h: Heap, f: Grove, n: nat, v: Value, h': Heap, p: Idx, x: Idx)
    requires Hung(h, f, Ones(n), v, NO_EXPIRY, h', p, x) && p in f && |Full(f[p])| + 1 == n && p in h.nodes && |h.nodes[p].childs| <= 2
    ensures h' == Inlined(Heap(h.nodes[x := Holding([], v)], h.arena), p, 1, x)
  {
    assert Ones(n)[n - 1] == 1 && Ones(n)[n..] == [];
  }

  lemma OnlyPlace(h: Heap, root: Idx, t: Trunk, c: Cast, v: Value, p: Idx)
    requires ArtOk(h, root, t) && Shape(h, root, c, v) && Spells(t, root, c) && p in t.tree && p in h.nodes
    requires p == root || p == c.fork || p == c.one || p == c.two || p in c.chain
    requires 1 !in t.tree[p].kids && (Full(t.tree[p]) != [] ==> Full(t.tree[p])[0] == 1)
    ensures p == End(root, c)
  {
    hide ArtOk, TopShape, ChainShape, Distinct, Ones, Only;
    NoCompression(h, root, c, v, p);
    if p == root {
      if c.chain != [] {
        LinkEdge(h, root, c, v, 0);
        InlineOnly(h, root, t, root, 1);
      }
    } else if p in c.chain {
      var j :| 0 <= j < |c.chain| && c.chain[j] == p;
      if j + 1 < |c.chain| {
        LinkEdge(h, root, c, v, j + 1);
        assert h.nodes[p].childs[0].radix == 1;
        InlineOnly(h, root, t, p, 1);
      }
    }
  }

  lemma LengthAtEnd(t: Trunk, root: Idx, c: Cast, p: Idx)
    requires Spells(t, root, c) && p == End(root, c)
    ensures p in t.tree && |Full(t.tree[p])| == |c.chain|
  {
    if c.chain != [] { assert c.chain[|c.chain| - 1] == p; }
  }

  /** Hanging the next link keeps the shape. */
  lemma Linked(h: Heap, root: Idx, c: Cast, v: Value, h': Heap, p: Idx, x: Idx)
    requires Shape(h, root, c, v) && p == End(root, c) && x !in h.nodes && p in h.nodes
    requires h' == Inlined(Heap(h.nodes[x := Holding([], v)], h.arena), p, 1, x)
    ensures Shape(h', root, c.(chain := c.chain + [x]), v)
  {
    hide TopShape, ChainShape;
    var c' := c.(chain := c.chain + [x]);
    assert forall y :: y in c'.chain <==> y in c.chain || y == x;
    LinkedTop(h, root, c, v, h', p, x);
    LinkedChain(h, root, c, v, h', p, x);
  }

  lemma LinkedTop(h: Heap, root: Idx, c: Cast, v: Value, h': Heap, p: Idx, x: Idx)
    requires Distinct(root, c) && TopShape(h.nodes, root, c, v) && p == End(root, c) && x !in h.nodes && p in h.nodes
    requires h' == Inlined(Heap(h.nodes[x := Holding([], v)], h.arena), p, 1, x)
    ensures TopShape(h'.nodes, root, c.(chain := c.chain + [x]), v)
  {
    if c.chain == [] {
      assert [ChildTiers.Edge(2, c.fork)] + [] == [ChildTiers.Edge(2, c.fork)];
    } else {
      assert Last(c.chain) in c.chain;
      assert (c.chain + [x])[0] == c.chain[0];
    }
  }

  lemma LinkedChain(h: Heap, root: Idx, c: Cast, v: Value, h': Heap, p: Idx, x: Idx)
    requires Distinct(root, c) && ChainShape(h.nodes, c.chain, v) && p == End(root, c) && x !in h.nodes && p in h.nodes
    requires h' == Inlined(Heap(h.nodes[x := Holding([], v)], h.arena), p, 1, x)
    ensures ChainShape(h'.nodes, c.chain + [x], v)
  {
    var more, n := c.chain + [x], |c.chain|;
    forall j | 0 <= j < |more| ensures more[j] in h'.nodes && h'.nodes[more[j]] == Holding(AfterLink(more, j), v) {
      if j < n {
        assert more[j] == c.chain[j] && c.chain[j] in h.nodes;
        if j == n - 1 {
          assert p == c.chain[j] && more[j + 1] == x;
          assert [] + [ChildTiers.Edge(1, x)] == [ChildTiers.Edge(1, x)];
        } else {
          assert more[j + 1] == c.chain[j + 1] && c.chain[j] != p;
        }
      }
    }
  }

  /** The slab after the first key, `[2, 1]`. */
  ghost predicate Seed(h: Heap, root: Idx, x: Idx, v: Value) {
    x != root && h.nodes == map[root := Bare([ChildTiers.Edge(2, x)]), x := Node([1], [], Some(v), NO_EXPIRY, None)]
  }

  lemma SeedMade(h: Heap, root: Idx, v: Value, h': Heap)
    requires h.nodes == map[root := Bare([])] && FirstLeaf(h, root, [2, 1], v, NO_EXPIRY, h')
    ensures exists x :: Seed(h', root, x, v)
  {
    var x :| x !in h.nodes && h' == Inlined(Heap(h.nodes[x := Node([2, 1][1..], [], Some(v), NO_EXPIRY, None)], h.arena), root, 2, x);
    assert [2, 1][1..] == [1] && [] + [ChildTiers.Edge(2, x)] == [ChildTiers.Edge(2, x)];
    assert Seed(h', root, x, v);
  }

  lemma ReadSeed(h: Heap, root: Idx, t: Trunk, x: Idx, v: Value)
    requires ArtOk(h, root, t) && Seed(h, root, x, v)
    ensures root in t.tree && x in t.tree && Full(t.tree[root]) == [] && t.tree[x].lab == [2] && Full(t.tree[x]) == [2, 1]
    ensures t.tree[x].comp == [1] && t.tree[root].comp == [] && 2 in t.tree[root].kids
    ensures forall i :: i in t.tree ==> i == root || i == x
  {
    hide ArtOk;
    RootNothing(h, root, t);
    InlineKid(h, root, t, root, 0);
    TreeNode(h, root, t, x);
    TreeNode(h, root, t, root);
    assert [] + [2] == [2] && [2] + [1] == [2, 1];
    forall i | i in t.tree ensures i == root || i == x { TreeNode(h, root, t, i); }
  }

  /** Storing `[2, 2]` next splits that leaf. */
  lemma ForkMade(h: Heap, root: Idx, t: Trunk, x: Idx, v: Value, h': Heap)
    requires ArtOk(h, root, t) && Seed(h, root, x, v) && Written(h, t.tree, [2, 2], v, NO_EXPIRY, h')
    ensures exists one, two :: Shape(h', root, Cast(x, one, two, []), v)
  {
    hide ArtOk, Hung, Forking, Shape;
    var key: Key := [2, 2];
    ReadSeed(h, root, t, x, v);
    NoneSpells22(t, root, x);
    if p, y :| Hung(h, t.tree, key, v, NO_EXPIRY, h', p, y) {
      NotHung(h, root, t, x, v, h', p, y);
    } else {
      var i, n, m, y :| Forking(h, t.tree, key, v, NO_EXPIRY, h', i, n, m, y);
      Forked22(h, root, t, x, v, h', i, n, m, y);
    }
  }

  lemma NotHung(h: Heap, root: Idx, t: Trunk, x: Idx, v: Value, h': Heap, p: Idx, y: Idx)
    requires root in t.tree && x in t.tree && Full(t.tree[root]) == [] && Full(t.tree[x]) == [2, 1] && 2 in t.tree[root].kids
    requires forall i :: i in t.tree ==> i == root || i == x
    ensures !Hung(h, t.tree, [2, 2], v, NO_EXPIRY, h', p, y)
  {
    var key: Key := [2, 2];
    assert key[0] == 2;
  }

  lemma NoneSpells22(t: Trunk, root: Idx, x: Idx)
    requires root in t.tree && x in t.tree && Full(t.tree[root]) == [] && Full(t.tree[x]) == [2, 1]
    requires forall i :: i in t.tree ==> i == root || i == x
    ensures forall i :: i in t.tree ==> Full(t.tree[i]) != [2, 2]
  {
    var a: Key, b: Key := [2, 1], [2, 2];
    assert a[1] == 1 && b[1] == 2;
  }

  lemma Forked22(h: Heap, root: Idx, t: Trunk, x: Idx, v: Value, h': Heap, i: Idx, n: nat, m: Idx, y: Idx)
    requires Seed(h, root, x, v) && Forking(h, t.tree, [2, 2], v, NO_EXPIRY, h', i, n, m, y)
    requires root in t.tree && x in t.tree && t.tree[x].lab == [2] && t.tree[x].comp == [1] && t.tree[root].comp == []
    requires forall j :: j in t.tree ==> j == root || j == x
    ensures Shape(h', root, Cast(x, m, y, []), v)
  {
    var key: Key := [2, 2];
    assert i == x;
    assert key[1..] == [2];
    assert n == 0;
    var rest: Key := [2];
    assert rest[1..] == [] && [1][0..0] == [] && [1][1..] == [];
    var h1 := Halved(h, x, 0, m);
    assert h1.nodes[x] == Bare([ChildTiers.Edge(1, m)]) && h1.nodes[m] == Holding([], v) && h1.nodes[root] == h.nodes[root];
    assert h' == Forked(h1, x, rest, 0, y, Some(v), NO_EXPIRY);
    assert h'.nodes[x] == Bare([ChildTiers.Edge(1, m)] + [ChildTiers.Edge(2, y)]);
    assert h'.nodes[y] == Holding([], v) && h'.nodes[m] == Holding([], v) && h'.nodes[root] == h.nodes[root];
    assert [ChildTiers.Edge(2, x)] + [] == [ChildTiers.Edge(2, x)];
  }

  /** The two fork keys are stored for good. */
  ghost predicate ForkStored(store: Store, v: Value) {
    && [2, 1] in store && store[[2, 1]] == Entry(v, NO_EXPIRY) && [2, 2] in store && store[[2, 2]] == Entry(v, NO_EXPIRY)
    && forall k :: k in store ==> |k| == 2 || (k != [] && k[0] == 1)
  }

  /** The store, built through `set` alone. */
  method Build(root: Idx, v: Value, count: nat) returns (h: Heap, ghost t: Trunk, ghost c: Cast)
    ensures ArtOk(h, root, t) && Shape(h, root, c, v) && |c.chain| == count && ForkStored(t.store, v)
  {
    hide ArtOk, Shape, Written, FirstLeaf, Seed;
    ghost var h0, t0;
    h, t := New(root);
    h0, t0 := h, t;
    EmptyTree(h, root, t);
    h, t := SetInternal(h, root, [2, 1], NO_EXPIRY, v, t);
    SeedMade(h0, root, v, h);
    ghost var x :| Seed(h, root, x, v);
    h0, t0 := h, t;
    h, t := SetInternal(h, root, [2, 2], NO_EXPIRY, v, t);
    ForkMade(h0, root, t0, x, v, h);
    ghost var one, two :| Shape(h, root, Cast(x, one, two, []), v);
    c := Cast(x, one, two, []);
    for j := 0 to count
      invariant ArtOk(h, root, t) && Shape(h, root, c, v) && |c.chain| == j && ForkStored(t.store, v)
    {
      h0, t0 := h, t;
      h, t := SetInternal(h, root, Ones(j + 1), NO_EXPIRY, v, t);
      NextPlace(h0, root, t0, c, v, h);
      ghost var y :| y !in h0.nodes && Shape(h, root, c.(chain := c.chain + [y]), v);
      c := c.(chain := c.chain + [y]);
      KeepsFork(t0.store, v, j);
    }
  }

  lemma EmptyTree(h: Heap, root: Idx, t: Trunk)
    requires ArtOk(h, root, t) && h.nodes == map[root := Bare([])]
    ensures root in t.tree && t.tree[root].kids == map[]
  {
    hide ArtOk;
    RootLive(h, root, t);
    TreeNode(h, root, t, root);
  }

  lemma KeepsFork(store: Store, v: Value, j: nat)
    requires ForkStored(store, v)
    ensures ForkStored(store[Ones(j + 1) := Entry(v, NO_EXPIRY)], v)
  {
    assert Ones(j + 1)[0] == 1;
  }

  // ---- The first chunk ------------------------------------------------------------------------------

  lemma InlineEdges(h: Heap, i: Idx)
    requires i in h.nodes && h.nodes[i].overflow.None?
    ensures ChildEdges(h, i) == h.nodes[i].childs
  {
  }

  /** What is left of the chain on the stack, above the fork. */
  function Ahead1(c: Cast, j: nat): seq<Frame> {
    if j < |c.chain| then [Frame(c.chain[j], Ones(j + 1))] else []
  }

  /** The keys reported from the chain. */
  function OnesUpTo(j: nat): seq<Key> {
    seq(j, k requires 0 <= k < j => Ones(k + 1))
  }

  /** Visiting link `j`. */
  lemma ChainStep(h: Heap, root: Idx, c: Cast, v: Value, now: nat, j: nat, low: seq<Frame>, budget: nat)
    requires Shape(h, root, c, v) && j < |c.chain| && budget > 0
    ensures Chunk(h, now, low + Ahead1(c, j), OnesUpTo(j), budget) == Chunk(h, now, low + Ahead1(c, j + 1), OnesUpTo(j + 1), budget - 1)
  {
    hide Chunk, Ones, Distinct, Only, TopShape;
    assert c.chain[j] in h.nodes;
    var x, base := c.chain[j], Ones(j + 1);
    InlineEdges(h, x);
    assert base + [] == base;
    OnesMore(j + 1);
    assert Frames(base, AfterLink(c.chain, j)) == Ahead1(c, j + 1);
    assert OnesUpTo(j) + [base] == OnesUpTo(j + 1);
    ChunkStep(h, now, low, Frame(x, base), OnesUpTo(j), budget);
  }

  lemma {:induction false} ChainChunk(h: Heap, root: Idx, c: Cast, v: Value, now: nat, j: nat, low: seq<Frame>, budget: nat)
    requires Shape(h, root, c, v) && j <= |c.chain| && budget >= |c.chain| - j
    ensures Chunk(h, now, low + Ahead1(c, j), OnesUpTo(j), budget) == Chunk(h, now, low, OnesUpTo(|c.chain|), budget - (|c.chain| - j))
    decreases |c.chain| - j
  {
    hide Chunk, Shape, OnesUpTo;
    if j == |c.chain| {
      assert low + [] == low;
    } else {
      ChainStep(h, root, c, v, now, j, low, budget);
      ChainChunk(h, root, c, v, now, j + 1, low, budget - 1);
    }
  }

  /** Visiting the fork pushes both leaves. */
  lemma ForkStep(h: Heap, root: Idx, c: Cast, v: Value, now: nat, keys: seq<Key>)
    requires Shape(h, root, c, v)
    ensures Chunk(h, now, [Frame(c.fork, [2])], keys, 1) == ([Frame(c.one, [2, 1]), Frame(c.two, [2, 2])], keys)
  {
    hide Chunk, Distinct, Only, ChainShape;
    InlineEdges(h, c.fork);
    assert [] + [Frame(c.fork, [2])] == [Frame(c.fork, [2])] && [2] + [] == [2] && keys + [] == keys;
    assert [2] + [1] == [2, 1] && [2] + [2] == [2, 2];
    ChunkStep(h, now, [], Frame(c.fork, [2]), keys, 1);
    var pushed := Frames([2], h.nodes[c.fork].childs);
    assert pushed == [Frame(c.one, [2, 1]), Frame(c.two, [2, 2])];
    assert [] + pushed == pushed;
    ChunkStops(h, now, pushed, keys, 0);
  }

  /** With 255 links, the first chunk ends with both leaves on the stack. */
  lemma FirstChunk(h: Heap, root: Idx, c: Cast, v: Value, now: nat)
    requires Shape(h, root, c, v) && |c.chain| == YIELD_BUDGET - 1
    ensures root in h.nodes && Scan.Found(h, now, root, []) == []
    ensures Chunk(h, now, Frames([], ChildEdges(h, root)), [], YIELD_BUDGET) ==
              ([Frame(c.one, [2, 1]), Frame(c.two, [2, 2])], OnesUpTo(YIELD_BUDGET - 1))
  {
    hide Chunk, Distinct, Only, ChainShape;
    InlineEdges(h, root);
    OnesMore(0);
    assert [] + [2] == [2] && [] + [1] == [1] && Ones(1) == [1];
    var low := [Frame(c.fork, [2])];
    assert Frames([], h.nodes[root].childs) == low + Ahead1(c, 0);
    assert OnesUpTo(0) == [];
    ChainChunk(h, root, c, v, now, 0, low, YIELD_BUDGET);
    ForkStep(h, root, c, v, now, OnesUpTo(YIELD_BUDGET - 1));
  }

  // ---- The deletion and the rest ----------------------------------------------------------------------

  /** Deleting `[2, 1]` lets the fork absorb the other leaf: both are gone. */
  lemma BothGone(h: Heap, root: Idx, t: Trunk, c: Cast, v: Value, h': Heap)
    requires ArtOk(h, root, t) && Shape(h, root, c, v)
    requires forall i :: i in t.tree && Full(t.tree[i]) == [2, 1] ==> LeafGone(h, root, t.tree, i, h')
    ensures c.one !in h'.nodes && c.two !in h'.nodes
    ensures root in h'.nodes && h'.nodes[root] == h.nodes[root]
  {
    hide ArtOk, ChainShape, Only;
    ReadTop(h, root, t, c, v);
    assert LeafGone(h, root, t.tree, c.one, h');
    assert h.nodes[c.fork].childs[0].radix == 1 && Last(t.tree[c.one].lab) == 1;
    var p := Plucked(h, c.one, c.fork, 0);
    assert h' == AbsorbHeap(p, c.fork);
    var es := h.nodes[c.fork].childs;
    assert es[0 := Last(es)] == [ChildTiers.Edge(2, c.two), ChildTiers.Edge(2, c.two)];
    assert p.nodes[c.fork].childs == [ChildTiers.Edge(2, c.two)];
    assert SingleChild(p, c.fork) == Some(ChildTiers.Edge(2, c.two));
  }

  lemma {:induction false} AllSkipped(h: Heap, now: nat, stack: seq<Frame>, keys: seq<Key>, budget: nat)
    requires budget > 0 && forall a :: 0 <= a < |stack| ==> stack[a].idx !in h.nodes
    ensures Chunk(h, now, stack, keys, budget) == ([], keys)
    decreases |stack|
  {
    if stack != [] { AllSkipped(h, now, stack[..|stack| - 1], keys, budget); }
  }

  lemma NotAmongOnes(j: nat)
    ensures [2, 2] !in OnesUpTo(j)
  {
    forall k | 0 <= k < j ensures OnesUpTo(j)[k] != [2, 2] { assert Ones(k + 1)[0] == 1; }
  }

  /** The run: `set` 257 times, `getn_async` of the empty prefix with its first
   *  chunk, `del`, and the rest of the scan. The scan suspends after the first
   *  chunk and ends after the second, and `[2, 2]`, live before and after the
   *  deletion, is not reported. */
  method MissAKey(root: Idx, v: Value, now: nat)
    returns (before: Heap, after: Heap, suspended: seq<Frame>, stack: seq<Frame>, keys: seq<Key>, ghost t: Trunk, ghost t': Trunk)
    ensures ArtOk(before, root, t) && ArtOk(after, root, t') && t'.store == t.store - {[2, 1]}
    ensures |suspended| == 2 && stack == []
    ensures Live(t.store, now, [2, 2]) && Live(t'.store, now, [2, 2]) && [2, 2] !in keys
  {
    hide ArtOk, Shape, Chunk, LeafGone;
    ghost var c;
    before, t, c := Build(root, v, YIELD_BUDGET - 1);
    suspended, keys := StartScan(before, root, now, [], t);
    FirstChunk(before, root, c, v, now);
    suspended, keys := CollectChunk(before, root, now, suspended, keys, YIELD_BUDGET, t);
    var res;
    after, res, t' := Del(before, root, [2, 1], t);
    BothGone(before, root, t, c, v, after);
    AllSkipped(after, now, suspended, keys, YIELD_BUDGET);
    stack, keys := CollectChunk(after, root, now, suspended, keys, YIELD_BUDGET, t');
    NotAmongOnes(YIELD_BUDGET - 1);
  }

  // ---- A freed index that is handed out again ------------------------------------------------------------

  /** Storing `[3, 4]` hangs a leaf from the root. */
  lemma NewLeaf(h: Heap, root: Idx, t: Trunk, v: Value, h': Heap)
    requires ArtOk(h, root, t) && root in h.nodes && h.nodes[root].overflow.None? && |h.nodes[root].childs| <= 2
    requires forall k :: 0 <= k < |h.nodes[root].childs| ==> h.nodes[root].childs[k].radix <= 2
    requires Written(h, t.tree, [3, 4], v, NO_EXPIRY, h')
    ensures exists x :: x !in h.nodes && h' == Inlined(Heap(h.nodes[x := Node([4], [], Some(v), NO_EXPIRY, None)], h.arena), root, 3, x)
  {
    hide ArtOk, Hung, Forking;
    var key: Key := [3, 4];
    RootNothing(h, root, t);
    InlineOnly(h, root, t, root, 3);
    NoThrees(h, root, t);
    if p, x :| Hung(h, t.tree, key, v, NO_EXPIRY, h', p, x) {
      HungAtRoot(h, root, t, v, h', p, x);
    } else {
      var i, n, m, x :| Forking(h, t.tree, key, v, NO_EXPIRY, h', i, n, m, x);
      NoForkAt3(h, root, t, v, h', i, n, m, x);
    }
  }

  /** No node spells a key that begins with 3. */
  lemma NoThrees(h: Heap, root: Idx, t: Trunk)
    requires ArtOk(h, root, t) && root in t.tree && 3 !in t.tree[root].kids
    ensures forall i :: i in t.tree && Full(t.tree[i]) != [] ==> Full(t.tree[i])[0] != 3
  {
    hide HeapOk, Represents;
    forall i | i in t.tree && Full(t.tree[i]) != [] ensures Full(t.tree[i])[0] != 3 { OnTheWay(t.tree, root, root, i); }
  }

  lemma HungAtRoot(h: Heap, root: Idx, t: Trunk, v: Value, h': Heap, p: Idx, x: Idx)
    requires ArtOk(h, root, t) && root in t.tree && root in h.nodes && |h.nodes[root].childs| <= 2 && Full(t.tree[root]) == []
    requires forall i :: i in t.tree && Full(t.tree[i]) != [] ==> Full(t.tree[i])[0] != 3
    requires Hung(h, t.tree, [3, 4], v, NO_EXPIRY, h', p, x)
    ensures x !in h.nodes && h' == Inlined(Heap(h.nodes[x := Node([4], [], Some(v), NO_EXPIRY, None)], h.arena), root, 3, x)
  {
    hide HeapOk, Represents;
    var key: Key := [3, 4];
    assert key[0] == 3 && key[1..] == [4];
    assert Full(t.tree[p]) == [];
    FullInjective(t.tree, root, p, root);
  }

  lemma NoForkAt3(h: Heap, root: Idx, t: Trunk, v: Value, h': Heap, i: Idx, n: nat, m: Idx, x: Idx)
    requires ArtOk(h, root, t) && root in t.tree
    requires forall j :: j in t.tree && Full(t.tree[j]) != [] ==> Full(t.tree[j])[0] != 3
    ensures !Forking(h, t.tree, [3, 4], v, NO_EXPIRY, h', i, n, m, x)
  {
    hide HeapOk, Represents;
    var key: Key := [3, 4];
    assert key[0] == 3;
    if i in t.tree && i != root { ParentEdge(t.tree, {root}, i); }
  }

  /** The stale frame is reported under its old prefix. */
  lemma StaleChunk(h: Heap, now: nat, c: Cast, v: Value, keys: seq<Key>)
    requires c.one != c.two && (c.one in h.nodes <==> c.two !in h.nodes)
    requires c.one in h.nodes ==> h.nodes[c.one] == Node([4], [], Some(v), NO_EXPIRY, None)
    requires c.two in h.nodes ==> h.nodes[c.two] == Node([4], [], Some(v), NO_EXPIRY, None)
    ensures Chunk(h, now, [Frame(c.one, [2, 1]), Frame(c.two, [2, 2])], keys, YIELD_BUDGET) ==
              ([], keys + [if c.one in h.nodes then [2, 1, 4] else [2, 2, 4]])
  {
    hide Chunk;
    var low, f, g := [Frame(c.one, [2, 1])], Frame(c.one, [2, 1]), Frame(c.two, [2, 2]);
    assert [f, g] == low + [g] && low == [] + [f];
    assert [2, 1] + [4] == [2, 1, 4] && [2, 2] + [4] == [2, 2, 4];
    ChunkStep(h, now, low, g, keys, YIELD_BUDGET);
    if c.one in h.nodes {
      ChunkStep(h, now, [], f, keys, YIELD_BUDGET);
      NoFrames(h, now, c.one, [2, 1, 4]);
      ChunkStops(h, now, [], keys + [[2, 1, 4]], YIELD_BUDGET - 1);
    } else {
      NoFrames(h, now, c.two, [2, 2, 4]);
      assert low + [] == low;
      ChunkStep(h, now, [], f, keys + [[2, 2, 4]], YIELD_BUDGET - 1);
      ChunkStops(h, now, [], keys + [[2, 2, 4]], YIELD_BUDGET - 1);
    }
  }

  lemma NoFrames(h: Heap, now: nat, i: Idx, base: Key)
    requires i in h.nodes && h.nodes[i].childs == [] && h.nodes[i].overflow.None? && h.nodes[i].val.Some? && h.nodes[i].exp == NO_EXPIRY
    ensures [] + Frames(base, ChildEdges(h, i)) == [] && Scan.Found(h, now, i, base) == [base]
    ensures forall low: seq<Frame> :: low + Frames(base, ChildEdges(h, i)) == low
  {
    InlineEdges(h, i);
  }

  lemma GhostKeys(store: Store, v: Value)
    requires ForkStored(store, v)
    ensures forall k :: |k| == 3 && k[0] == 2 ==> k !in store && k !in store - {[2, 1]} && k !in (store - {[2, 1]})[[3, 4] := Entry(v, NO_EXPIRY)]
  {
  }

  /** The same run with one `set` more after the `del`. If the slab hands out the
   *  index of one of the two leaves again, the scan reports a key that was stored
   *  at no time. */
  method ReportAGhost(root: Idx, v: Value, now: nat)
    returns (h0: Heap, h1: Heap, h2: Heap, keys: seq<Key>, ghost c: Cast, ghost t0: Trunk, ghost t1: Trunk, ghost t2: Trunk)
    ensures ArtOk(h0, root, t0) && ArtOk(h1, root, t1) && ArtOk(h2, root, t2)
    ensures c.one !in h1.nodes && c.two !in h1.nodes
    ensures c.one in h2.nodes || c.two in h2.nodes ==>
              exists k :: k in keys && k !in t0.store && k !in t1.store && k !in t2.store
  {
    hide ArtOk, Shape, Chunk, LeafGone, Written;
    h0, t0, c := Build(root, v, YIELD_BUDGET - 1);
    var stack;
    stack, keys := StartScan(h0, root, now, [], t0);
    FirstChunk(h0, root, c, v, now);
    stack, keys := CollectChunk(h0, root, now, stack, keys, YIELD_BUDGET, t0);
    var res;
    h1, res, t1 := Del(h0, root, [2, 1], t0);
    BothGone(h0, root, t0, c, v, h1);
    RootEdges(h0, root, c, v);
    h2, t2 := SetInternal(h1, root, [3, 4], NO_EXPIRY, v, t1);
    NewLeaf(h1, root, t1, v, h2);
    ghost var x :| x !in h1.nodes && h2 == Inlined(Heap(h1.nodes[x := Node([4], [], Some(v), NO_EXPIRY, None)], h1.arena), root, 3, x);
    ghost var before := keys;
    stack, keys := CollectChunk(h2, root, now, stack, keys, YIELD_BUDGET, t2);
    if c.one in h2.nodes || c.two in h2.nodes {
      StaleChunk(h2, now, c, v, before);
      GhostKeys(t0.store, v);
      ghost var k: Key := if c.one in h2.nodes then [2, 1, 4] else [2, 2, 4];
      assert keys[|before|] == k && k[0] == 2 && |k| == 3;
    }
  }

  lemma RootEdges(h: Heap, root: Idx, c: Cast, v: Value)
    requires Shape(h, root, c, v)
    ensures root in h.nodes && h.nodes[root].overflow.None? && |h.nodes[root].childs| <= 2 && c.one != c.two && c.one != root && c.two != root
    ensures forall k :: 0 <= k < |h.nodes[root].childs| ==> h.nodes[root].childs[k].radix <= 2
  {
  }
}
