/** Prefix scans: the recursive collection behind `getn`, and the chunked
 *  traversal behind `getn_async`. */
module Scan {
  import opened Basics
  import opened Forest
  import opened Heap
  import opened Art
  import ChildTiers

  type Store = map<Key, Entry>

  predicate Live(store: Store, now: nat, k: Key) {
    k in store && !Expired(store[k].exp, now)
  }

  /** Liveness in numbers: an entry with expiry word `e` lives up to and including
   *  the second `e`, and one with the all-ones word lives forever. */
  lemma LiveMeans(store: Store, now: nat, k: Key)
    ensures Live(store, now, k) <==> k in store && (store[k].exp == 0xFF_FFFF_FFFF_FFFF || now <= store[k].exp)
  {
  }

  /** The live keys with a prefix. */
  ghost function Below(store: Store, now: nat, prefix: Key): set<Key> {
    set k | k in store && prefix <= k && Live(store, now, k)
  }

  datatype Pair = Pair(key: Key, val: Value)

  ghost function KeysOf(out: seq<Pair>): set<Key> {
    set p | p in out :: p.key
  }

  ghost predicate DistinctPairs(out: seq<Pair>) {
    forall i, j :: 0 <= i < j < |out| ==> out[i].key != out[j].key
  }

  /** `out` lists the keys `ks` of the store, each once, with their values. */
  ghost predicate Reports(out: seq<Pair>, store: Store, ks: set<Key>) {
    && DistinctPairs(out) && KeysOf(out) == ks
    && (forall i :: 0 <= i < |out| ==> out[i].key in store && store[out[i].key].val == out[i].val)
  }

  /** A listing spelled out: a pair is in it if and only if the store holds it, it
   *  has the prefix and its expiry word has not passed; and no key comes twice. */
  lemma ListedMeans(out: seq<Pair>, store: Store, now: nat, prefix: Key, k: Key, v: Value)
    requires Reports(out, store, Below(store, now, prefix))
    ensures (exists i :: 0 <= i < |out| && out[i] == Pair(k, v)) <==>
              k in store && prefix <= k && store[k].val == v && (store[k].exp == 0xFF_FFFF_FFFF_FFFF || now <= store[k].exp)
    ensures forall i, j :: 0 <= i < j < |out| ==> out[i].key != out[j].key
  {
    if k in store && prefix <= k && Live(store, now, k) {
      assert k in KeysOf(out);
      var p :| p in out && p.key == k;
      var i :| 0 <= i < |out| && out[i] == p;
      assert store[out[i].key].val == out[i].val;
    }
    if i :| 0 <= i < |out| && out[i] == Pair(k, v) {
      assert out[i] in out && out[i].key in KeysOf(out);
    }
  }

  lemma ReportsAppend(a: seq<Pair>, b: seq<Pair>, store: Store, ka: set<Key>, kb: set<Key>)
    requires Reports(a, store, ka) && Reports(b, store, kb) && ka !! kb
    ensures Reports(a + b, store, ka + kb)
  {
    forall i, j | 0 <= i < |a| && 0 <= j < |b| ensures a[i].key != b[j].key {
      assert a[i] in a && b[j] in b;
      assert a[i].key in KeysOf(a) && b[j].key in KeysOf(b);
    }
    assert KeysOf(a + b) == KeysOf(a) + KeysOf(b) by {
      assert forall p :: p in a + b <==> p in a || p in b;
    }
  }

  lemma ReportsOne(store: Store, k: Key, v: Value)
    requires k in store && store[k].val == v
    ensures Reports([Pair(k, v)], store, {k})
  {
    assert [Pair(k, v)][0] == Pair(k, v);
  }

  /** The live keys at `base` itself or below one of its first `c` children. */
  ghost function Covered(store: Store, now: nat, base: Key, es: seq<ChildTiers.Edge>, c: nat): set<Key>
    requires c <= |es|
  {
    if c == 0 then (if Live(store, now, base) then {base} else {})
    else Covered(store, now, base, es, c - 1) + Below(store, now, base + [es[c - 1].radix])
  }

  lemma {:induction false} CoveredKeys(store: Store, now: nat, base: Key, es: seq<ChildTiers.Edge>, c: nat, k: Key)
    requires c <= |es|
    ensures k in Covered(store, now, base, es, c) <==>
            Live(store, now, k) && (k == base || exists d :: 0 <= d < c && base + [es[d].radix] <= k)
    decreases c
  {
    if c > 0 { CoveredKeys(store, now, base, es, c - 1, k); }
  }

  /** Siblings cover disjoint sets. */
  lemma CoveredDisjoint(store: Store, now: nat, base: Key, es: seq<ChildTiers.Edge>, kids: ChildTiers.Table, c: nat)
    requires c < |es| && ChildTiers.Lists(es, kids)
    ensures Covered(store, now, base, es, c) !! Below(store, now, base + [es[c].radix])
  {
    forall k | k in Covered(store, now, base, es, c) ensures k !in Below(store, now, base + [es[c].radix]) {
      CoveredKeys(store, now, base, es, c, k);
      if d :| 0 <= d < c && base + [es[d].radix] <= k {
        ChildTiers.ListsDistinct(es, kids, d, c);
        assert k[|base|] == (base + [es[d].radix])[|base|] != (base + [es[c].radix])[|base|];
      }
    }
  }

  /** A node and its children cover everything below the node's label. */
  lemma CoveredAll(f: Grove, root: Idx, store: Store, now: nat, i: Idx, es: seq<ChildTiers.Edge>)
    requires IsTree(f, root) && Represents(f, store) && i in f && ChildTiers.Lists(es, f[i].kids)
    ensures Covered(store, now, Full(f[i]), es, |es|) == Below(store, now, f[i].lab)
  {
    hide IsTree, Represents, ChildTiers.Lists;
    var base := Full(f[i]);
    assert f[i].lab <= base;
    forall k | k in Covered(store, now, base, es, |es|) ensures k in Below(store, now, f[i].lab) {
      CoveredKeys(store, now, base, es, |es|, k);
    }
    forall k | k in Below(store, now, f[i].lab) ensures k in Covered(store, now, base, es, |es|) {
      CoveredKeys(store, now, base, es, |es|, k);
      NextChild(f, root, store, i, es, k);
    }
  }

  /** A stored key below a node's label is the node's own or below a child. */
  lemma NextChild(f: Grove, root: Idx, store: Store, i: Idx, es: seq<ChildTiers.Edge>, k: Key)
    requires IsTree(f, root) && Represents(f, store) && i in f && ChildTiers.Lists(es, f[i].kids) && k in store && f[i].lab <= k
    ensures k == Full(f[i]) || exists d :: 0 <= d < |es| && Full(f[i]) + [es[d].radix] <= k
  {
    hide IsTree;
    var base := Full(f[i]);
    var j :| Forest.Holds(f, j, k);
    OnTheWay(f, root, i, j);
    if k != base {
      var d := ChildTiers.PosOf(es, k[|base|]);
      assert base + [es[d].radix] <= k;
    }
  }

  lemma CoveredNone(store: Store, now: nat, base: Key, es: seq<ChildTiers.Edge>)
    ensures Covered(store, now, base, es, 0) == if Live(store, now, base) then {base} else {}
  {
  }

  /** All live entries of the subtree at `i`, whose label is `prefix`. */
  method CollectAll(h: Heap, root: Idx, now: nat, i: Idx, prefix: Key, ghost t: Trunk, ghost depth: nat) returns (out: seq<Pair>)
    requires ArtOk(h, root, t) && i in t.tree && prefix == t.tree[i].lab && Shallow(t.tree, depth)
    ensures Reports(out, t.store, Below(t.store, now, prefix))
    decreases depth - |t.tree[i].lab|, 1
  {
    hide HeapOk, IsTree, Represents, Reports, Below;
    TreeNode(h, root, t, i);
    out := CollectFrom(h, root, now, i, prefix + h.nodes[i].comp, t, depth);
  }

  /** The same, when the node's whole key `base` is already known. */
  method CollectFrom(h: Heap, root: Idx, now: nat, i: Idx, base: Key, ghost t: Trunk, ghost depth: nat) returns (out: seq<Pair>)
    requires ArtOk(h, root, t) && i in t.tree && base == Full(t.tree[i]) && Shallow(t.tree, depth)
    ensures Reports(out, t.store, Below(t.store, now, t.tree[i].lab))
    decreases depth - |t.tree[i].lab|, 0
  {
    hide HeapOk, IsTree, Represents, Reports, Below, ChildTiers.Picks, Covered;
    out := VisitNode(h, root, now, i, base, t);
    var es := IterChildren(h, i, t.layout, t.tree + t.loose);
    CoveredNone(t.store, now, base, es);
    for c := 0 to |es|
      invariant Reports(out, t.store, Covered(t.store, now, base, es, c))
    {
      ChildLabel(t.tree, root, i, es, c);
      var more := CollectAll(h, root, now, es[c].idx, base + [es[c].radix], t, depth);
      CoveredStep(t.store, now, base, es, t.tree[i].kids, c);
      ReportsAppend(out, more, t.store, Covered(t.store, now, base, es, c), Below(t.store, now, base + [es[c].radix]));
      out := out + more;
    }
    CoveredAll(t.tree, root, t.store, now, i, es);
  }

  /** No label is longer than `depth`. */
  ghost predicate Shallow(f: Grove, depth: nat) {
    forall j :: j in f ==> |f[j].lab| <= depth
  }

  lemma SomeDepth(f: Grove) returns (depth: nat)
    ensures Shallow(f, depth)
  {
    var lens := set j | j in f :: |f[j].lab|;
    if f == map[] {
      depth := 0;
    } else {
      var j :| j in f;
      assert |f[j].lab| in lens;
      depth := MaxOf(lens);
      forall k | k in f ensures |f[k].lab| <= depth { assert |f[k].lab| in lens; }
    }
  }

  /** The node that covers a prefix, with the whole key it spells. */
  method FindPrefixNode(h: Heap, root: Idx, prefix: Key, ghost t: Trunk) returns (res: Option<(Idx, Key)>)
    requires ArtOk(h, root, t)
    ensures res.Some? ==> var (i, base) := res.value;
              i in t.tree && base == Full(t.tree[i]) && t.tree[i].lab <= prefix <= base
    ensures res.None? ==> forall k :: k in t.store ==> !(prefix <= k)
    ensures prefix == [] ==> res == Some((root, []))
    ensures res.None? ==> Covering(t.tree, prefix) == {}
  {
    hide HeapOk, Represents;
    if prefix == [] {
      return Some((root, []));
    }
    var w := Descend(h, root, prefix, t);
    if w.NoChild? || (w.Inside? && w.common != |prefix| - w.cursor) {
      NothingBelow(t.tree, root, t.store, prefix, w);
      return None;
    }
    CoversPrefix(t.tree, root, prefix, w);
    TreeNode(h, root, t, w.idx);
    if w.Exact? {
      return Some((w.idx, prefix));
    }
    return Some((w.idx, prefix[..w.cursor] + h.nodes[w.idx].comp));
  }

  /** Below a covering node's label and below the prefix are the same keys. */
  lemma SameBelow(f: Grove, root: Idx, store: Store, now: nat, i: Idx, prefix: Key)
    requires IsTree(f, root) && Represents(f, store) && i in f && f[i].lab <= prefix <= Full(f[i])
    ensures Below(store, now, f[i].lab) == Below(store, now, prefix)
    ensures forall k :: k in store ==> (f[i].lab <= k <==> prefix <= k)
  {
    hide IsTree;
    forall k | k in store ensures f[i].lab <= k <==> prefix <= k {
      if f[i].lab <= k {
        var j :| Forest.Holds(f, j, k);
        OnTheWay(f, root, i, j);
      }
    }
  }

  /** All live entries whose key starts with `prefix`. */
  method Getn(h: Heap, root: Idx, now: nat, prefix: Key, ghost t: Trunk) returns (out: seq<Pair>)
    requires ArtOk(h, root, t)
    ensures Reports(out, t.store, Below(t.store, now, prefix))
  {
    hide HeapOk, IsTree, Represents, Reports;
    var start := FindPrefixNode(h, root, prefix, t);
    if start.None? {
      NothingReported(t.store);
      assert Below(t.store, now, prefix) == {};
      return [];
    }
    var (i, base) := start.value;
    ghost var depth := SomeDepth(t.tree);
    out := CollectFrom(h, root, now, i, base, t, depth);
    SameBelow(t.tree, root, t.store, now, i, prefix);
  }

  lemma CoveredStep(store: Store, now: nat, base: Key, es: seq<ChildTiers.Edge>, kids: ChildTiers.Table, c: nat)
    requires c < |es| && ChildTiers.Lists(es, kids)
    ensures Covered(store, now, base, es, c) !! Below(store, now, base + [es[c].radix])
    ensures Covered(store, now, base, es, c + 1) == Covered(store, now, base, es, c) + Below(store, now, base + [es[c].radix])
  {
    CoveredDisjoint(store, now, base, es, kids, c);
  }

  lemma ChildLabel(f: Grove, root: Idx, i: Idx, es: seq<ChildTiers.Edge>, c: nat)
    requires IsTree(f, root) && i in f && ChildTiers.Picks(es, f[i].kids) && c < |es|
    ensures es[c].idx in f && f[es[c].idx].lab == Full(f[i]) + [es[c].radix]
    ensures |f[i].lab| < |f[es[c].idx].lab|
  {
    assert EdgeOk(f, {root}, i, es[c].radix);
  }

  /** The node's own entry, if it holds a live value. */
  method VisitNode(h: Heap, root: Idx, now: nat, i: Idx, base: Key, ghost t: Trunk) returns (out: seq<Pair>)
    requires ArtOk(h, root, t) && i in t.tree && base == Full(t.tree[i])
    ensures Reports(out, t.store, if Live(t.store, now, base) then {base} else {})
    ensures out == [] <==> !Live(t.store, now, base)
  {
    hide HeapOk, IsTree, Represents, Reports;
    TreeNode(h, root, t, i);
    HitIsPresent(t.tree, root, t.store, i);
    var n := h.nodes[i];
    if n.val.Some? && !Expired(n.exp, now) {
      ReportsOne(t.store, base, n.val.value);
      return [Pair(base, n.val.value)];
    }
    NothingReported(t.store);
    return [];
  }

  lemma NothingReported(store: Store)
    ensures Reports([], store, {})
  {
  }

  // ---- Chunked scan ------------------------------------------------------------------------

  /** A node still to visit and the key bytes before its own compression. */
  datatype Frame = Frame(idx: Idx, prefix: Key)

  predicate Comparable(a: Key, b: Key) {
    a <= b || b <= a
  }

  /** The stack names live nodes by their labels, none above another. */
  ghost predicate StackOk(f: Grove, stack: seq<Frame>) {
    && (forall a {:trigger stack[a]} :: 0 <= a < |stack| ==> stack[a].idx in f && f[stack[a].idx].lab == stack[a].prefix)
    && Antichain(stack)
  }

  ghost predicate Antichain(stack: seq<Frame>) {
    forall a, b {:trigger stack[a], stack[b]} :: 0 <= a < b < |stack| ==> !Comparable(stack[a].prefix, stack[b].prefix)
  }

  /** Some frame on the stack will still reach `k`. */
  ghost predicate Waiting(stack: seq<Frame>, k: Key) {
    exists a :: 0 <= a < |stack| && stack[a].prefix <= k
  }

  /** Keys reported so far are distinct, match, and are not waiting any more. */
  ghost predicate KeysOk(stack: seq<Frame>, keys: seq<Key>, prefix: Key) {
    && NoDup(keys)
    && (forall a {:trigger keys[a]} :: 0 <= a < |keys| ==> prefix <= keys[a] && !Waiting(stack, keys[a]))
    && (forall a {:trigger stack[a]} :: 0 <= a < |stack| ==> prefix <= stack[a].prefix)
  }

  ghost predicate Reached(stack: seq<Frame>, keys: seq<Key>, must: set<Key>) {
    forall k :: k in must ==> k in keys || Waiting(stack, k)
  }

  /** Storing elsewhere in the tree does not disturb a suspended scan. */
  lemma StackSurvives(f: Grove, g: Grove, stack: seq<Frame>)
    requires StackOk(f, stack) && Grows(f, g)
    ensures StackOk(g, stack)
  {
  }

  /** The frame on top is good, whatever the others are. */
  ghost predicate TopOk(f: Grove, rest: seq<Frame>, top: Frame) {
    Antichain(rest + [top]) && top.idx in f && f[top.idx].lab == top.prefix
  }

  lemma StackTop(f: Grove, rest: seq<Frame>, top: Frame)
    requires StackOk(f, rest + [top])
    ensures TopOk(f, rest, top) && StackOk(f, rest)
  {
    var was := rest + [top];
    assert was[|rest|] == top;
    assert forall a :: 0 <= a < |rest| ==> was[a] == rest[a];
  }

  function Frames(base: Key, es: seq<ChildTiers.Edge>): seq<Frame> {
    seq(|es|, k requires 0 <= k < |es| => Frame(es[k].idx, base + [es[k].radix]))
  }

  /** Visiting the popped frame: its children replace it. */
  lemma VisitStack(f: Grove, root: Idx, rest: seq<Frame>, top: Frame, es: seq<ChildTiers.Edge>)
    requires IsTree(f, root) && TopOk(f, rest, top) && ChildTiers.Picks(es, f[top.idx].kids)
    ensures Antichain(rest + Frames(Full(f[top.idx]), es))
    ensures forall k :: 0 <= k < |es| ==> es[k].idx in f && f[es[k].idx].lab == Full(f[top.idx]) + [es[k].radix]
    ensures StackOk(f, rest) ==> StackOk(f, rest + Frames(Full(f[top.idx]), es))
  {
    var base, was, now := Full(f[top.idx]), rest + [top], rest + Frames(Full(f[top.idx]), es);
    assert was[|rest|] == top;
    forall k | 0 <= k < |es| ensures es[k].idx in f && f[es[k].idx].lab == base + [es[k].radix] { ChildLabel(f, root, top.idx, es, k); }
    forall a, b | 0 <= a < b < |now| ensures !Comparable(now[a].prefix, now[b].prefix) {
      if b < |rest| {
        assert was[a] == now[a] && was[b] == now[b];
      } else if a < |rest| {
        assert was[a] == now[a];
        LongerApart(now[a].prefix, top.prefix, base + [es[b - |rest|].radix]);
      } else {
        ChildTiers.ListsDistinct(es, f[top.idx].kids, a - |rest|, b - |rest|);
        SiblingsApart(base, es[a - |rest|].radix, es[b - |rest|].radix);
      }
    }
  }

  lemma LongerApart(q: Key, p: Key, longer: Key)
    requires !Comparable(q, p) && p <= longer
    ensures !Comparable(q, longer)
  {
    if q <= longer {
      if |q| <= |p| { PrefixesCompare(q, p, longer); } else { PrefixesCompare(p, q, longer); }
    }
  }

  lemma SiblingsApart(base: Key, x: Byte, y: Byte)
    requires x != y
    ensures !Comparable(base + [x], base + [y])
  {
    assert (base + [x])[|base|] == x && (base + [y])[|base|] == y;
  }

  /** A visit adds no waiting keys, and the visited key itself is done. */
  lemma VisitDone(f: Grove, rest: seq<Frame>, top: Frame, es: seq<ChildTiers.Edge>, k: Key)
    requires TopOk(f, rest, top)
    requires Waiting(rest + Frames(Full(f[top.idx]), es), k)
    ensures Waiting(rest + [top], k) && k != Full(f[top.idx])
  {
    var base, was, now := Full(f[top.idx]), rest + [top], rest + Frames(Full(f[top.idx]), es);
    assert was[|rest|] == top && f[was[|rest|].idx].lab == top.prefix;
    var a :| 0 <= a < |now| && now[a].prefix <= k;
    if a < |rest| {
      assert was[a] == now[a];
      LongerApart(was[a].prefix, top.prefix, base);
    } else {
      assert top.prefix <= base <= now[a].prefix;
      assert was[|rest|].prefix <= k;
    }
  }

  /** What the visit does to waiting keys. */
  lemma VisitWaiting(f: Grove, root: Idx, store: Store, rest: seq<Frame>, top: Frame, es: seq<ChildTiers.Edge>, k: Key)
    requires IsTree(f, root) && Represents(f, store) && TopOk(f, rest, top) && ChildTiers.Lists(es, f[top.idx].kids)
    ensures Waiting(rest + Frames(Full(f[top.idx]), es), k) ==> Waiting(rest + [top], k) && k != Full(f[top.idx])
    ensures k in store && Waiting(rest + [top], k) ==> k == Full(f[top.idx]) || Waiting(rest + Frames(Full(f[top.idx]), es), k)
  {
    hide IsTree, Represents, ChildTiers.Lists;
    var base, was, now := Full(f[top.idx]), rest + [top], rest + Frames(Full(f[top.idx]), es);
    if Waiting(now, k) { VisitDone(f, rest, top, es, k); }
    if k in store && Waiting(was, k) {
      var a :| 0 <= a < |was| && was[a].prefix <= k;
      if a < |rest| {
        assert now[a] == was[a];
      } else {
        assert was[|rest|] == top && f[was[|rest|].idx].lab == top.prefix;
        NextChild(f, root, store, top.idx, es, k);
        if d :| 0 <= d < |es| && base + [es[d].radix] <= k {
          assert now[|rest| + d].prefix <= k;
        }
      }
    }
  }

  /** The nodes the scan has still to visit. */
  ghost function Ahead(f: Grove, stack: seq<Frame>): set<Idx> {
    set i | i in f && Waiting(stack, f[i].lab)
  }

  lemma VisitShrinks(f: Grove, root: Idx, rest: seq<Frame>, top: Frame, es: seq<ChildTiers.Edge>)
    requires IsTree(f, root) && TopOk(f, rest, top)
    ensures |Ahead(f, rest + Frames(Full(f[top.idx]), es))| < |Ahead(f, rest + [top])|
    ensures ChildTiers.Lists(es, f[top.idx].kids) ==> |Ahead(f, rest + Frames(Full(f[top.idx]), es))| + 1 == |Ahead(f, rest + [top])|
  {
    hide IsTree, ChildTiers.Lists;
    var base, was, now := Full(f[top.idx]), rest + [top], rest + Frames(Full(f[top.idx]), es);
    assert was[|rest|] == top && f[was[|rest|].idx].lab == top.prefix;
    forall i | i in Ahead(f, now) ensures i in Ahead(f, was) { VisitDone(f, rest, top, es, f[i].lab); }
    assert top.idx in Ahead(f, was);
    forall a | 0 <= a < |now| ensures !(now[a].prefix <= top.prefix) {
      if a < |rest| { assert now[a] == was[a]; } else { assert |now[a].prefix| == |base| + 1; }
    }
    assert top.idx !in Ahead(f, now);
    ChildTiers.Subset(Ahead(f, now), Ahead(f, was) - {top.idx});
    if ChildTiers.Lists(es, f[top.idx].kids) {
      forall i | i in Ahead(f, was) && i != top.idx ensures i in Ahead(f, now) { StillAhead(f, root, rest, top, es, i); }
      assert Ahead(f, now) == Ahead(f, was) - {top.idx};
    }
  }

  /** A node that was ahead, other than the visited one, still is. */
  lemma StillAhead(f: Grove, root: Idx, rest: seq<Frame>, top: Frame, es: seq<ChildTiers.Edge>, i: Idx)
    requires IsTree(f, root) && TopOk(f, rest, top) && ChildTiers.Lists(es, f[top.idx].kids)
    requires i in Ahead(f, rest + [top]) && i != top.idx
    ensures i in Ahead(f, rest + Frames(Full(f[top.idx]), es))
  {
    hide IsTree;
    var base, was, now := Full(f[top.idx]), rest + [top], rest + Frames(Full(f[top.idx]), es);
    var a :| 0 <= a < |was| && was[a].prefix <= f[i].lab;
    if a < |rest| {
      assert now[a] == was[a];
    } else {
      assert f[top.idx].lab <= f[i].lab <= Full(f[i]);
      OnePath(f, root, top.idx, i);
      var r := f[i].lab[|base|];
      var d := ChildTiers.PosOf(es, r);
      assert now[|rest| + d].prefix == base + [r] <= f[i].lab;
    }
  }

  /** A key leaves the waiting set exactly when it is reported or found dead. */
  lemma VisitKeys(f: Grove, root: Idx, store: Store, rest: seq<Frame>, top: Frame, es: seq<ChildTiers.Edge>, prefix: Key,
                  keys: seq<Key>, keys': seq<Key>, must: set<Key>, hit: bool)
    requires IsTree(f, root) && Represents(f, store) && TopOk(f, rest, top) && ChildTiers.Lists(es, f[top.idx].kids)
    requires KeysOk(rest + [top], keys, prefix) && Reached(rest + [top], keys, must) && must <= store.Keys
    requires keys' == if hit then keys + [Full(f[top.idx])] else keys
    requires !hit ==> Full(f[top.idx]) !in must
    ensures KeysOk(rest + Frames(Full(f[top.idx]), es), keys', prefix)
    ensures Reached(rest + Frames(Full(f[top.idx]), es), keys', must)
  {
    hide IsTree, Represents, ChildTiers.Lists;
    var base, was, now := Full(f[top.idx]), rest + [top], rest + Frames(Full(f[top.idx]), es);
    assert was[|rest|] == top && f[was[|rest|].idx].lab == top.prefix && top.prefix <= base;
    assert Waiting(was, base);
    forall a | 0 <= a < |keys'| ensures prefix <= keys'[a] && !Waiting(now, keys'[a]) {
      VisitWaiting(f, root, store, rest, top, es, keys'[a]);
    }
    forall a | 0 <= a < |now| ensures prefix <= now[a].prefix {
      if a < |rest| { assert now[a] == was[a]; } else { assert top.prefix <= base <= now[a].prefix; }
    }
    forall k | k in must ensures k in keys' || Waiting(now, k) {
      VisitWaiting(f, root, store, rest, top, es, k);
    }
  }

  // ---- One chunk as a function of the slab ----------------------------------------------

  /** Pop up to `budget` nodes off the stack, append the live keys found, push the
   *  children. A frame whose node is gone from the slab is skipped. */
  function Chunk(h: Heap, now: nat, stack: seq<Frame>, keys: seq<Key>, budget: nat): (seq<Frame>, seq<Key>)
    decreases budget, |stack|
  {
    if budget == 0 || stack == [] then (stack, keys)
    else
      var top, rest := Last(stack), stack[..|stack| - 1];
      if top.idx !in h.nodes then Chunk(h, now, rest, keys, budget)
      else
        var base := top.prefix + h.nodes[top.idx].comp;
        Chunk(h, now, rest + Frames(base, ChildEdges(h, top.idx)), keys + Found(h, now, top.idx, base), budget - 1)
  }

  /** How many nodes a chunk visits. */
  function Visits(h: Heap, stack: seq<Frame>, budget: nat): (n: nat)
    ensures n <= budget
    decreases budget, |stack|
  {
    if budget == 0 || stack == [] then 0
    else
      var top, rest := Last(stack), stack[..|stack| - 1];
      if top.idx !in h.nodes then Visits(h, rest, budget)
      else 1 + Visits(h, rest + Frames(top.prefix + h.nodes[top.idx].comp, ChildEdges(h, top.idx)), budget - 1)
  }

  /** A chunk that leaves work has used its budget, and each key it reports is one
   *  of its visits. */
  lemma {:induction false} ChunkVisits(h: Heap, now: nat, stack: seq<Frame>, keys: seq<Key>, budget: nat)
    ensures var (stack', keys') := Chunk(h, now, stack, keys, budget);
            && (stack' != [] ==> Visits(h, stack, budget) == budget)
            && |keys| <= |keys'| <= |keys| + Visits(h, stack, budget)
    decreases budget, |stack|
  {
    if budget > 0 && stack != [] {
      var top, rest := Last(stack), stack[..|stack| - 1];
      if top.idx !in h.nodes {
        ChunkVisits(h, now, rest, keys, budget);
      } else {
        var base := top.prefix + h.nodes[top.idx].comp;
        ChunkVisits(h, now, rest + Frames(base, ChildEdges(h, top.idx)), keys + Found(h, now, top.idx, base), budget - 1);
      }
    }
  }

  /** On a stack of tree nodes the visits are exactly the nodes the chunk got
   *  through. */
  lemma {:induction false} ChunkCounts(h: Heap, root: Idx, now: nat, t: Trunk, stack: seq<Frame>, keys: seq<Key>, budget: nat, prefix: Key)
    requires ArtOk(h, root, t) && StackOk(t.tree, stack) && KeysOk(stack, keys, prefix)
    ensures |Ahead(t.tree, Chunk(h, now, stack, keys, budget).0)| + Visits(h, stack, budget) == |Ahead(t.tree, stack)|
    ensures stack != [] && budget > 0 ==> Visits(h, stack, budget) > 0
    decreases budget, |stack|
  {
    hide ArtOk, StackOk, KeysOk, Ahead, ScanInv, Lost, NewLive;
    if budget > 0 && stack != [] {
      var top, rest := Last(stack), stack[..|stack| - 1];
      assert stack == rest + [top];
      GoodTop(h, root, t, rest, top, keys, prefix);
      VisitFrame(h, root, now, t, rest, top, keys, prefix, {}, []);
      var base := top.prefix + h.nodes[top.idx].comp;
      GoodAgain(h, t.tree, rest + Frames(base, ChildEdges(h, top.idx)), keys + Found(h, now, top.idx, base), prefix);
      ChunkCounts(h, root, now, t, rest + Frames(base, ChildEdges(h, top.idx)), keys + Found(h, now, top.idx, base), budget - 1, prefix);
    }
  }

  lemma GoodTop(h: Heap, root: Idx, t: Trunk, rest: seq<Frame>, top: Frame, keys: seq<Key>, prefix: Key)
    requires ArtOk(h, root, t) && StackOk(t.tree, rest + [top]) && KeysOk(rest + [top], keys, prefix)
    ensures top.idx in h.nodes && ScanInv(h, t.tree, rest + [top], keys, prefix, {}) && Lost([], rest + [top], keys) && AllLive({}, t.store, 0)
  {
    hide HeapOk, IsTree, Represents, KeysOk;
    StackTop(t.tree, rest, top);
    TreeNode(h, root, t, top.idx);
  }

  lemma GoodAgain(h: Heap, f: Grove, stack: seq<Frame>, keys: seq<Key>, prefix: Key)
    requires ScanInv(h, f, stack, keys, prefix, {})
    ensures KeysOk(stack, keys, prefix)
  {
  }

  /** What a visit reports. */
  function Found(h: Heap, now: nat, i: Idx, base: Key): seq<Key>
    requires i in h.nodes
  {
    if h.nodes[i].val.Some? && !Expired(h.nodes[i].exp, now) then [base] else []
  }

  /** One round of the loop. */
  lemma ChunkStep(h: Heap, now: nat, rest: seq<Frame>, top: Frame, keys: seq<Key>, budget: nat)
    requires budget > 0
    ensures top.idx !in h.nodes ==> Chunk(h, now, rest + [top], keys, budget) == Chunk(h, now, rest, keys, budget)
    ensures top.idx in h.nodes ==>
              var base := top.prefix + h.nodes[top.idx].comp;
              Chunk(h, now, rest + [top], keys, budget) ==
                Chunk(h, now, rest + Frames(base, ChildEdges(h, top.idx)), keys + Found(h, now, top.idx, base), budget - 1)
  {
    assert (rest + [top])[..|rest|] == rest;
  }

  /** The loop of a chunk, on any slab that is a tree and any stack. */
  method CollectChunk(h: Heap, root: Idx, now: nat, stack: seq<Frame>, keys: seq<Key>, budget: nat, ghost t: Trunk)
    returns (stack': seq<Frame>, keys': seq<Key>)
    requires ArtOk(h, root, t)
    ensures (stack', keys') == Chunk(h, now, stack, keys, budget)
  {
    hide HeapOk, IsTree, Represents, Chunk;
    stack', keys' := stack, keys;
    var processed := 0;
    while processed < budget && stack' != []
      invariant processed <= budget && Chunk(h, now, stack, keys, budget) == Chunk(h, now, stack', keys', budget - processed)
      decreases budget - processed, |stack'|
    {
      var top := Last(stack');
      assert stack' == stack'[..|stack'| - 1] + [top];
      ChunkStep(h, now, stack'[..|stack'| - 1], top, keys', budget - processed);
      stack' := stack'[..|stack'| - 1];
      if top.idx in h.nodes {
        var n := h.nodes[top.idx];
        var base := top.prefix + n.comp;
        if n.val.Some? && !Expired(n.exp, now) {
          keys' := keys' + [base];
        } else {
          assert keys' + [] == keys';
        }
        var es := IterChildren(h, top.idx, t.layout, t.tree + t.loose);
        stack' := stack' + seq(|es|, k requires 0 <= k < |es| => Frame(es[k].idx, base + [es[k].radix]));
        processed := processed + 1;
      }
    }
    ChunkStops(h, now, stack', keys', budget - processed);
  }

  lemma ChunkStops(h: Heap, now: nat, stack: seq<Frame>, keys: seq<Key>, budget: nat)
    ensures stack == [] || budget == 0 ==> Chunk(h, now, stack, keys, budget) == (stack, keys)
  {
  }

  /** Every frame names a tree node by its label, or a node that is gone. */
  ghost predicate Named(h: Heap, f: Grove, stack: seq<Frame>) {
    forall a {:trigger stack[a]} :: 0 <= a < |stack| ==>
      stack[a].idx !in h.nodes || (stack[a].idx in f && f[stack[a].idx].lab == stack[a].prefix)
  }

  /** What a chunk relies on and keeps. */
  ghost predicate ScanInv(h: Heap, f: Grove, stack: seq<Frame>, keys: seq<Key>, prefix: Key, must: set<Key>) {
    Named(h, f, stack) && Antichain(stack) && KeysOk(stack, keys, prefix) && Reached(stack, keys, must)
  }

  /** The frames `gone` have nothing to do with the stack and the keys. */
  ghost predicate Lost(gone: seq<Frame>, stack: seq<Frame>, keys: seq<Key>) {
    && (forall a, b {:trigger gone[a], stack[b]} :: 0 <= a < |gone| && 0 <= b < |stack| ==> !Comparable(gone[a].prefix, stack[b].prefix))
    && (forall a {:trigger keys[a]} :: 0 <= a < |keys| ==> !Waiting(gone, keys[a]))
  }

  ghost predicate Vanished(h: Heap, gone: seq<Frame>) {
    forall a {:trigger gone[a]} :: 0 <= a < |gone| ==> gone[a].idx !in h.nodes
  }

  /** The keys that no vanished frame leads to. */
  ghost function Spared(must: set<Key>, gone: seq<Frame>): set<Key> {
    set k | k in must && !Waiting(gone, k)
  }

  ghost predicate AllLive(must: set<Key>, store: Store, now: nat) {
    forall k :: k in must ==> Live(store, now, k)
  }

  ghost predicate NewLive(keys: seq<Key>, keys': seq<Key>, store: Store, now: nat) {
    keys <= keys' && forall a {:trigger keys'[a]} :: |keys| <= a < |keys'| ==> Live(store, now, keys'[a])
  }

  /** Popping a frame whose node is gone. */
  lemma SkipFrame(h: Heap, f: Grove, rest: seq<Frame>, top: Frame, keys: seq<Key>, prefix: Key, must: set<Key>, gone: seq<Frame>)
    requires ScanInv(h, f, rest + [top], keys, prefix, must) && Lost(gone, rest + [top], keys)
    ensures ScanInv(h, f, rest, keys, prefix, Spared(must, [top])) && Lost(gone + [top], rest, keys)
  {
    var was, more := rest + [top], gone + [top];
    assert was[|rest|] == top && more[|gone|] == top;
    assert forall a :: 0 <= a < |rest| ==> was[a] == rest[a];
    assert forall a :: 0 <= a < |gone| ==> more[a] == gone[a];
    forall a | 0 <= a < |keys| ensures prefix <= keys[a] && !Waiting(rest, keys[a]) && !Waiting(more, keys[a]) {
      assert !Waiting(was, keys[a]) && !Waiting(gone, keys[a]);
    }
    forall k | k in Spared(must, [top]) ensures k in keys || Waiting(rest, k) {
      assert [top][0] == top;
      if k !in keys { var a :| 0 <= a < |was| && was[a].prefix <= k; assert a < |rest| ==> rest[a] == was[a]; }
    }
  }

  /** Popping and visiting a good frame. */
  lemma VisitFrame(h: Heap, root: Idx, now: nat, t: Trunk, rest: seq<Frame>, top: Frame, keys: seq<Key>, prefix: Key, must: set<Key>, gone: seq<Frame>)
    requires ArtOk(h, root, t) && ScanInv(h, t.tree, rest + [top], keys, prefix, must) && Lost(gone, rest + [top], keys)
    requires top.idx in h.nodes && AllLive(must, t.store, now)
    ensures var base := top.prefix + h.nodes[top.idx].comp;
            var stack', keys' := rest + Frames(base, ChildEdges(h, top.idx)), keys + Found(h, now, top.idx, base);
            && ScanInv(h, t.tree, stack', keys', prefix, must) && Lost(gone, stack', keys') && NewLive(keys, keys', t.store, now)
            && |Ahead(t.tree, stack')| + 1 == |Ahead(t.tree, rest + [top])|
            && (StackOk(t.tree, rest + [top]) ==> StackOk(t.tree, stack'))
            && (forall k :: 0 <= k < |ChildEdges(h, top.idx)| ==> ChildEdges(h, top.idx)[k].idx in h.nodes)
  {
    hide HeapOk, IsTree, Represents, KeysOk, Reached, Ahead, Lost, StackOk, ChildTiers.Lists;
    var base := top.prefix + h.nodes[top.idx].comp;
    var es := ChildEdges(h, top.idx);
    NamedTop(h, t.tree, rest, top);
    TreeNode(h, root, t, top.idx);
    assert base == Full(t.tree[top.idx]);
    EdgesListed(h, root, t, top.idx);
    ListsPick(es, t.tree[top.idx].kids);
    HitIsPresent(t.tree, root, t.store, top.idx);
    VisitStack(t.tree, root, rest, top, es);
    VisitShrinks(t.tree, root, rest, top, es);
    var hit := Found(h, now, top.idx, base) == [base];
    var keys' := keys + Found(h, now, top.idx, base);
    assert Found(h, now, top.idx, base) == if hit then [base] else [];
    assert !hit ==> keys + [] == keys;
    MustStored(must, t.store, now);
    VisitKeys(t.tree, root, t.store, rest, top, es, prefix, keys, keys', must, hit);
    VisitNamed(h, root, t, rest, top, es);
    forall k | 0 <= k < |es| ensures es[k].idx in h.nodes { TreeNode(h, root, t, es[k].idx); }
    LostLater(t.tree, rest, top, es, gone, keys, keys');
    if StackOk(t.tree, rest + [top]) { StackTop(t.tree, rest, top); }
  }

  lemma NamedTop(h: Heap, f: Grove, rest: seq<Frame>, top: Frame)
    requires Named(h, f, rest + [top]) && Antichain(rest + [top]) && top.idx in h.nodes
    ensures TopOk(f, rest, top)
  {
    assert (rest + [top])[|rest|] == top;
  }

  lemma ListsPick(es: seq<ChildTiers.Edge>, kids: ChildTiers.Table)
    requires ChildTiers.Lists(es, kids)
    ensures ChildTiers.Picks(es, kids)
  {
  }

  lemma MustStored(must: set<Key>, store: Store, now: nat)
    requires AllLive(must, store, now)
    ensures must <= store.Keys
  {
  }

  /** The edges the slab holds are the tree's. */
  lemma EdgesListed(h: Heap, root: Idx, t: Trunk, i: Idx)
    requires ArtOk(h, root, t) && i in t.tree
    ensures ChildTiers.Lists(ChildEdges(h, i), t.tree[i].kids)
  {
    hide IsTree, Represents;
    ChildEdgesListed(h, t.layout, t.tree + t.loose, i);
  }

  lemma VisitNamed(h: Heap, root: Idx, t: Trunk, rest: seq<Frame>, top: Frame, es: seq<ChildTiers.Edge>)
    requires Named(h, t.tree, rest + [top]) && top.idx in t.tree
    requires forall k :: 0 <= k < |es| ==> es[k].idx in t.tree && t.tree[es[k].idx].lab == Full(t.tree[top.idx]) + [es[k].radix]
    ensures Named(h, t.tree, rest + Frames(Full(t.tree[top.idx]), es))
  {
    var was, now := rest + [top], rest + Frames(Full(t.tree[top.idx]), es);
    forall a | 0 <= a < |now| ensures now[a].idx !in h.nodes || (now[a].idx in t.tree && t.tree[now[a].idx].lab == now[a].prefix) {
      if a < |rest| { assert was[a] == now[a]; }
    }
  }

  lemma LostLater(f: Grove, rest: seq<Frame>, top: Frame, es: seq<ChildTiers.Edge>, gone: seq<Frame>, keys: seq<Key>, keys': seq<Key>)
    requires TopOk(f, rest, top) && Lost(gone, rest + [top], keys) && (keys' == keys || keys' == keys + [Full(f[top.idx])])
    ensures Lost(gone, rest + Frames(Full(f[top.idx]), es), keys')
  {
    var base, was, now := Full(f[top.idx]), rest + [top], rest + Frames(Full(f[top.idx]), es);
    assert was[|rest|] == top && top.prefix <= base;
    forall a, b | 0 <= a < |gone| && 0 <= b < |now| ensures !Comparable(gone[a].prefix, now[b].prefix) {
      if b < |rest| { assert was[b] == now[b]; } else { LongerApart(gone[a].prefix, top.prefix, base + [es[b - |rest|].radix]); }
    }
    forall a | 0 <= a < |keys'| ensures !Waiting(gone, keys'[a]) {
      if a < |keys| {
        assert keys'[a] == keys[a];
      } else {
        forall b | 0 <= b < |gone| ensures !(gone[b].prefix <= base) { LongerApart(gone[b].prefix, top.prefix, base); }
      }
    }
  }

  /** What a chunk achieves: nothing is reported twice or without being live, and
   *  everything that is owed is reported or still waiting, but for what the
   *  vanished frames it popped would have led to. */
  lemma {:induction false} ChunkGaps(h: Heap, root: Idx, now: nat, t: Trunk, stack: seq<Frame>, keys: seq<Key>, budget: nat,
                                     prefix: Key, must: set<Key>, gone: seq<Frame>) returns (gone': seq<Frame>)
    requires ArtOk(h, root, t) && ScanInv(h, t.tree, stack, keys, prefix, must) && AllLive(must, t.store, now) && Lost(gone, stack, keys)
    ensures var (stack', keys') := Chunk(h, now, stack, keys, budget);
            && ScanInv(h, t.tree, stack', keys', prefix, Spared(must, gone')) && NewLive(keys, keys', t.store, now)
            && Vanished(h, gone') && Lost(gone + gone', stack', keys')
            && (StackOk(t.tree, stack) ==> gone' == [] && StackOk(t.tree, stack'))
            && (StackOk(t.tree, stack) && stack != [] && budget > 0 ==> |Ahead(t.tree, stack')| < |Ahead(t.tree, stack)|)
            && (stack' != [] ==> |Ahead(t.tree, stack')| + budget <= |Ahead(t.tree, stack)|)
            && (forall x :: x in gone' ==> x in stack)
            && (forall x :: x in stack && x.idx !in h.nodes ==> x in gone' || x in stack')
    decreases budget, |stack|
  {
    hide ArtOk, StackOk, ScanInv, Lost, Ahead, AllLive, NewLive, Vanished;
    if budget == 0 || stack == [] {
      gone' := [];
      assert Spared(must, []) == must && gone + [] == gone;
      KeepsLive(keys, t.store, now, h);
    } else {
      var top, rest := Last(stack), stack[..|stack| - 1];
      assert stack == rest + [top];
      if top.idx !in h.nodes {
        SkipFrame(h, t.tree, rest, top, keys, prefix, must, gone);
        SkipFacts(h, root, t, rest, top, must, now);
        var more := ChunkGaps(h, root, now, t, rest, keys, budget, prefix, Spared(must, [top]), gone + [top]);
        gone' := [top] + more;
        assert gone + [top] + more == gone + gone';
        SparedTwice(must, top, more);
        VanishedMore(h, top, more);
      } else {
        VisitFrame(h, root, now, t, rest, top, keys, prefix, must, gone);
        var base := top.prefix + h.nodes[top.idx].comp;
        var stack1, keys1 := rest + Frames(base, ChildEdges(h, top.idx)), keys + Found(h, now, top.idx, base);
        gone' := ChunkGaps(h, root, now, t, stack1, keys1, budget - 1, prefix, must, gone);
        NewTwice(keys, keys1, Chunk(h, now, stack, keys, budget).1, t.store, now);
        GoneWaited(h, t.tree, rest, Frames(base, ChildEdges(h, top.idx)), gone');
      }
    }
  }

  /** Frames just pushed have not vanished. */
  lemma GoneWaited(h: Heap, f: Grove, rest: seq<Frame>, pushed: seq<Frame>, gone: seq<Frame>)
    requires Vanished(h, gone) && forall x :: x in gone ==> x in rest + pushed
    requires forall k :: 0 <= k < |pushed| ==> pushed[k].idx in h.nodes
    ensures forall x :: x in gone ==> x in rest
  {
    forall x | x in gone ensures x in rest {
      var a :| 0 <= a < |gone| && gone[a] == x;
    }
  }

  lemma KeepsLive(keys: seq<Key>, store: Store, now: nat, h: Heap)
    ensures NewLive(keys, keys, store, now) && Vanished(h, [])
  {
  }

  lemma NewTwice(a: seq<Key>, b: seq<Key>, c: seq<Key>, store: Store, now: nat)
    requires NewLive(a, b, store, now) && NewLive(b, c, store, now)
    ensures NewLive(a, c, store, now)
  {
    forall k | |a| <= k < |c| ensures Live(store, now, c[k]) { if k < |b| { assert c[k] == b[k]; } }
  }

  lemma SkipFacts(h: Heap, root: Idx, t: Trunk, rest: seq<Frame>, top: Frame, must: set<Key>, now: nat)
    requires ArtOk(h, root, t) && top.idx !in h.nodes && AllLive(must, t.store, now)
    ensures AllLive(Spared(must, [top]), t.store, now) && !StackOk(t.tree, rest + [top])
    ensures |Ahead(t.tree, rest)| <= |Ahead(t.tree, rest + [top])|
  {
    hide HeapOk, IsTree, Represents;
    assert (rest + [top])[|rest|] == top;
    if top.idx in t.tree { TreeNode(h, root, t, top.idx); }
    forall i | i in Ahead(t.tree, rest) ensures i in Ahead(t.tree, rest + [top]) {
      var a :| 0 <= a < |rest| && rest[a].prefix <= t.tree[i].lab;
      assert (rest + [top])[a] == rest[a];
    }
    ChildTiers.Subset(Ahead(t.tree, rest), Ahead(t.tree, rest + [top]));
  }

  lemma SparedTwice(must: set<Key>, top: Frame, more: seq<Frame>)
    ensures Spared(Spared(must, [top]), more) == Spared(must, [top] + more)
  {
    forall k ensures Waiting([top] + more, k) <==> Waiting([top], k) || Waiting(more, k) {
      var all := [top] + more;
      if Waiting([top], k) { assert [top][0] == all[0]; }
      if Waiting(more, k) { var a :| 0 <= a < |more| && more[a].prefix <= k; assert all[a + 1] == more[a]; }
      if Waiting(all, k) { var a :| 0 <= a < |all| && all[a].prefix <= k; assert if a == 0 then all[a] == [top][0] else all[a] == more[a - 1]; }
    }
  }

  lemma VanishedMore(h: Heap, top: Frame, more: seq<Frame>)
    requires top.idx !in h.nodes && Vanished(h, more)
    ensures Vanished(h, [top] + more)
  {
    var all := [top] + more;
    forall a | 0 <= a < |all| ensures all[a].idx !in h.nodes { if a > 0 { assert all[a] == more[a - 1]; } }
  }

  /** A chunk on a stack whose nodes are all there loses nothing. */
  lemma ChunkGood(h: Heap, root: Idx, now: nat, t: Trunk, stack: seq<Frame>, keys: seq<Key>, budget: nat, prefix: Key, must: set<Key>)
    requires ArtOk(h, root, t) && StackOk(t.tree, stack) && KeysOk(stack, keys, prefix) && Reached(stack, keys, must) && AllLive(must, t.store, now)
    ensures var (stack', keys') := Chunk(h, now, stack, keys, budget);
            && StackOk(t.tree, stack') && KeysOk(stack', keys', prefix) && Reached(stack', keys', must)
            && NewLive(keys, keys', t.store, now)
            && (stack != [] && budget > 0 ==> |Ahead(t.tree, stack')| < |Ahead(t.tree, stack)|)
  {
    hide HeapOk, IsTree, Represents, KeysOk, Reached, Ahead, AllLive, NewLive, Chunk;
    assert Lost([], stack, keys);
    var gone := ChunkGaps(h, root, now, t, stack, keys, budget, prefix, must, []);
    assert Spared(must, []) == must;
  }

  /** After the first phase all nodes with the prefix are ahead but the covering node
   *  itself. */
  lemma SeededCount(f: Grove, root: Idx, i: Idx, base: Key, es: seq<ChildTiers.Edge>, prefix: Key)
    requires IsTree(f, root) && i in f && base == Full(f[i]) && f[i].lab <= prefix <= base && ChildTiers.Lists(es, f[i].kids)
    ensures Ahead(f, Frames(base, es)) == Covering(f, prefix) - {i} && i in Covering(f, prefix)
  {
    hide IsTree;
    var stack := Frames(base, es);
    forall j | j in Ahead(f, stack) ensures prefix <= Full(f[j]) && j != i {
      var a :| 0 <= a < |stack| && stack[a].prefix <= f[j].lab;
      assert prefix <= base <= stack[a].prefix <= f[j].lab <= Full(f[j]);
      assert |f[j].lab| > |base| >= |f[i].lab|;
    }
    forall j | j in Covering(f, prefix) && j != i ensures j in Ahead(f, stack) {
      assert f[i].lab <= prefix <= Full(f[j]);
      OnePath(f, root, i, j);
      var r := f[j].lab[|base|];
      var d := ChildTiers.PosOf(es, r);
      assert stack[d].prefix == base + [r] <= f[j].lab;
    }
  }

  /** Phase one: find the covering node, report it, seed the stack. */
  method StartScan(h: Heap, root: Idx, now: nat, prefix: Key, ghost t: Trunk) returns (stack: seq<Frame>, keys: seq<Key>)
    requires ArtOk(h, root, t)
    ensures StackOk(t.tree, stack) && KeysOk(stack, keys, prefix) && Reached(stack, keys, Below(t.store, now, prefix))
    ensures forall a :: 0 <= a < |keys| ==> Live(t.store, now, keys[a])
    ensures root in h.nodes && (prefix == [] ==> stack == Frames([], ChildEdges(h, root)) && keys == Found(h, now, root, []))
    ensures |keys| <= 1 && |Ahead(t.tree, stack)| == if Covering(t.tree, prefix) == {} then 0 else |Covering(t.tree, prefix)| - 1
  {
    hide HeapOk, IsTree, Represents, StackOk, KeysOk, Reached, ChildTiers.Lists;
    RootLive(h, root, t);
    var start := FindPrefixNode(h, root, prefix, t);
    if start.None? {
      EmptyScan(t.tree, t.store, now, prefix);
      assert Ahead(t.tree, []) == {};
      return [], [];
    }
    var (i, base) := start.value;
    TreeNode(h, root, t, i);
    HitIsPresent(t.tree, root, t.store, i);
    keys := if h.nodes[i].val.Some? && !Expired(h.nodes[i].exp, now) then [base] else [];
    var es := IterChildren(h, i, t.layout, t.tree + t.loose);
    stack := seq(|es|, k requires 0 <= k < |es| => Frame(es[k].idx, base + [es[k].radix]));
    assert stack == Frames(base, es);
    Seeded(t.tree, root, t.store, now, i, base, es, prefix, keys);
    SeededCount(t.tree, root, i, base, es, prefix);
  }

  lemma RootLive(h: Heap, root: Idx, t: Trunk)
    requires ArtOk(h, root, t)
    ensures root in h.nodes && root in t.tree
  {
    hide HeapOk, Represents;
    TreeNode(h, root, t, root);
  }

  lemma EmptyScan(f: Grove, store: Store, now: nat, prefix: Key)
    requires forall k :: k in store ==> !(prefix <= k)
    ensures StackOk(f, []) && KeysOk([], [], prefix) && Reached([], [], Below(store, now, prefix))
  {
  }

  lemma Seeded(f: Grove, root: Idx, store: Store, now: nat, i: Idx, base: Key, es: seq<ChildTiers.Edge>, prefix: Key, keys: seq<Key>)
    requires IsTree(f, root) && Represents(f, store) && i in f && base == Full(f[i]) && f[i].lab <= prefix <= base
    requires ChildTiers.Lists(es, f[i].kids) && keys == if Live(store, now, base) then [base] else []
    ensures StackOk(f, Frames(base, es)) && KeysOk(Frames(base, es), keys, prefix)
    ensures Reached(Frames(base, es), keys, Below(store, now, prefix))
  {
    hide IsTree, Represents;
    var stack := Frames(base, es);
    forall a | 0 <= a < |stack| ensures stack[a].idx in f && f[stack[a].idx].lab == stack[a].prefix { ChildLabel(f, root, i, es, a); }
    forall a, b | 0 <= a < b < |stack| ensures !Comparable(stack[a].prefix, stack[b].prefix) {
      ChildTiers.ListsDistinct(es, f[i].kids, a, b);
      SiblingsApart(base, es[a].radix, es[b].radix);
    }
    assert forall a :: 0 <= a < |stack| ==> |stack[a].prefix| == |base| + 1;
    SameBelow(f, root, store, now, i, prefix);
    forall k | k in Below(store, now, prefix) ensures k in keys || Waiting(stack, k) {
      NextChild(f, root, store, i, es, k);
      if d :| 0 <= d < |es| && base + [es[d].radix] <= k { assert stack[d].prefix <= k; }
    }
  }
}
