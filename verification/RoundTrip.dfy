/** Storing a key that splits a node and deleting it again. */
module RoundTrip {
  import opened Basics
  import opened Forest
  import opened Heap
  import opened Art
  import ChildTiers

  /** Some node's label leads towards the key but its compression leads away:
   *  storing the key must split that node. */
  ghost predicate StopsInside(f: Grove, key: Key) {
    exists i :: i in f && f[i].lab <= key && !(f[i].comp <= key[|f[i].lab|..])
  }

  /** The descent finds such a node exactly when there is one. */
  lemma InsideOrNot(f: Grove, root: Idx, key: Key, w: Stop)
    requires IsTree(f, root) && Landed(f, root, key, w)
    ensures w.Inside? <==> StopsInside(f, key)
  {
    match w
    case Inside(i, cur, n, p, r) =>
      assert f[i].lab <= key && |f[i].lab| == cur;
    case Exact(j, p, r) =>
      forall i | i in f && f[i].lab <= key ensures f[i].comp <= key[|f[i].lab|..] {
        OnTheWay(f, root, i, j);
        SuffixPrefix(f[i].lab, f[i].comp, key);
      }
    case NoChild(j, cur) =>
      AbsentBelow(f, root, j, key, cur);
      forall i | i in f && f[i].lab <= key ensures f[i].comp <= key[|f[i].lab|..] {
        assert f[i].lab <= Full(f[i]);
        if |f[i].lab| > cur { PrefixesCompare(key[..cur + 1], f[i].lab, key); }
        PrefixesCompare(f[i].lab, key[..cur], key);
        OnTheWay(f, root, i, j);
        assert Full(f[j]) <= key;
        SuffixPrefix(f[i].lab, f[i].comp, key);
      }
  }

  /** Undoing the fork: pluck the new leaf, then absorb the lower half. */
  lemma ForkUndone(h: Heap, i: Idx, n: nat, m: Idx, rest: Key, x: Idx, v: Value, e: Expiry)
    requires i in h.nodes && n < |h.nodes[i].comp| && m !in h.nodes && x !in h.nodes && x != m && n < |rest|
    ensures var h1 := Forked(Halved(h, i, n, m), i, rest, n, x, Some(v), e);
            && h1.nodes[i].childs == [ChildTiers.Edge(h.nodes[i].comp[n], m), ChildTiers.Edge(rest[n], x)]
            && h1.nodes[x] == Node(rest[n + 1..], [], Some(v), e, None)
            && AbsorbHeap(Plucked(h1, x, i, 1), i) == h
  {
    var h1 := Forked(Halved(h, i, n, m), i, rest, n, x, Some(v), e);
    var comp := h.nodes[i].comp;
    assert comp == comp[..n] + [comp[n]] + comp[n + 1..];
    var h2 := Plucked(h1, x, i, 1);
    assert h2.nodes[i].childs == [ChildTiers.Edge(comp[n], m)];
    assert AbsorbHeap(h2, i).nodes[i] == h.nodes[i];
    assert AbsorbHeap(h2, i).nodes == h.nodes;
  }

  /** Undoing the value on the upper half: forget it, then absorb the lower. */
  lemma StoreUndone(h: Heap, i: Idx, n: nat, m: Idx, v: Value, e: Expiry)
    requires i in h.nodes && n < |h.nodes[i].comp| && m !in h.nodes
    ensures var h1 := StoredOn(Halved(h, i, n, m), i, Some(v), e);
            h1.nodes[i].childs != [] && AbsorbHeap(Forgotten(h1, i), i) == h
  {
    var h1 := StoredOn(Halved(h, i, n, m), i, Some(v), e);
    var comp := h.nodes[i].comp;
    assert comp == comp[..n] + [comp[n]] + comp[n + 1..];
    var h2 := Forgotten(h1, i);
    assert h2.nodes[i].childs == [ChildTiers.Edge(comp[n], m)];
    assert AbsorbHeap(h2, i).nodes[i] == h.nodes[i];
    assert AbsorbHeap(h2, i).nodes == h.nodes;
  }

  /** `set` then `del` of a key that splits a node restores the slab and the
   *  arena to the last bit: compression, value, expiry and children. */
  method SetThenDel(h: Heap, root: Idx, key: Key, e: Expiry, v: Value, ghost t: Trunk) returns (h': Heap, ghost t': Trunk)
    requires ArtOk(h, root, t) && key != [] && StopsInside(t.tree, key)
    ensures h' == h && ArtOk(h', root, t') && t'.store == t.store && t'.loose == t.loose
  {
    hide HeapOk, Represents, AbsorbHeap, Halved, Forked, StoredOn, Plucked, Forgotten, Parts;
    var w := Descend(h, root, key, t);
    InsideOrNot(t.tree, root, key, w);
    MissIsAbsent(t.tree, root, t.store, key, w);
    var i, cur, n := w.idx, w.cursor, w.common;
    var rest := key[cur..];
    var at; ghost var m, t1;
    h', at, m, t1 := SplitNode(h, root, i, cur, n, key, e, Some(v), t);
    // now delete it again
    var w1 := Descend(h', root, key, t1);
    SameLanding(t1.tree, root, key, w1, at);
    HitIsPresent(t1.tree, root, t1.store, at);
    ghost var before := h';
    h', t' := DeleteNode(h', root, at, w1.parent, w1.radix, t1);
    assert t'.store == t.store;
    PartsInside(t.tree[i].comp, rest, n);
    if n == |rest| {
      StoreUndone(h, i, n, m, v, e);
    } else {
      ForkUndone(h, i, n, m, rest, at, v, e);
      assert w1.parent == i && w1.radix == rest[n];
      assert before.nodes[i].childs[1].radix == rest[n];
    }
  }

  lemma PartsInside(comp: Key, rest: Key, n: nat)
    requires Parts(comp, rest, n)
    ensures n < |comp| && n <= |rest|
  {
  }

  lemma SameLanding(f: Grove, root: Idx, key: Key, w: Stop, at: Idx)
    requires IsTree(f, root) && Landed(f, root, key, w) && at in f && Full(f[at]) == key
    ensures w.Exact? && w.idx == at
  {
    match w
    case Exact(i, p, r) => FullInjective(f, root, i, at);
    case Inside(i, cur, n, p, r) => AbsentInside(f, root, i, key, cur);
    case NoChild(i, cur) =>
      assert key[..cur + 1] <= key;
      AbsentBelow(f, root, i, key, cur);
  }
}
