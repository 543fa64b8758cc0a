/** The shape of the radix tree, independent of how children are stored.
 *
 * A grove maps every live slab index to a spot. Besides what the node really
 * holds (compression, value, expiry word, children) a spot carries two ghost
 * coordinates that no node stores reliably: `lab`, the key bytes spelled from
 * the top down to and including the node's own radix, and `up`, its parent.
 */
module Forest {
  import opened Basics

  datatype Spot = Spot(lab: Key, up: Idx, comp: Key, val: Option<Value>, exp: Expiry, kids: map<Byte, Idx>)

  type Grove = map<Idx, Spot>

  /** The key spelled by a node: its label followed by its compression. */
  function Full(s: Spot): Key {
    s.lab + s.comp
  }

  ghost predicate EdgeOk(f: Grove, tops: set<Idx>, i: Idx, r: Byte)
    requires i in f && r in f[i].kids
  {
    var c := f[i].kids[r];
    c in f && c !in tops && f[c].up == i && f[c].lab == Full(f[i]) + [r]
  }

  ghost predicate ParentOk(f: Grove, c: Idx)
    requires c in f
  {
    && f[c].lab != []
    && f[c].up in f
    && Last(f[c].lab) in f[f[c].up].kids
    && f[f[c].up].kids[Last(f[c].lab)] == c
  }

  /** Every edge leads to a live non-top node that agrees with it, and every
   *  node that is not a top hangs from exactly one edge. */
  ghost predicate Linked(f: Grove, tops: set<Idx>) {
    && tops <= f.Keys
    && (forall i, r {:trigger EdgeOk(f, tops, i, r)} :: i in f && r in f[i].kids ==> EdgeOk(f, tops, i, r))
    && (forall c {:trigger ParentOk(f, c)} :: c in f && c !in tops ==> ParentOk(f, c))
  }

  ghost predicate IsTree(f: Grove, root: Idx) {
    Linked(f, {root}) && f[root].lab == [] && f[root].comp == []
  }

  /** The grove stores exactly the entries of `store`. */
  ghost predicate Represents(f: Grove, store: map<Key, Entry>) {
    && (forall i :: i in f && f[i].val.Some? ==>
          Full(f[i]) in store && store[Full(f[i])] == Entry(f[i].val.value, f[i].exp))
    && (forall k :: k in store ==> exists i :: Holds(f, i, k))
  }

  ghost predicate Holds(f: Grove, i: Idx, k: Key) {
    i in f && f[i].val.Some? && Full(f[i]) == k
  }

  // ---- One path per node ---------------------------------------------------

  /** `i` is a proper ancestor of `j`: its key ends before `j`'s label and the
   *  next byte selects a child. */
  ghost predicate Above(f: Grove, i: Idx, j: Idx)
    requires i in f && j in f
  {
    && |Full(f[i])| < |f[j].lab|
    && Full(f[i]) <= f[j].lab
    && f[j].lab[|Full(f[i])|] in f[i].kids
  }

  lemma ParentEdge(f: Grove, tops: set<Idx>, c: Idx)
    requires Linked(f, tops) && c in f && c !in tops
    ensures f[c].up in f && f[c].lab != [] && f[c].lab == Full(f[f[c].up]) + [Last(f[c].lab)]
    ensures Last(f[c].lab) in f[f[c].up].kids && f[f[c].up].kids[Last(f[c].lab)] == c
    ensures |f[f[c].up].lab| < |f[c].lab|
  {
    assert ParentOk(f, c);
    assert EdgeOk(f, tops, f[c].up, Last(f[c].lab));
  }

  /** A label that is a prefix of another node's key belongs to that node or to
   *  one of its ancestors. This is what makes descent by key complete. */
  lemma {:induction false} OnePath(f: Grove, root: Idx, i: Idx, j: Idx)
    requires IsTree(f, root) && i in f && j in f
    requires f[i].lab <= Full(f[j])
    ensures i == j || Above(f, i, j)
    decreases |f[i].lab| + |f[j].lab|
  {
    if j == root {
      if i != root { ParentEdge(f, {root}, i); }
    } else {
      ParentEdge(f, {root}, j);
      var q := f[j].up;
      if |f[i].lab| <= |Full(f[q])| {
        PrefixesCompare(f[i].lab, Full(f[q]), Full(f[j]));
        OnePath(f, root, i, q);
      } else {
        assert i != root;
        ParentEdge(f, {root}, i);
        var p := f[i].up;
        assert f[j].lab <= Full(f[j]);
        PrefixesCompare(f[j].lab, f[i].lab, Full(f[j]));
        SameLevel(f, root, i, j, p, q);
      }
    }
  }

  /** The remaining case of OnePath: `i` is no higher than `j`. */
  lemma {:induction false} SameLevel(f: Grove, root: Idx, i: Idx, j: Idx, p: Idx, q: Idx)
    requires IsTree(f, root) && i in f && j in f && p in f && q in f
    requires i != root && j != root && p == f[i].up && q == f[j].up
    requires f[i].lab != [] && f[i].lab == Full(f[p]) + [Last(f[i].lab)]
    requires f[j].lab != [] && f[j].lab == Full(f[q]) + [Last(f[j].lab)]
    requires f[j].lab <= f[i].lab <= Full(f[j])
    ensures i == j
    decreases |f[i].lab| + |f[j].lab|, 0
  {
    if |f[j].lab| <= |Full(f[p])| {
      PrefixesCompare(f[j].lab, Full(f[p]), f[i].lab);
      OnePath(f, root, j, p);
    } else {
      assert Full(f[p]) == f[i].lab[..|f[i].lab| - 1] == Full(f[q]);
      OnePath(f, root, q, p);
      ParentEdge(f, {root}, i);
      ParentEdge(f, {root}, j);
    }
  }

  /** Two nodes never spell the same key. */
  lemma FullInjective(f: Grove, root: Idx, i: Idx, j: Idx)
    requires IsTree(f, root) && i in f && j in f && Full(f[i]) == Full(f[j])
    ensures i == j
  {
    OnePath(f, root, i, j);
  }

  /** Two nodes never carry the same label. */
  lemma LabInjective(f: Grove, root: Idx, i: Idx, j: Idx)
    requires IsTree(f, root) && i in f && j in f && f[i].lab == f[j].lab
    ensures i == j
  {
    OnePath(f, root, i, j);
  }

  /** A node whose label is a prefix of a stored key lies on the way to it:
   *  its whole key is a prefix too, and either ends there or has the child
   *  that the next byte selects. */
  lemma OnTheWay(f: Grove, root: Idx, i: Idx, j: Idx)
    requires IsTree(f, root) && i in f && j in f && f[i].lab <= Full(f[j])
    ensures Full(f[i]) <= Full(f[j])
    ensures Full(f[i]) == Full(f[j]) <==> i == j
    ensures |Full(f[i])| < |Full(f[j])| ==> Full(f[j])[|Full(f[i])|] in f[i].kids
  {
    OnePath(f, root, i, j);
  }

  /** A descent that stops inside a compression proves the key absent. */
  lemma AbsentInside(f: Grove, root: Idx, i: Idx, key: Key, cur: nat)
    requires IsTree(f, root) && i in f
    requires cur <= |key| && f[i].lab == key[..cur] && !(f[i].comp <= key[cur..])
    ensures forall j :: j in f ==> Full(f[j]) != key
  {
    assert !(Full(f[i]) <= key) by {
      if Full(f[i]) <= key { SuffixPrefix(f[i].lab, f[i].comp, key); }
    }
    forall j | j in f ensures Full(f[j]) != key {
      if Full(f[j]) == key { OnTheWay(f, root, i, j); }
    }
  }

  lemma SuffixPrefix(a: Key, b: Key, key: Key)
    requires a + b <= key
    ensures b <= key[|a|..]
  {
    assert (a + b)[|a|..] == b;
  }

  /** A descent that finds no child for the next byte proves that nothing
   *  stored continues that way. */
  lemma AbsentBelow(f: Grove, root: Idx, i: Idx, key: Key, cur: nat)
    requires IsTree(f, root) && i in f
    requires cur < |key| && Full(f[i]) == key[..cur] && key[cur] !in f[i].kids
    ensures forall j :: j in f ==> !(key[..cur + 1] <= Full(f[j]))
  {
    assert f[i].lab <= key[..cur] && key[..cur] <= key[..cur + 1] && key[..cur + 1][cur] == key[cur];
    forall j | j in f ensures !(key[..cur + 1] <= Full(f[j])) {
      if key[..cur + 1] <= Full(f[j]) { OnTheWay(f, root, i, j); }
    }
  }

  // ---- Local changes -------------------------------------------------------

  function SetVal(f: Grove, i: Idx, v: Value, e: Expiry): Grove
    requires i in f
  {
    f[i := f[i].(val := Some(v), exp := e)]
  }

  function ClearVal(f: Grove, i: Idx): Grove
    requires i in f
  {
    f[i := f[i].(val := None)]
  }

  function AddKid(f: Grove, p: Idx, r: Byte, x: Idx): Grove
    requires p in f
  {
    f[p := f[p].(kids := f[p].kids[r := x])]
  }

  function DropKid(f: Grove, p: Idx, r: Byte): Grove
    requires p in f
  {
    f[p := f[p].(kids := f[p].kids - {r})]
  }

  function Leaf(f: Grove, p: Idx, r: Byte, comp: Key, v: Option<Value>, e: Expiry): Spot
    requires p in f
  {
    Spot(Full(f[p]) + [r], p, comp, v, e, map[])
  }

  function AddLeaf(f: Grove, p: Idx, r: Byte, x: Idx, comp: Key, v: Option<Value>, e: Expiry): Grove
    requires p in f
  {
    AddKid(f[x := Leaf(f, p, r, comp, v, e)], p, r, x)
  }

  /** The nodes in `js` now hang from `to`. */
  function Adopt(f: Grove, js: set<Idx>, to: Idx): Grove {
    map j | j in f :: if j in js then f[j].(up := to) else f[j]
  }

  /** Node `i` keeps the first `n` bytes of its compression; a new node `m`
   *  takes the rest together with the value, expiry and children. */
  function Split(f: Grove, i: Idx, n: nat, m: Idx): Grove
    requires i in f && n < |f[i].comp|
  {
    var s := f[i];
    Adopt(f, s.kids.Values, m)
      [i := s.(comp := s.comp[..n], val := None, exp := NO_EXPIRY, kids := map[s.comp[n] := m])]
      [m := Spot(s.lab + s.comp[..n] + [s.comp[n]], i, s.comp[n + 1..], s.val, s.exp, s.kids)]
  }

  /** Node `i` absorbs its child at radix `r`. */
  function Merge(f: Grove, i: Idx, r: Byte): Grove
    requires i in f && r in f[i].kids && f[i].kids[r] in f
  {
    var c := f[i].kids[r];
    var k := f[c];
    Adopt(f - {c}, k.kids.Values, i)
      [i := f[i].(comp := f[i].comp + [r] + k.comp, val := k.val, exp := k.exp, kids := k.kids)]
  }

  /** Node `i`, which has no children, leaves the grove. */
  function DropLeaf(f: Grove, i: Idx): Grove
    requires i in f && f[i].up in f && f[i].lab != []
  {
    DropKid(f, f[i].up, Last(f[i].lab)) - {i}
  }

  // ---- Local changes keep the grove linked and its meaning -------------------

  /** Two groves that differ in values only. */
  ghost predicate SameShape(f: Grove, g: Grove) {
    && f.Keys == g.Keys
    && forall j :: j in f ==> g[j].lab == f[j].lab && g[j].up == f[j].up && g[j].comp == f[j].comp && g[j].kids == f[j].kids
  }

  lemma SameShapeLinked(f: Grove, g: Grove, tops: set<Idx>)
    requires Linked(f, tops) && SameShape(f, g)
    ensures Linked(g, tops)
  {
    forall j, r | j in g && r in g[j].kids ensures EdgeOk(g, tops, j, r) { assert EdgeOk(f, tops, j, r); }
    forall c | c in g && c !in tops ensures ParentOk(g, c) { assert ParentOk(f, c); }
  }

  /** Storing a value at a node is a map update at that node's key. */
  lemma SetValTree(f: Grove, root: Idx, store: map<Key, Entry>, i: Idx, v: Value, e: Expiry)
    requires IsTree(f, root) && Represents(f, store) && i in f
    ensures IsTree(SetVal(f, i, v, e), root)
    ensures Represents(SetVal(f, i, v, e), store[Full(f[i]) := Entry(v, e)])
  {
    var f' := SetVal(f, i, v, e);
    SameShapeLinked(f, f', {root});
    OtherKeys(f, root, i);
    RepresentsUpdate(f, f', store, i, Entry(v, e));
  }

  lemma OtherKeys(f: Grove, root: Idx, i: Idx)
    requires IsTree(f, root) && i in f
    ensures forall j :: j in f && j != i ==> Full(f[j]) != Full(f[i])
  {
    forall j | j in f && j != i ensures Full(f[j]) != Full(f[i]) {
      if Full(f[j]) == Full(f[i]) { FullInjective(f, root, j, i); }
    }
  }

  lemma RepresentsUpdate(f: Grove, g: Grove, store: map<Key, Entry>, i: Idx, e: Entry)
    requires Represents(f, store) && i in g && g[i].val == Some(e.val) && g[i].exp == e.exp
    requires i in f ==> Full(f[i]) == Full(g[i])
    requires forall j :: j in f && j != i ==> j in g && Full(g[j]) == Full(f[j]) && Full(f[j]) != Full(g[i])
    requires forall j :: j in g && j != i ==> j in f && g[j].val == f[j].val && g[j].exp == f[j].exp
    ensures Represents(g, store[Full(g[i]) := e])
  {
    var store' := store[Full(g[i]) := e];
    forall k | k in store' ensures exists j :: Holds(g, j, k) {
      if k == Full(g[i]) {
        assert Holds(g, i, k);
      } else {
        var j :| Holds(f, j, k);
        assert Holds(g, j, k);
      }
    }
  }

  /** Forgetting the value at `i`, with or without the node itself, removes its key. */
  lemma RepresentsRemove(f: Grove, g: Grove, store: map<Key, Entry>, i: Idx)
    requires Represents(f, store) && i in f && (i in g ==> g[i].val.None?)
    requires forall j :: j in f && j != i ==>
               j in g && Full(g[j]) == Full(f[j]) && Full(f[j]) != Full(f[i]) && g[j].val == f[j].val && g[j].exp == f[j].exp
    requires g.Keys <= f.Keys
    ensures Represents(g, if f[i].val.Some? then store - {Full(f[i])} else store)
  {
    var store' := if f[i].val.Some? then store - {Full(f[i])} else store;
    forall j | j in g && g[j].val.Some? ensures Full(g[j]) in store' && store'[Full(g[j])] == Entry(g[j].val.value, g[j].exp) {
      assert j in f && j != i;
    }
    forall k | k in store' ensures exists j :: Holds(g, j, k) {
      StillHeld(f, g, store, i, k);
    }
  }

  lemma StillHeld(f: Grove, g: Grove, store: map<Key, Entry>, i: Idx, k: Key)
    requires Represents(f, store) && k in store && i in f && (k == Full(f[i]) ==> f[i].val.None?)
    requires forall j :: j in f && j != i ==> j in g && Full(g[j]) == Full(f[j]) && g[j].val == f[j].val
    requires forall j :: j in f && j != i ==> Full(f[j]) != Full(f[i])
    ensures exists j :: Holds(g, j, k)
  {
    var j :| Holds(f, j, k);
    assert Holds(g, j, k);
  }

  /** Moving a value from node `a` to node `b` spelling the same key changes nothing. */
  lemma RepresentsMove(f: Grove, g: Grove, store: map<Key, Entry>, a: Idx, b: Idx)
    requires Represents(f, store) && a != b && a in f && b in g
    requires g[b].val == f[a].val && g[b].exp == f[a].exp && Full(g[b]) == Full(f[a])
    requires (a in g ==> g[a].val.None?) && (b in f ==> f[b].val.None?)
    requires forall j :: j != a && j != b ==> (j in f <==> j in g)
    requires forall j :: j in f && j in g && j != a && j != b ==>
               Full(g[j]) == Full(f[j]) && g[j].val == f[j].val && g[j].exp == f[j].exp
    ensures Represents(g, store)
  {
    forall k | k in store ensures exists j :: Holds(g, j, k) {
      var j :| Holds(f, j, k);
      assert Holds(g, if j == a then b else j, k);
    }
  }

  lemma ClearValTree(f: Grove, root: Idx, store: map<Key, Entry>, i: Idx)
    requires IsTree(f, root) && Represents(f, store) && i in f
    ensures IsTree(ClearVal(f, i), root)
    ensures Represents(ClearVal(f, i), if f[i].val.Some? then store - {Full(f[i])} else store)
  {
    var f' := ClearVal(f, i);
    SameShapeLinked(f, f', {root});
    OtherKeys(f, root, i);
    RepresentsRemove(f, f', store, i);
  }

  /** Hanging a fresh leaf is a map update at the leaf's key. */
  lemma AddLeafTree(f: Grove, root: Idx, store: map<Key, Entry>, p: Idx, r: Byte, x: Idx, comp: Key, v: Option<Value>, e: Expiry)
    requires IsTree(f, root) && Represents(f, store) && p in f && x !in f && r !in f[p].kids
    requires forall j :: j in f ==> Full(f[j]) != Full(f[p]) + [r] + comp
    ensures IsTree(AddLeaf(f, p, r, x, comp, v, e), root)
    ensures Represents(AddLeaf(f, p, r, x, comp, v, e), Storing(store, Full(f[p]) + [r] + comp, v, e))
  {
    var g := AddLeaf(f, p, r, x, comp, v, e);
    AddLeafLinked(f, {root}, p, r, x, comp, v, e);
    if v.Some? { RepresentsUpdate(f, g, store, x, Entry(v.value, e)); } else { RepresentsMore(f, g, store, x); }
  }

  /** A valueless node more means nothing. */
  lemma RepresentsMore(f: Grove, g: Grove, store: map<Key, Entry>, x: Idx)
    requires Represents(f, store) && x in g && x !in f && g[x].val.None?
    requires forall j :: j in f ==> j in g && Full(g[j]) == Full(f[j]) && g[j].val == f[j].val && g[j].exp == f[j].exp
    requires forall j :: j in g && j != x ==> j in f
    ensures Represents(g, store)
  {
    forall k | k in store ensures exists j :: Holds(g, j, k) {
      var j :| Holds(f, j, k);
      assert Holds(g, j, k);
    }
  }

  /** The store after writing an optional value. */
  function Storing(store: map<Key, Entry>, key: Key, v: Option<Value>, e: Expiry): map<Key, Entry> {
    if v.Some? then store[key := Entry(v.value, e)] else store
  }

  lemma AddLeafLinked(f: Grove, tops: set<Idx>, p: Idx, r: Byte, x: Idx, comp: Key, v: Option<Value>, e: Expiry)
    requires Linked(f, tops) && p in f && x !in f && r !in f[p].kids
    ensures Linked(AddLeaf(f, p, r, x, comp, v, e), tops)
  {
    var g := AddLeaf(f, p, r, x, comp, v, e);
    forall j, q | j in g && q in g[j].kids ensures EdgeOk(g, tops, j, q) {
      if !(j == p && q == r) { assert EdgeOk(f, tops, j, q); }
    }
    forall c | c in g && c !in tops ensures ParentOk(g, c) {
      if c != x { assert ParentOk(f, c); }
    }
  }

  /** Splitting a node inside its compression keeps the tree and every entry. */
  lemma SplitTree(f: Grove, root: Idx, store: map<Key, Entry>, i: Idx, n: nat, m: Idx)
    requires IsTree(f, root) && Represents(f, store) && i in f && n < |f[i].comp| && m !in f
    ensures IsTree(Split(f, i, n, m), root)
    ensures Represents(Split(f, i, n, m), store)
  {
    SplitLinked(f, {root}, i, n, m);
    SplitFull(f, i, n, m);
    SplitEntries(f, Split(f, i, n, m), store, i, m);
  }

  lemma SplitEntries(f: Grove, g: Grove, store: map<Key, Entry>, i: Idx, m: Idx)
    requires Represents(f, store) && i in f && m !in f && g.Keys == f.Keys + {m}
    requires g[i].val.None? && g[m].val == f[i].val && g[m].exp == f[i].exp && Full(g[m]) == Full(f[i])
    requires forall j :: j in f && j != i ==> g[j] == f[j].(up := g[j].up)
    ensures Represents(g, store)
  {
    RepresentsMove(f, g, store, i, m);
  }

  lemma SplitFull(f: Grove, i: Idx, n: nat, m: Idx)
    requires i in f && n < |f[i].comp| && m !in f
    ensures Full(Split(f, i, n, m)[m]) == Full(f[i])
    ensures Split(f, i, n, m)[m].lab == Full(Split(f, i, n, m)[i]) + [f[i].comp[n]]
  {
    var s := f[i];
    assert s.comp == s.comp[..n] + [s.comp[n]] + s.comp[n + 1..];
  }

  lemma SplitLinked(f: Grove, tops: set<Idx>, i: Idx, n: nat, m: Idx)
    requires Linked(f, tops) && i in f && n < |f[i].comp| && m !in f
    ensures Linked(Split(f, i, n, m), tops)
  {
    var g := Split(f, i, n, m);
    SplitFull(f, i, n, m);
    forall j, q | j in g && q in g[j].kids ensures EdgeOk(g, tops, j, q) {
      if j == m {
        assert EdgeOk(f, tops, i, q);
      } else if j != i {
        assert EdgeOk(f, tops, j, q);
        NotAKid(f, tops, i, j, q);
      }
    }
    forall c | c in g && c !in tops ensures ParentOk(g, c) {
      if c != m {
        ParentEdge(f, tops, c);
        if c in f[i].kids.Values {
          var q :| q in f[i].kids && f[i].kids[q] == c;
          assert EdgeOk(f, tops, i, q);
        }
      }
    }
  }

  /** The child of one node is not the child of another. */
  lemma NotAKid(f: Grove, tops: set<Idx>, i: Idx, j: Idx, q: Byte)
    requires Linked(f, tops) && i in f && j in f && i != j && q in f[j].kids
    ensures f[j].kids[q] !in f[i].kids.Values
  {
    assert EdgeOk(f, tops, j, q);
    forall p | p in f[i].kids ensures f[i].kids[p] != f[j].kids[q] { assert EdgeOk(f, tops, i, p); }
  }

  /** Absorbing an only child into a valueless node keeps the grove linked. */
  lemma MergeLinked(f: Grove, tops: set<Idx>, i: Idx, r: Byte)
    requires Linked(f, tops) && i in f && f[i].kids.Keys == {r}
    ensures f[i].kids[r] in f && f[i].kids[r] != i
    ensures Linked(Merge(f, i, r), tops)
  {
    var c := f[i].kids[r];
    assert EdgeOk(f, tops, i, r);
    var g := Merge(f, i, r);
    assert Full(g[i]) == Full(f[c]);
    forall j, q | j in g && q in g[j].kids ensures EdgeOk(g, tops, j, q) {
      if j == i {
        assert EdgeOk(f, tops, c, q);
      } else {
        assert EdgeOk(f, tops, j, q);
        NotAKid(f, tops, i, j, q);
        NotAKid(f, tops, c, j, q);
      }
    }
    forall d | d in g && d !in tops ensures ParentOk(g, d) {
      ParentEdge(f, tops, d);
      if d in f[c].kids.Values {
        var q :| q in f[c].kids && f[c].kids[q] == d;
        assert EdgeOk(f, tops, c, q);
      }
    }
  }

  lemma MergeSpots(f: Grove, tops: set<Idx>, i: Idx, r: Byte)
    requires Linked(f, tops) && i in f && f[i].kids.Keys == {r}
    ensures var c := f[i].kids[r]; c in f && c != i && var g := Merge(f, i, r);
            && g.Keys == f.Keys - {c}
            && Full(g[i]) == Full(f[c]) && g[i].lab == f[i].lab && g[i].val == f[c].val && g[i].exp == f[c].exp
            && (forall j :: j in g && j != i ==> g[j] == f[j].(up := g[j].up))
  {
    assert EdgeOk(f, tops, i, r);
  }

  /** ... and keeps every entry. */
  lemma MergeTree(f: Grove, root: Idx, store: map<Key, Entry>, i: Idx, r: Byte)
    requires IsTree(f, root) && Represents(f, store) && i in f && i != root && f[i].kids.Keys == {r} && f[i].val.None?
    ensures f[i].kids[r] in f && IsTree(Merge(f, i, r), root) && Represents(Merge(f, i, r), store)
  {
    MergeLinked(f, {root}, i, r);
    MergeSpots(f, {root}, i, r);
    var g := Merge(f, i, r);
    MergeEntries(f, g, store, f[i].kids[r], i);
  }

  lemma MergeEntries(f: Grove, g: Grove, store: map<Key, Entry>, c: Idx, i: Idx)
    requires Represents(f, store) && c != i && c in f && i in f && f[i].val.None? && g.Keys == f.Keys - {c}
    requires Full(g[i]) == Full(f[c]) && g[i].val == f[c].val && g[i].exp == f[c].exp
    requires forall j :: j in g && j != i ==> g[j] == f[j].(up := g[j].up)
    ensures Represents(g, store)
  {
    RepresentsMove(f, g, store, c, i);
  }

  /** Merging undoes splitting exactly. */
  lemma MergeUndoesSplit(f: Grove, tops: set<Idx>, i: Idx, n: nat, m: Idx)
    requires Linked(f, tops) && i in f && n < |f[i].comp| && m !in f
    ensures Merge(Split(f, i, n, m), i, f[i].comp[n]) == f
  {
    var g := Split(f, i, n, m);
    assert f[i].comp == f[i].comp[..n] + [f[i].comp[n]] + f[i].comp[n + 1..];
    forall j | j in f[i].kids.Values ensures j in f && f[j].up == i {
      var q :| q in f[i].kids && f[i].kids[q] == j;
      assert EdgeOk(f, tops, i, q);
    }
    assert Merge(g, i, f[i].comp[n])[i] == f[i];
  }

  /** Removing a childless node removes its key. */
  lemma DropLeafTree(f: Grove, root: Idx, store: map<Key, Entry>, i: Idx)
    requires IsTree(f, root) && Represents(f, store) && i in f && i != root && f[i].kids == map[]
    ensures f[i].up in f && f[i].up != i && f[i].lab != []
    ensures IsTree(DropLeaf(f, i), root)
    ensures Represents(DropLeaf(f, i), if f[i].val.Some? then store - {Full(f[i])} else store)
  {
    ParentEdge(f, {root}, i);
    var g := DropLeaf(f, i);
    DropLeafLinked(f, {root}, i);
    OtherKeys(f, root, i);
    RepresentsRemove(f, g, store, i);
  }

  lemma DropLeafLinked(f: Grove, tops: set<Idx>, i: Idx)
    requires Linked(f, tops) && i in f && i !in tops && f[i].kids == map[]
    ensures f[i].up in f && f[i].lab != [] && Linked(DropLeaf(f, i), tops)
  {
    ParentEdge(f, tops, i);
    var p, r, g := f[i].up, Last(f[i].lab), DropLeaf(f, i);
    forall j, q | j in g && q in g[j].kids ensures EdgeOk(g, tops, j, q) {
      assert EdgeOk(f, tops, j, q);
      assert EdgeOk(f, tops, p, r);
    }
    forall c | c in g && c !in tops ensures ParentOk(g, c) {
      ParentEdge(f, tops, c);
    }
  }

  // ---- Cutting a subtree -----------------------------------------------------

  /** The subtree of `i`, found by label. */
  ghost function Under(f: Grove, i: Idx): set<Idx>
    requires i in f
  {
    set j | j in f && f[i].lab <= f[j].lab
  }

  /** The severed part: everything at or below `i`. */
  ghost function Twig(f: Grove, i: Idx): Grove
    requires i in f
  {
    map j | j in Under(f, i) :: f[j]
  }

  /** What remains: the rest, with the edge to `i` gone. */
  ghost function Stump(f: Grove, i: Idx): Grove
    requires i in f && f[i].up in f && f[i].lab != []
  {
    DropKid(f, f[i].up, Last(f[i].lab)) - Under(f, i)
  }

  /** A node is under `i` exactly when its key extends `i`'s label. */
  lemma UnderByKey(f: Grove, root: Idx, i: Idx, j: Idx)
    requires IsTree(f, root) && i in f && j in f
    ensures j in Under(f, i) <==> f[i].lab <= Full(f[j])
  {
    if f[i].lab <= Full(f[j]) {
      OnePath(f, root, i, j);
    } else {
      assert f[j].lab <= Full(f[j]);
    }
  }

  /** Subtrees are closed under edges in both directions, except at their top. */
  lemma UnderClosed(f: Grove, root: Idx, i: Idx, p: Idx, r: Byte)
    requires IsTree(f, root) && i in f && p in f && r in f[p].kids
    ensures f[p].kids[r] in f
    ensures p in Under(f, i) ==> f[p].kids[r] in Under(f, i) && f[p].kids[r] != i
    ensures f[p].kids[r] in Under(f, i) && f[p].kids[r] != i ==> p in Under(f, i)
  {
    var c := f[p].kids[r];
    assert EdgeOk(f, {root}, p, r);
    if p in Under(f, i) {
      assert f[p].lab <= Full(f[p]) <= f[c].lab;
    }
    if c in Under(f, i) && c != i {
      if |f[i].lab| == |f[c].lab| {
        LabInjective(f, root, i, c);
      } else {
        PrefixesCompare(f[i].lab, Full(f[p]), f[c].lab);
        UnderByKey(f, root, i, p);
      }
    }
  }

  lemma TwigLinked(f: Grove, root: Idx, i: Idx)
    requires IsTree(f, root) && i in f && i != root
    ensures Linked(Twig(f, i), {i})
  {
    var g := Twig(f, i);
    forall j, r | j in g && r in g[j].kids ensures EdgeOk(g, {i}, j, r) {
      assert EdgeOk(f, {root}, j, r);
      UnderClosed(f, root, i, j, r);
    }
    forall c | c in g && c !in {i} ensures ParentOk(g, c) {
      if c == root {
        LabInjective(f, root, i, root);
      } else {
        ParentEdge(f, {root}, c);
        UnderClosed(f, root, i, f[c].up, Last(f[c].lab));
      }
    }
  }

  lemma StumpTree(f: Grove, root: Idx, i: Idx)
    requires IsTree(f, root) && i in f && i != root
    ensures f[i].up in f && f[i].lab != [] && f[i].up in Stump(f, i)
    ensures IsTree(Stump(f, i), root)
  {
    ParentEdge(f, {root}, i);
    var p, s, g := f[i].up, Last(f[i].lab), Stump(f, i);
    forall j, r | j in g && r in g[j].kids ensures EdgeOk(g, {root}, j, r) {
      assert EdgeOk(f, {root}, j, r) && EdgeOk(f, {root}, p, s);
      UnderClosed(f, root, i, j, r);
    }
    forall c | c in g && c !in {root} ensures ParentOk(g, c) {
      ParentEdge(f, {root}, c);
      UnderClosed(f, root, i, f[c].up, Last(f[c].lab));
    }
  }

  /** The nodes whose key has the prefix. */
  ghost function Covering(f: Grove, prefix: Key): set<Idx> {
    set i | i in f && prefix <= Full(f[i])
  }

  /** Cutting at `i` removes exactly the keys that extend any prefix ending
   *  between `i`'s label and `i`'s key. */
  lemma StumpStore(f: Grove, root: Idx, store: map<Key, Entry>, i: Idx, prefix: Key)
    requires IsTree(f, root) && Represents(f, store) && i in f && i != root
    requires f[i].lab <= prefix <= Full(f[i])
    ensures f[i].up in f && f[i].lab != []
    ensures Represents(Stump(f, i), map k | k in store && !(prefix <= k) :: store[k])
    ensures Represents(Twig(f, i), map k | k in store && prefix <= k :: store[k])
    ensures Twig(f, i).Keys == Covering(f, prefix)
  {
    ParentEdge(f, {root}, i);
    forall j | j in f ensures j in Under(f, i) <==> prefix <= Full(f[j]) {
      UnderByKey(f, root, i, j);
      if f[i].lab <= Full(f[j]) { OnTheWay(f, root, i, j); }
    }
    PartEntries(f, Stump(f, i), store, map k | k in store && !(prefix <= k) :: store[k]);
    PartEntries(f, Twig(f, i), store, map k | k in store && prefix <= k :: store[k]);
  }

  lemma PartEntries(f: Grove, g: Grove, store: map<Key, Entry>, part: map<Key, Entry>)
    requires Represents(f, store) && g.Keys <= f.Keys && part.Keys <= store.Keys
    requires forall k :: k in part ==> part[k] == store[k]
    requires forall j :: j in f && f[j].val.Some? ==> (j in g <==> Full(f[j]) in part)
    requires forall j :: j in g ==> Full(g[j]) == Full(f[j]) && g[j].val == f[j].val && g[j].exp == f[j].exp
    ensures Represents(g, part)
  {
    forall k | k in part ensures exists j :: Holds(g, j, k) {
      var j :| Holds(f, j, k);
      assert Holds(g, j, k);
    }
  }

  // ---- Counting values -------------------------------------------------------

  /** The nodes that hold a value. */
  ghost function Valued(f: Grove): set<Idx> {
    set j | j in f && f[j].val.Some?
  }

  ghost predicate DistinctKeys(f: Grove) {
    forall i, j :: i in f && j in f && i != j ==> Full(f[i]) != Full(f[j])
  }

  /** As many nodes hold values as keys are stored. */
  lemma {:induction false} ValuedCount(f: Grove, store: map<Key, Entry>)
    requires Represents(f, store) && DistinctKeys(f)
    ensures |Valued(f)| == |store|
    decreases |store|
  {
    if store == map[] {
      assert Valued(f) == {};
    } else {
      var k :| k in store;
      var i :| Holds(f, i, k);
      ForgetOne(f, store, i);
      var g, rest := ClearVal(f, i), store - {k};
      RemoveKeySize(store, k);
      ValuedCount(g, rest);
    }
  }

  lemma ForgetOne(f: Grove, store: map<Key, Entry>, i: Idx)
    requires Represents(f, store) && DistinctKeys(f) && i in f && f[i].val.Some?
    ensures Represents(ClearVal(f, i), store - {Full(f[i])}) && DistinctKeys(ClearVal(f, i))
    ensures |Valued(f)| == |Valued(ClearVal(f, i))| + 1
  {
    var g := ClearVal(f, i);
    assert forall j :: j in f ==> j in g && Full(g[j]) == Full(f[j]);
    RepresentsRemove(f, g, store, i);
    ClearValued(f, i);
  }

  lemma ClearValued(f: Grove, i: Idx)
    requires i in f && f[i].val.Some?
    ensures |Valued(f)| == |Valued(ClearVal(f, i))| + 1
  {
    assert Valued(ClearVal(f, i)) == Valued(f) - {i};
  }

  lemma RemoveKeySize<K, V>(m: map<K, V>, k: K)
    requires k in m
    ensures |m - {k}| == |m| - 1
  {
    assert (m - {k}).Keys == m.Keys - {k};
  }

  lemma TreeDistinctKeys(f: Grove, root: Idx)
    requires IsTree(f, root)
    ensures DistinctKeys(f)
  {
    forall i | i in f ensures forall j :: j in f && j != i ==> Full(f[j]) != Full(f[i]) { OtherKeys(f, root, i); }
  }

  /** Freeing one top: its children become tops. */
  lemma FreeTopLinked(f: Grove, tops: set<Idx>, i: Idx)
    requires Linked(f, tops) && i in tops
    ensures f[i].kids.Values !! tops
    ensures Linked(f - {i}, tops - {i} + f[i].kids.Values)
  {
    var g, tops' := f - {i}, tops - {i} + f[i].kids.Values;
    forall c | c in f[i].kids.Values ensures c in g && c !in tops {
      var r :| r in f[i].kids && f[i].kids[r] == c;
      assert EdgeOk(f, tops, i, r);
    }
    forall j, r | j in g && r in g[j].kids ensures EdgeOk(g, tops', j, r) {
      assert EdgeOk(f, tops, j, r);
      NotAKid(f, tops, i, j, r);
    }
    forall c | c in g && c !in tops' ensures ParentOk(g, c) {
      ParentEdge(f, tops, c);
    }
  }

  /** Every node hangs below some top. */
  lemma {:induction false} ReachesTop(f: Grove, tops: set<Idx>, i: Idx) returns (t: Idx)
    requires Linked(f, tops) && i in f
    ensures t in tops && f[t].lab <= f[i].lab
    decreases |f[i].lab|
  {
    if i in tops {
      t := i;
    } else {
      ParentEdge(f, tops, i);
      t := ReachesTop(f, tops, f[i].up);
      assert f[t].lab <= f[f[i].up].lab <= Full(f[f[i].up]) <= f[i].lab;
    }
  }

  /** A linked grove without tops is empty: nothing detached can be forgotten. */
  lemma NoTopsEmpty(f: Grove)
    requires Linked(f, {})
    ensures f == map[]
  {
    if i :| i in f {
      var t := ReachesTop(f, {}, i);
    }
  }

  /** Merging moves at most one value and loses none. */
  lemma MergeValued(f: Grove, tops: set<Idx>, i: Idx, r: Byte)
    requires Linked(f, tops) && i in f && f[i].kids.Keys == {r} && f[i].val.None?
    ensures f[i].kids[r] in f && |Valued(Merge(f, i, r))| == |Valued(f)|
  {
    MergeSpots(f, tops, i, r);
    MovedValue(f, Merge(f, i, r), f[i].kids[r], i);
  }

  lemma MovedValue(f: Grove, g: Grove, c: Idx, i: Idx)
    requires c != i && c in f && i in f && f[i].val.None? && g.Keys == f.Keys - {c} && g[i].val == f[c].val
    requires forall j :: j in g && j != i ==> g[j].val == f[j].val
    ensures |Valued(g)| == |Valued(f)|
  {
    if f[c].val.Some? {
      forall j ensures j in Valued(g) <==> j in Valued(f) - {c} + {i} { }
      assert Valued(g) == Valued(f) - {c} + {i};
    } else {
      assert Valued(g) == Valued(f);
    }
  }

  // ---- Growth ----------------------------------------------------------------------

  /** No node disappears and no label changes: what storing does to a tree. */
  ghost predicate Grows(f: Grove, g: Grove) {
    forall i :: i in f ==> i in g && g[i].lab == f[i].lab
  }
}
