/** Nothing dangles and nothing leaks. */
module Reachability {
  import opened Basics
  import opened Forest
  import opened Heap
  import opened Art
  import opened Scan
  import opened Roots
  import ChildTiers
  import SlotVec

  /** The node reached from `i` along a sequence of radixes. */
  ghost function Follow(f: Grove, i: Idx, path: seq<Byte>): Option<Idx> {
    if path == [] then (if i in f then Some(i) else None)
    else
      var p := Follow(f, i, path[..|path| - 1]);
      if p.Some? && p.value in f && Last(path) in f[p.value].kids then Some(f[p.value].kids[Last(path)]) else None
  }

  /** Every node is reached. */
  lemma {:induction false} Reaches(f: Grove, root: Idx, i: Idx) returns (path: seq<Byte>)
    requires IsTree(f, root) && i in f
    ensures Follow(f, root, path) == Some(i)
    decreases |f[i].lab|
  {
    if i == root {
      path := [];
    } else {
      ParentEdge(f, {root}, i);
      var up := Reaches(f, root, f[i].up);
      path := up + [Last(f[i].lab)];
      assert path[..|path| - 1] == up;
    }
  }

  /** Only nodes are reached, ... */
  lemma {:induction false} ReachesNodes(f: Grove, root: Idx, path: seq<Byte>)
    requires IsTree(f, root) && Follow(f, root, path).Some?
    ensures Follow(f, root, path).value in f
    ensures path == [] <==> Follow(f, root, path).value == root
    decreases |path|
  {
    if path != [] {
      var init := path[..|path| - 1];
      ReachesNodes(f, root, init);
      assert EdgeOk(f, {root}, Follow(f, root, init).value, Last(path));
    }
  }

  /** The last step of a path to a node is the edge that node hangs from. */
  lemma LastStep(f: Grove, root: Idx, path: seq<Byte>)
    requires IsTree(f, root) && Follow(f, root, path).Some? && path != []
    ensures var i := Follow(f, root, path).value;
            i in f && f[i].lab != [] && Last(f[i].lab) == Last(path) && Follow(f, root, path[..|path| - 1]) == Some(f[i].up)
  {
    var init := path[..|path| - 1];
    ReachesNodes(f, root, init);
    assert EdgeOk(f, {root}, Follow(f, root, init).value, Last(path));
  }

  /** ... and each by one path only. */
  lemma {:induction false} ReachesOnce(f: Grove, root: Idx, p: seq<Byte>, q: seq<Byte>)
    requires IsTree(f, root) && Follow(f, root, p).Some? && Follow(f, root, p) == Follow(f, root, q)
    ensures p == q
    decreases |p|
  {
    hide IsTree, Follow;
    ReachesNodes(f, root, p);
    ReachesNodes(f, root, q);
    if p != [] && q != [] {
      LastStep(f, root, p);
      LastStep(f, root, q);
      ReachesOnce(f, root, p[..|p| - 1], q[..|q| - 1]);
      assert p == p[..|p| - 1] + [Last(p)] && q == q[..|q| - 1] + [Last(q)];
    }
  }

  ghost predicate Reached(f: Grove, root: Idx, i: Idx) {
    exists path :: Follow(f, root, path) == Some(i)
  }

  predicate Occupied(h: Heap, s: nat) {
    s < |h.arena.vec.slots| && h.arena.vec.slots[s].Item?
  }

  predicate Links(h: Heap, i: Idx, s: nat) {
    i in h.nodes && h.nodes[i].overflow == Some(s)
  }

  predicate Backs(h: Heap, s: nat, b: nat) {
    Occupied(h, s) && h.arena.vec.slots[s].item.big == Some(b)
  }

  lemma ReachedIff(f: Grove, root: Idx, i: Idx)
    requires IsTree(f, root)
    ensures Reached(f, root, i) <==> i in f
  {
    hide IsTree, Follow;
    if i in f { var path := Reaches(f, root, i); }
    if path :| Follow(f, root, path) == Some(i) { ReachesNodes(f, root, path); }
  }

  /** With no deletion pending, the live nodes are exactly those reachable from
   *  the root, each by one path. */
  lemma NoNodeLeaks(h: Heap, root: Idx, t: Trunk)
    requires ArtOk(h, root, t) && t.loose == map[]
    ensures forall i :: i in h.nodes <==> Reached(t.tree, root, i)
    ensures forall p, q :: Follow(t.tree, root, p).Some? && Follow(t.tree, root, p) == Follow(t.tree, root, q) ==> p == q
  {
    hide HeapOk, IsTree, Represents, Reached, Follow;
    assert t.tree + t.loose == t.tree;
    forall i ensures i in h.nodes <==> Reached(t.tree, root, i) {
      LiveNode(h, t.layout, t.tree, i);
      ReachedIff(t.tree, root, i);
    }
    forall p, q | Follow(t.tree, root, p).Some? && Follow(t.tree, root, p) == Follow(t.tree, root, q) ensures p == q {
      ReachesOnce(t.tree, root, p, q);
    }
  }

  lemma SlotOwner(h: Heap, root: Idx, t: Trunk, s: nat)
    requires ArtOk(h, root, t) && Occupied(h, s)
    ensures s in t.layout.owner && Links(h, t.layout.owner[s], s)
  {
    hide IsTree, Represents, NodeOk, ChildTiers.OverflowOk, ChildTiers.OwnersOk;
    SlotVec.LaidAt(h.arena.vec.slots, t.layout.view.thread.link, t.layout.view.items, s);
  }

  lemma LinkOwner(h: Heap, root: Idx, t: Trunk, i: Idx, s: nat)
    requires ArtOk(h, root, t) && Links(h, i, s)
    ensures Occupied(h, s) && s in t.layout.owner && t.layout.owner[s] == i
  {
    hide IsTree, Represents, NodeOk, ChildTiers.OverflowOk, ChildTiers.OwnersOk;
    assert h.nodes[i].overflow.value == s;
    SlotVec.LaidAt(h.arena.vec.slots, t.layout.view.thread.link, t.layout.view.items, s);
  }

  /** Every occupied overflow slot is linked from exactly one live node and
   *  every link leads to an occupied slot, pending deletions or not. */
  lemma NoSlotLeaks(h: Heap, root: Idx, t: Trunk)
    requires ArtOk(h, root, t)
    ensures forall s :: Occupied(h, s) <==> exists i :: Links(h, i, s)
    ensures forall i, j, s :: Links(h, i, s) && Links(h, j, s) ==> i == j
  {
    hide ArtOk, Occupied, Links;
    forall s ensures Occupied(h, s) <==> exists i :: Links(h, i, s) {
      if Occupied(h, s) { SlotOwner(h, root, t, s); }
      if i :| Links(h, i, s) { LinkOwner(h, root, t, i, s); }
    }
    forall i, j, s | Links(h, i, s) && Links(h, j, s) ensures i == j {
      LinkOwner(h, root, t, i, s);
      LinkOwner(h, root, t, j, s);
    }
  }

  lemma HugeOwner(h: Heap, root: Idx, t: Trunk, b: nat)
    requires ArtOk(h, root, t) && b in h.arena.huge
    ensures b in t.layout.view.own && Backs(h, t.layout.view.own[b], b)
  {
    hide IsTree, Represents, NodeOk, SlotsOwned, ChildTiers.OverflowOk;
    var v := t.layout.view;
    SlotVec.LaidAt(h.arena.vec.slots, v.thread.link, v.items, v.own[b]);
  }

  lemma BackOwner(h: Heap, root: Idx, t: Trunk, s: nat, b: nat)
    requires ArtOk(h, root, t) && Backs(h, s, b)
    ensures b in h.arena.huge && b in t.layout.view.own && t.layout.view.own[b] == s
  {
    hide IsTree, Represents, NodeOk, SlotsOwned, ChildTiers.OverflowOk;
    var v := t.layout.view;
    SlotVec.LaidAt(h.arena.vec.slots, v.thread.link, v.items, s);
    assert v.items[s].big.value == b;
  }

  /** Every huge table backs exactly one occupied slot. */
  lemma NoHugeLeaks(h: Heap, root: Idx, t: Trunk)
    requires ArtOk(h, root, t)
    ensures forall b :: b in h.arena.huge <==> exists s :: Backs(h, s, b)
    ensures forall r, s, b :: Backs(h, r, b) && Backs(h, s, b) ==> r == s
  {
    hide ArtOk, Backs;
    forall b ensures b in h.arena.huge <==> exists s :: Backs(h, s, b) {
      if b in h.arena.huge { HugeOwner(h, root, t, b); }
      if s :| Backs(h, s, b) { BackOwner(h, root, t, s, b); }
    }
    forall r, s, b | Backs(h, r, b) && Backs(h, s, b) ensures r == s {
      BackOwner(h, root, t, r, b);
      BackOwner(h, root, t, s, b);
    }
  }

  // ---- Expiry ------------------------------------------------------------------------

  datatype TtlResult = KeyNotExist | KeyWithTtl(left: nat) | KeyWithoutTtl

  /** Remaining time of a key. The subtraction never underflows. A key that is
   *  not stored is reported missing unless a valueless inner node spells it
   *  whose leftover expiry word has not passed. */
  method GetTtl(h: Heap, root: Idx, now: nat, key: Key, ghost t: Trunk) returns (res: TtlResult)
    requires ArtOk(h, root, t)
    ensures Live(t.store, now, key) ==>
              res == if t.store[key].exp == NO_EXPIRY then KeyWithoutTtl else KeyWithTtl(t.store[key].exp - now)
    ensures key in t.store && !Live(t.store, now, key) ==> res == KeyNotExist
    ensures key !in t.store ==>
              (res == KeyNotExist <==> forall i :: i in t.tree && Full(t.tree[i]) == key ==> Expired(t.tree[i].exp, now))
  {
    hide HeapOk, Represents;
    var idx := root;
    if key != [] {
      var w := Descend(h, root, key, t);
      if !w.Exact? {
        MissIsAbsent(t.tree, root, t.store, key, w);
        return KeyNotExist;
      }
      idx := w.idx;
    }
    assert Full(t.tree[idx]) == key;
    TreeNode(h, root, t, idx);
    HitIsPresent(t.tree, root, t.store, idx);
    OtherKeys(t.tree, root, idx);
    var exp := h.nodes[idx].exp;
    assert key in t.store ==> t.store[key].exp == exp;
    if Expired(exp, now) {
      return KeyNotExist;
    }
    if exp == NO_EXPIRY {
      return KeyWithoutTtl;
    }
    return KeyWithTtl(exp - now);
  }

  /** Two stores that answer alike at `now` and at every later time. */
  ghost predicate SameAnswers(a: map<Key, Entry>, b: map<Key, Entry>, now: nat) {
    && (forall later, k :: later >= now ==> (Live(a, later, k) <==> Live(b, later, k)))
    && (forall k :: k in a && k in b ==> a[k] == b[k])
  }

  /** Lazy expiration is invisible: whatever `get` tears down, exactly the same
   *  keys are live afterwards, with the same entries, now and at any later time.
   *  The one exception is the breaking lookup of an expired empty key. */
  method GetInvisible(h: Heap, root: Idx, now: nat, key: Key, ghost t: Trunk) returns (h': Heap, res: Option<Value>, ghost t': Trunk)
    requires ArtOk(h, root, t)
    ensures res == if Live(t.store, now, key) then Some(t.store[key].val) else None
    ensures !GetBreaks(h, root, now, key) ==> ArtOk(h', root, t') && SameAnswers(t.store, t'.store, now)
    ensures GetBreaks(h, root, now, key) ==> Broken(h', root)
  {
    hide ArtOk, Broken;
    h', res, t' := GetAny(h, root, now, key, t);
  }
}
