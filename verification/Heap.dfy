/** The node slab together with the overflow arena, and the primitive changes
 *  the tree operations make to them. A heap is matched against a grove that
 *  says, for every live node, what it holds and which children it has. */
module Heap {
  import opened Basics
  import opened Forest
  import opened ChildTiers
  import FreeList

  datatype Node = Node(comp: Key, childs: seq<Edge>, val: Option<Value>, exp: Expiry, overflow: Option<nat>)

  datatype Heap = Heap(nodes: map<Idx, Node>, arena: Arena)

  /** The table behind a node's overflow link. */
  ghost function Behind(n: Node, tables: map<nat, Table>): Table {
    if n.overflow.Some? && n.overflow.value in tables then tables[n.overflow.value] else map[]
  }

  /** Inline and overflow children are disjoint and together are all children. */
  ghost predicate Joins(t: Table, o: Table, kids: Table) {
    && (forall r :: r in t ==> r in kids && kids[r] == t[r] && r !in o)
    && (forall r :: r in o ==> r in kids && kids[r] == o[r])
    && (forall r :: r in kids ==> r in t || r in o)
  }

  ghost predicate NodeOk(n: Node, t: Table, tables: map<nat, Table>, s: Spot) {
    && n.comp == s.comp && n.val == s.val && n.exp == s.exp
    && |n.childs| <= CHILDS_SIZE && Lists(n.childs, t)
    && (n.overflow.Some? ==> n.overflow.value in tables && tables[n.overflow.value] != map[])
    && Joins(t, Behind(n, tables), s.kids)
  }

  ghost predicate NodesOk(nodes: map<Idx, Node>, inl: map<Idx, Table>, tables: map<nat, Table>, all: Grove) {
    && nodes.Keys == all.Keys && inl.Keys == all.Keys
    && (forall i {:trigger NodeOk(nodes[i], inl[i], tables, all[i])} :: i in all ==> NodeOk(nodes[i], inl[i], tables, all[i]))
  }

  /** Each overflow slot belongs to exactly one live node. */
  ghost predicate SlotsOwned(nodes: map<Idx, Node>, tables: map<nat, Table>, owner: map<nat, Idx>) {
    && tables.Keys == owner.Keys
    && (forall s {:trigger owner[s]} :: s in owner ==> owner[s] in nodes && nodes[owner[s]].overflow == Some(s))
    && (forall i {:trigger nodes[i].overflow.value} :: i in nodes && nodes[i].overflow.Some? ==>
          nodes[i].overflow.value in owner && owner[nodes[i].overflow.value] == i)
  }

  /** How the heap is laid out: the arena's view, the inline table of each
   *  node and the owner of each overflow slot. */
  datatype Layout = Layout(view: View, inl: map<Idx, Table>, owner: map<nat, Idx>)

  ghost predicate HeapOk(h: Heap, g: Layout, all: Grove) {
    && ArenaOk(h.arena, g.view)
    && NodesOk(h.nodes, g.inl, g.view.tables, all)
    && SlotsOwned(h.nodes, g.view.tables, g.owner)
  }

  // ---- Changing one node ----------------------------------------------------------

  /** Slots not owned by the nodes in `who` keep their tables and owners. */
  ghost predicate OnlyOwn(tables: map<nat, Table>, owner: map<nat, Idx>, tables': map<nat, Table>, owner': map<nat, Idx>, who: set<Idx>) {
    && tables.Keys == owner.Keys && tables'.Keys == owner'.Keys
    && (forall s {:trigger owner[s]} {:trigger owner'[s]} :: s in owner && owner[s] !in who ==>
          s in owner' && tables'[s] == tables[s] && owner'[s] == owner[s])
    && (forall s {:trigger owner'[s]} :: s in owner' && owner'[s] !in who ==> s in owner && owner[s] == owner'[s])
  }

  ghost predicate OwnSlots(n: Node, i: Idx, owner: map<nat, Idx>) {
    && (forall s {:trigger owner[s]} :: s in owner && owner[s] == i ==> n.overflow == Some(s))
    && (n.overflow.Some? ==> n.overflow.value in owner && owner[n.overflow.value] == i)
  }

  lemma NodeKept(n: Node, t: Table, tables: map<nat, Table>, tables': map<nat, Table>, s: Spot)
    requires NodeOk(n, t, tables, s)
    requires n.overflow.Some? ==> n.overflow.value in tables' && tables'[n.overflow.value] == tables[n.overflow.value]
    ensures NodeOk(n, t, tables', s)
  {
    assert Behind(n, tables) == Behind(n, tables');
  }

  lemma OthersKept(nodes: map<Idx, Node>, inl: map<Idx, Table>, tables: map<nat, Table>, owner: map<nat, Idx>, all: Grove,
                   tables': map<nat, Table>, owner': map<nat, Idx>, who: set<Idx>)
    requires NodesOk(nodes, inl, tables, all) && SlotsOwned(nodes, tables, owner) && OnlyOwn(tables, owner, tables', owner', who)
    ensures forall j :: j in all && j !in who ==> NodeOk(nodes[j], inl[j], tables', all[j])
  {
    forall j | j in all && j !in who ensures NodeOk(nodes[j], inl[j], tables', all[j]) {
      assert NodeOk(nodes[j], inl[j], tables, all[j]);
      if nodes[j].overflow.Some? { assert owner[nodes[j].overflow.value] == j; }
      NodeKept(nodes[j], inl[j], tables, tables', all[j]);
    }
  }

  /** One node is written, new or old, together with its own overflow slot. */
  lemma WriteNode(h: Heap, g: Layout, all: Grove, arena': Arena, view': View, i: Idx, n: Node, t: Table, s: Spot, owner': map<nat, Idx>)
    requires HeapOk(h, g, all) && ArenaOk(arena', view')
    requires OnlyOwn(g.view.tables, g.owner, view'.tables, owner', {i}) && OwnSlots(n, i, owner')
    requires NodeOk(n, t, view'.tables, s)
    ensures HeapOk(Heap(h.nodes[i := n], arena'), Layout(view', g.inl[i := t], owner'), all[i := s])
  {
    OthersKept(h.nodes, g.inl, g.view.tables, g.owner, all, view'.tables, owner', {i});
    WriteOwned(h.nodes, g.view.tables, g.owner, view'.tables, owner', i, n);
  }

  lemma WriteOwned(nodes: map<Idx, Node>, tables: map<nat, Table>, owner: map<nat, Idx>,
                   tables': map<nat, Table>, owner': map<nat, Idx>, i: Idx, n: Node)
    requires SlotsOwned(nodes, tables, owner) && OnlyOwn(tables, owner, tables', owner', {i}) && OwnSlots(n, i, owner')
    ensures SlotsOwned(nodes[i := n], tables', owner')
  {
  }

  /** One node leaves the slab together with its own overflow slot. */
  lemma DropNode(h: Heap, g: Layout, all: Grove, arena': Arena, view': View, i: Idx, owner': map<nat, Idx>)
    requires HeapOk(h, g, all) && ArenaOk(arena', view')
    requires OnlyOwn(g.view.tables, g.owner, view'.tables, owner', {i}) && OwnsNothing(i, owner')
    ensures HeapOk(Heap(h.nodes - {i}, arena'), Layout(view', g.inl - {i}, owner'), all - {i})
  {
    OthersKept(h.nodes, g.inl, g.view.tables, g.owner, all, view'.tables, owner', {i});
    DropOwned(h.nodes, g.view.tables, g.owner, view'.tables, owner', i);
  }

  ghost predicate OwnsNothing(i: Idx, owner: map<nat, Idx>) {
    forall s {:trigger owner[s]} :: s in owner ==> owner[s] != i
  }

  lemma DropOwned(nodes: map<Idx, Node>, tables: map<nat, Table>, owner: map<nat, Idx>,
                  tables': map<nat, Table>, owner': map<nat, Idx>, i: Idx)
    requires SlotsOwned(nodes, tables, owner) && OnlyOwn(tables, owner, tables', owner', {i}) && OwnsNothing(i, owner')
    ensures SlotsOwned(nodes - {i}, tables', owner')
  {
    forall j | j in nodes && j != i && nodes[j].overflow.Some?
      ensures nodes[j].overflow.value in owner' && owner'[nodes[j].overflow.value] == j
    {
      assert owner[nodes[j].overflow.value] == j;
    }
  }

  lemma SameOwners(g: Layout, who: set<Idx>)
    requires g.view.tables.Keys == g.owner.Keys
    ensures OnlyOwn(g.view.tables, g.owner, g.view.tables, g.owner, who)
  {
  }

  /** Labels and parents are not stored, so they may change freely. */
  ghost predicate SameBody(all: Grove, all': Grove) {
    && all.Keys == all'.Keys
    && forall i :: i in all ==> all'[i].comp == all[i].comp && all'[i].val == all[i].val && all'[i].exp == all[i].exp && all'[i].kids == all[i].kids
  }

  lemma Relabel(h: Heap, g: Layout, all: Grove, all': Grove)
    requires HeapOk(h, g, all) && SameBody(all, all')
    ensures HeapOk(h, g, all')
  {
    forall i | i in all' ensures NodeOk(h.nodes[i], g.inl[i], g.view.tables, all'[i]) {
      assert NodeOk(h.nodes[i], g.inl[i], g.view.tables, all[i]);
    }
  }

  // ---- Reading ----------------------------------------------------------------------

  lemma KnowNode(h: Heap, g: Layout, all: Grove, i: Idx)
    requires HeapOk(h, g, all) && i in all
    ensures i in h.nodes && i in g.inl && NodeOk(h.nodes[i], g.inl[i], g.view.tables, all[i])
    ensures OwnSlots(h.nodes[i], i, g.owner) && g.view.tables.Keys == g.owner.Keys && ArenaOk(h.arena, g.view)
  {
    assert NodeOk(h.nodes[i], g.inl[i], g.view.tables, all[i]);
    assert h.nodes[i].overflow.Some? ==> h.nodes[i].overflow.value in g.owner;
  }

  /** The child of node `i` at radix `r`, whichever tier it is in. */
  method Find(h: Heap, i: Idx, r: Byte, ghost g: Layout, ghost all: Grove) returns (res: Option<Idx>)
    requires HeapOk(h, g, all)
    ensures res == if i in all && r in all[i].kids then Some(all[i].kids[r]) else None
  {
    if i !in h.nodes {
      return None;
    }
    KnowNode(h, g, all, i);
    var n := h.nodes[i];
    var pos := FindEdge(n.childs, r);
    if pos.Some? {
      return Some(n.childs[pos.value].idx);
    }
    if n.overflow.None? {
      return None;
    }
    res := FindInSlot(h.arena, n.overflow.value, r, g.view);
  }

  /** The edges of a node as the slab holds them: inline ones first. */
  function ChildEdges(h: Heap, i: Idx): seq<Edge> {
    if i !in h.nodes then []
    else h.nodes[i].childs + if h.nodes[i].overflow.Some? then EdgesOfSlot(h.arena, h.nodes[i].overflow.value) else []
  }

  /** All children, inline ones first. */
  method IterChildren(h: Heap, i: Idx, ghost g: Layout, ghost all: Grove) returns (es: seq<Edge>)
    requires HeapOk(h, g, all)
    ensures es == ChildEdges(h, i) && Lists(es, if i in all then all[i].kids else map[])
  {
    if i !in h.nodes {
      return [];
    }
    KnowNode(h, g, all, i);
    var n := h.nodes[i];
    es := n.childs;
    if n.overflow.Some? {
      var more := IterSlot(h.arena, n.overflow.value, g.view);
      es := n.childs + more;
      JoinLists(n.childs, more, g.inl[i], g.view.tables[n.overflow.value], all[i].kids);
    } else {
      JoinNothing(g.inl[i], all[i].kids);
      assert n.childs + [] == n.childs;
    }
  }

  /** The edges a node holds list its children. */
  lemma ChildEdgesListed(h: Heap, g: Layout, all: Grove, i: Idx)
    requires HeapOk(h, g, all) && i in all
    ensures Lists(ChildEdges(h, i), all[i].kids)
  {
    hide HeapOk, Lists, NodesOk, SlotsOwned;
    KnowNode(h, g, all, i);
    var n := h.nodes[i];
    if n.overflow.Some? {
      SlotListed(h.arena, g.view, n.overflow.value);
      JoinLists(n.childs, EdgesOfSlot(h.arena, n.overflow.value), g.inl[i], g.view.tables[n.overflow.value], all[i].kids);
    } else {
      JoinNothing(g.inl[i], all[i].kids);
      assert n.childs + [] == n.childs;
    }
  }

  lemma JoinNothing(t: Table, kids: Table)
    requires Joins(t, map[], kids)
    ensures t == kids
  {
  }

  lemma JoinLists(a: seq<Edge>, b: seq<Edge>, t: Table, o: Table, kids: Table)
    requires Lists(a, t) && Lists(b, o) && Joins(t, o, kids)
    ensures Lists(a + b, kids)
  {
    var es := a + b;
    forall k | 0 <= k < |es| ensures es[k].radix in kids && kids[es[k].radix] == es[k].idx {
      if k < |a| { assert a[k].radix in t; } else { assert b[k - |a|].radix in o; }
    }
    forall i, j | 0 <= i < j < |es| ensures es[i].radix != es[j].radix {
      if j < |a| {
        ListsDistinct(a, t, i, j);
      } else if i < |a| {
        assert a[i].radix in t && b[j - |a|].radix in o;
      } else {
        ListsDistinct(b, o, i - |a|, j - |a|);
      }
    }
    forall r | r in kids ensures HasRadix(es, r) {
      if r in t { assert es[PosOf(a, r)].radix == r; } else { assert es[|a| + PosOf(b, r)].radix == r; }
    }
    ListsIntro(es, kids);
  }

  /** The child that recompression would absorb: the only inline child of a
   *  valueless node without an overflow slot. */
  function SingleChild(h: Heap, i: Idx): Option<Edge> {
    if i in h.nodes && h.nodes[i].val.None? && |h.nodes[i].childs| == 1 && h.nodes[i].overflow.None?
    then Some(h.nodes[i].childs[0]) else None
  }

  lemma SingleChildKids(h: Heap, g: Layout, all: Grove, i: Idx)
    requires HeapOk(h, g, all) && i in all && SingleChild(h, i).Some?
    ensures all[i].val.None? && all[i].kids == map[SingleChild(h, i).value.radix := SingleChild(h, i).value.idx]
  {
    hide ArenaOk, HeapOk;
    KnowNode(h, g, all, i);
    var es := h.nodes[i].childs;
    JoinNothing(g.inl[i], all[i].kids);
    assert es[0].radix in all[i].kids;
    forall r | r in all[i].kids ensures r == es[0].radix { assert PosOf(es, r) == 0; }
  }

  /** A node without inline edges and without a slot has no children. */
  lemma ChildlessKids(h: Heap, g: Layout, all: Grove, i: Idx)
    requires HeapOk(h, g, all) && i in all
    ensures i in h.nodes
    ensures h.nodes[i].childs == [] && h.nodes[i].overflow.None? <==> all[i].kids == map[]
  {
    KnowNode(h, g, all, i);
    var n, t := h.nodes[i], g.inl[i];
    ListsSize(n.childs, t);
    if n.overflow.Some? {
      var o := g.view.tables[n.overflow.value];
      var r :| r in o;
      assert r in all[i].kids;
    } else {
      JoinNothing(t, all[i].kids);
    }
  }

  // ---- Writing ----------------------------------------------------------------------

  method SetFields(h: Heap, i: Idx, val: Option<Value>, exp: Expiry, ghost g: Layout, ghost all: Grove) returns (h': Heap)
    requires HeapOk(h, g, all) && i in all
    ensures HeapOk(h', g, all[i := all[i].(val := val, exp := exp)])
    ensures i in h.nodes && h' == Heap(h.nodes[i := h.nodes[i].(val := val, exp := exp)], h.arena)
  {
    hide ArenaOk, HeapOk, Lists, Joins;
    KnowNode(h, g, all, i);
    var n := h.nodes[i].(val := val, exp := exp);
    SameOwners(g, {i});
    assert Behind(n, g.view.tables) == Behind(h.nodes[i], g.view.tables);
    WriteNode(h, g, all, h.arena, g.view, i, n, g.inl[i], all[i].(val := val, exp := exp), g.owner);
    assert g.inl[i := g.inl[i]] == g.inl;
    h' := Heap(h.nodes[i := n], h.arena);
  }

  lemma NewcomerOwnsNothing(h: Heap, g: Layout, all: Grove, x: Idx, n: Node)
    requires HeapOk(h, g, all) && x !in h.nodes && n.overflow.None?
    ensures OwnSlots(n, x, g.owner) && g.view.tables.Keys == g.owner.Keys && ArenaOk(h.arena, g.view)
  {
    hide ArenaOk, NodesOk;
  }

  /** The slab picks any free index. */
  method InsertLeaf(h: Heap, comp: Key, val: Option<Value>, exp: Expiry, ghost lab: Key, ghost up: Idx, ghost g: Layout, ghost all: Grove)
    returns (h': Heap, x: Idx, ghost g': Layout)
    requires HeapOk(h, g, all)
    ensures x !in all && HeapOk(h', g', all[x := Spot(lab, up, comp, val, exp, map[])])
    ensures x !in h.nodes && h' == Heap(h.nodes[x := Node(comp, [], val, exp, None)], h.arena)
  {
    hide ArenaOk, HeapOk, NodeOk, OnlyOwn, OwnSlots;
    FreshIdx(h.nodes.Keys);
    x :| x !in h.nodes.Keys;
    var n := Node(comp, [], val, exp, None);
    NewcomerOwnsNothing(h, g, all, x, n);
    LiveNode(h, g, all, x);
    SameOwners(g, {x});
    EmptyNodeOk(n, g.view.tables, Spot(lab, up, comp, val, exp, map[]));
    WriteNode(h, g, all, h.arena, g.view, x, n, map[], Spot(lab, up, comp, val, exp, map[]), g.owner);
    h' := Heap(h.nodes[x := n], h.arena);
    g' := Layout(g.view, g.inl[x := map[]], g.owner);
  }

  /** A free inline place takes the new edge; nothing else changes. */
  function Inlined(h: Heap, p: Idx, r: Byte, idx: Idx): Heap
    requires p in h.nodes
  {
    Heap(h.nodes[p := h.nodes[p].(childs := h.nodes[p].childs + [Edge(r, idx)])], h.arena)
  }

  method PushChild(h: Heap, p: Idx, idx: Idx, r: Byte, ghost g: Layout, ghost all: Grove) returns (h': Heap, ghost g': Layout)
    requires HeapOk(h, g, all) && p in all && r !in all[p].kids
    ensures HeapOk(h', g', AddKid(all, p, r, idx))
    ensures p in h.nodes && (|h.nodes[p].childs| < 6 ==> h' == Inlined(h, p, r, idx))
  {
    hide ArenaOk, HeapOk, Lists, Joins;
    KnowNode(h, g, all, p);
    var n := h.nodes[p];
    ghost var t, kids := g.inl[p], all[p].kids;
    if |n.childs| < CHILDS_SIZE {
      h', g' := PushInline(h, p, idx, r, g, all);
    } else if n.overflow.None? {
      var a, s; ghost var v;
      a, s, v := NewSlot(h.arena, g.view);
      a, v := PushToSlot(a, s, r, idx, v);
      JoinOverflow(t, map[], kids, r, idx);
      h', g' := LinkSlot(h, p, r, idx, a, v, s, g, all);
    } else {
      var s := n.overflow.value;
      TableRoom(kids, r);
      BehindSmall(t, g.view.tables[s], kids);
      var a; ghost var v;
      a, v := PushToSlot(h.arena, s, r, idx, g.view);
      JoinOverflow(t, g.view.tables[s], kids, r, idx);
      h', g' := LinkSlot(h, p, r, idx, a, v, s, g, all);
    }
  }

  method PushInline(h: Heap, p: Idx, idx: Idx, r: Byte, ghost g: Layout, ghost all: Grove) returns (h': Heap, ghost g': Layout)
    requires HeapOk(h, g, all) && p in all && r !in all[p].kids && |h.nodes[p].childs| < CHILDS_SIZE
    ensures HeapOk(h', g', AddKid(all, p, r, idx))
    ensures p in h.nodes && h' == Inlined(h, p, r, idx)
  {
    hide ArenaOk, HeapOk, Lists;
    KnowNode(h, g, all, p);
    var n := h.nodes[p];
    var n' := n.(childs := n.childs + [Edge(r, idx)]);
    ghost var t' := With(g.inl[p], r, idx);
    assert r !in g.inl[p];
    PushEnd(n.childs, Edge(r, idx), g.inl[p]);
    assert Behind(n', g.view.tables) == Behind(n, g.view.tables);
    assert Joins(t', Behind(n', g.view.tables), With(all[p].kids, r, idx));
    SameOwners(g, {p});
    WriteNode(h, g, all, h.arena, g.view, p, n', t', all[p].(kids := all[p].kids[r := idx]), g.owner);
    h' := Heap(h.nodes[p := n'], h.arena);
    g' := Layout(g.view, g.inl[p := t'], g.owner);
  }

  lemma PushEnd(es: seq<Edge>, e: Edge, t: Table)
    requires Lists(es, t) && e.radix !in t
    ensures Lists(es + [e], With(t, e.radix, e.idx))
  {
    assert es + [] == es;
    InsertLists(es, e, [], t);
    assert es + [e] + [] == es + [e];
  }

  lemma JoinOverflow(t: Table, o: Table, kids: Table, r: Byte, idx: Idx)
    requires Joins(t, o, kids) && r !in kids
    ensures Joins(t, With(o, r, idx), With(kids, r, idx))
  {
  }

  lemma BehindSmall(t: Table, o: Table, kids: Table)
    requires Joins(t, o, kids)
    ensures |o| <= |kids| && forall r :: r in o ==> r in kids
  {
    Subset(o.Keys, kids.Keys);
  }

  /** Point node `p` at slot `s`, which already holds the new table. */
  method LinkSlot(h: Heap, p: Idx, ghost r: Byte, ghost idx: Idx, a: Arena, ghost v: View, s: nat, ghost g: Layout, ghost all: Grove)
    returns (h': Heap, ghost g': Layout)
    requires HeapOk(h, g, all) && p in all && ArenaOk(a, v)
    requires s in v.tables && v.tables == g.view.tables[s := v.tables[s]] && v.tables[s] != map[]
    requires h.nodes[p].overflow == Some(s) || (h.nodes[p].overflow.None? && s !in g.view.tables)
    requires Joins(g.inl[p], v.tables[s], With(all[p].kids, r, idx))
    ensures HeapOk(h', g', AddKid(all, p, r, idx))
  {
    hide ArenaOk, HeapOk, Lists, Joins;
    KnowNode(h, g, all, p);
    var n := h.nodes[p].(overflow := Some(s));
    ghost var owner := g.owner[s := p];
    assert Behind(n, v.tables) == v.tables[s];
    assert OnlyOwn(g.view.tables, g.owner, v.tables, owner, {p});
    assert OwnSlots(n, p, owner);
    WriteNode(h, g, all, a, v, p, n, g.inl[p], all[p].(kids := all[p].kids[r := idx]), owner);
    h' := Heap(h.nodes[p := n], a);
    g' := Layout(v, g.inl[p := g.inl[p]], owner);
  }

  // ---- Unlinking ----------------------------------------------------------------------

  lemma JoinDrop(t: Table, o: Table, kids: Table, r: Byte)
    requires Joins(t, o, kids)
    ensures r in t ==> Joins(t - {r}, o, kids - {r})
    ensures r !in t ==> Joins(t, o - {r}, kids - {r})
  {
  }

  /** A missing parent is ignored; so is a radix without a child. */
  method RemoveChild(h: Heap, p: Idx, r: Byte, ghost g: Layout, ghost all: Grove) returns (h': Heap, ghost g': Layout)
    requires HeapOk(h, g, all)
    ensures HeapOk(h', g', if p in all then DropKid(all, p, r) else all)
    ensures p in h.nodes ==> forall k :: 0 <= k < |h.nodes[p].childs| && h.nodes[p].childs[k].radix == r ==> h' == Uninlined(h, p, k)
  {
    hide ArenaOk, Lists, Joins, NodeOk, SlotsOwned;
    if p !in h.nodes {
      return h, g;
    }
    KnowNode(h, g, all, p);
    var n := h.nodes[p];
    var pos := InlinePosition(h, p, r, g, all);
    if pos.Some? {
      h', g' := RemoveInline(h, p, r, pos.value, g, all);
    } else if n.overflow.Some? {
      h', g' := RemoveOverflow(h, p, r, n.overflow.value, g, all);
    } else {
      NoKid(h, p, r, g, all);
      assert all[p].kids - {r} == all[p].kids && DropKid(all, p, r) == all;
      h', g' := h, g;
    }
  }

  /** An inline edge is overwritten by the last one; nothing else changes. */
  function Uninlined(h: Heap, p: Idx, k: nat): Heap
    requires p in h.nodes && k < |h.nodes[p].childs|
  {
    Heap(h.nodes[p := h.nodes[p].(childs := SwapRemove(h.nodes[p].childs, k))], h.arena)
  }

  method InlinePosition(h: Heap, p: Idx, r: Byte, ghost g: Layout, ghost all: Grove) returns (pos: Option<nat>)
    requires HeapOk(h, g, all) && p in all
    ensures p in h.nodes && p in g.inl
    ensures pos.Some? ==> pos.value < |h.nodes[p].childs| && h.nodes[p].childs[pos.value].radix == r
    ensures pos.None? ==> r !in g.inl[p]
    ensures forall k :: 0 <= k < |h.nodes[p].childs| && h.nodes[p].childs[k].radix == r ==> pos == Some(k)
  {
    hide ArenaOk;
    KnowNode(h, g, all, p);
    pos := FindEdge(h.nodes[p].childs, r);
  }

  lemma NoKid(h: Heap, p: Idx, r: Byte, g: Layout, all: Grove)
    requires HeapOk(h, g, all) && p in all && p in g.inl && p in h.nodes && r !in g.inl[p] && h.nodes[p].overflow.None?
    ensures r !in all[p].kids
  {
    hide ArenaOk, HeapOk;
    KnowNode(h, g, all, p);
  }

  method RemoveInline(h: Heap, p: Idx, r: Byte, k: nat, ghost g: Layout, ghost all: Grove) returns (h': Heap, ghost g': Layout)
    requires HeapOk(h, g, all) && p in all && p in h.nodes && k < |h.nodes[p].childs| && h.nodes[p].childs[k].radix == r
    ensures HeapOk(h', g', DropKid(all, p, r)) && h' == Uninlined(h, p, k)
  {
    hide ArenaOk, HeapOk, Joins, Lists;
    KnowNode(h, g, all, p);
    var n := h.nodes[p];
    var n' := n.(childs := SwapRemove(n.childs, k));
    RemoveFrontOnly(n.childs, g.inl[p], k);
    JoinDrop(g.inl[p], Behind(n, g.view.tables), all[p].kids, r);
    assert Behind(n', g.view.tables) == Behind(n, g.view.tables);
    SameOwners(g, {p});
    assert OwnSlots(n', p, g.owner);
    WriteNode(h, g, all, h.arena, g.view, p, n', g.inl[p] - {r}, all[p].(kids := all[p].kids - {r}), g.owner);
    h' := Heap(h.nodes[p := n'], h.arena);
    g' := Layout(g.view, g.inl[p := g.inl[p] - {r}], g.owner);
  }

  lemma RemoveFrontOnly(es: seq<Edge>, t: Table, k: nat)
    requires Lists(es, t) && k < |es|
    ensures es[k].radix in t && Lists(SwapRemove(es, k), t - {es[k].radix})
  {
    hide Lists;
    assert es + [] == es && SwapRemove(es, k) + [] == SwapRemove(es, k);
    RemoveFront(es, [], t, k);
  }

  method RemoveOverflow(h: Heap, p: Idx, r: Byte, s: nat, ghost g: Layout, ghost all: Grove) returns (h': Heap, ghost g': Layout)
    requires HeapOk(h, g, all) && p in all && p in h.nodes && h.nodes[p].overflow == Some(s) && p in g.inl && r !in g.inl[p]
    ensures HeapOk(h', g', DropKid(all, p, r))
  {
    hide ArenaOk, HeapOk, Joins, Lists;
    KnowNode(h, g, all, p);
    var n := h.nodes[p];
    ghost var o := g.view.tables[s] - {r};
    JoinDrop(g.inl[p], g.view.tables[s], all[p].kids, r);
    var a, _, v := RemoveFromSlot(h.arena, s, r, g.view);
    var empty := SlotIsEmpty(a, s, v);
    var n', owner := n, g.owner;
    if empty {
      a, v := FreeSlot(a, s, v);
      n', owner := n.(overflow := None), g.owner - {s};
    }
    assert Behind(n', v.tables) == o;
    assert OnlyOwn(g.view.tables, g.owner, v.tables, owner, {p});
    assert OwnSlots(n', p, owner);
    WriteNode(h, g, all, a, v, p, n', g.inl[p], all[p].(kids := all[p].kids - {r}), owner);
    h' := Heap(h.nodes[p := n'], a);
    g' := Layout(v, g.inl[p := g.inl[p]], owner);
  }

  /** Remove a node from the slab, and its overflow slot from the arena. */
  method FreeNode(h: Heap, i: Idx, ghost g: Layout, ghost all: Grove) returns (h': Heap, ghost g': Layout)
    requires HeapOk(h, g, all) && i in all
    ensures HeapOk(h', g', all - {i})
    ensures i in h.nodes && h'.nodes == h.nodes - {i} && (h.nodes[i].overflow.None? ==> h'.arena == h.arena)
  {
    hide ArenaOk, HeapOk, NodeOk;
    KnowNode(h, g, all, i);
    var n := h.nodes[i];
    var a, v, owner := h.arena, g.view, g.owner;
    if n.overflow.Some? {
      SlotKnown(h, g, all, i);
      a, v := FreeSlot(h.arena, n.overflow.value, g.view);
      owner := g.owner - {n.overflow.value};
    }
    assert OnlyOwn(g.view.tables, g.owner, v.tables, owner, {i});
    DropNode(h, g, all, a, v, i, owner);
    h' := Heap(h.nodes - {i}, a);
    g' := Layout(v, g.inl - {i}, owner);
  }

  lemma SlotKnown(h: Heap, g: Layout, all: Grove, i: Idx)
    requires HeapOk(h, g, all) && i in all && i in h.nodes && h.nodes[i].overflow.Some?
    ensures h.nodes[i].overflow.value in g.view.tables
  {
    hide ArenaOk;
    KnowNode(h, g, all, i);
  }

  // ---- Moving children between nodes -----------------------------------------------------

  ghost function Rehome(n: Node, b: Idx, owner: map<nat, Idx>): map<nat, Idx> {
    if n.overflow.Some? then owner[n.overflow.value := b] else owner
  }

  /** Node `a` hands its whole child set, inline edges and slot, to node `b`. */
  lemma MoveBody(h: Heap, g: Layout, all: Grove, a: Idx, b: Idx, na: Node, nb: Node, sa: Spot, sb: Spot)
    requires HeapOk(h, g, all) && a in all && a != b && a in h.nodes && a in g.inl
    requires b in h.nodes ==> h.nodes[b].overflow.None?
    requires na == Node(sa.comp, [], sa.val, sa.exp, None) && sa.kids == map[]
    requires nb == Node(sb.comp, h.nodes[a].childs, sb.val, sb.exp, h.nodes[a].overflow) && sb.kids == all[a].kids
    ensures HeapOk(Heap(h.nodes[a := na][b := nb], h.arena),
                   Layout(g.view, g.inl[a := map[]][b := g.inl[a]], Rehome(h.nodes[a], b, g.owner)),
                   all[a := sa][b := sb])
  {
    hide ArenaOk, SlotsOwned, OnlyOwn, OwnSlots, NodeOk;
    var n, owner' := h.nodes[a], Rehome(h.nodes[a], b, g.owner);
    KnowNode(h, g, all, a);
    if n.overflow.Some? { SlotKnown(h, g, all, a); }
    MoveOwned(h.nodes, g.view.tables, g.owner, a, b, na, nb);
    OthersKept(h.nodes, g.inl, g.view.tables, g.owner, all, g.view.tables, owner', {a, b});
    SameChildren(n, nb, g.inl[a], g.view.tables, all[a], sb);
    EmptyNodeOk(na, g.view.tables, sa);
  }

  lemma SameChildren(n: Node, n': Node, t: Table, tables: map<nat, Table>, s: Spot, s': Spot)
    requires NodeOk(n, t, tables, s) && n' == Node(s'.comp, n.childs, s'.val, s'.exp, n.overflow) && s'.kids == s.kids
    ensures NodeOk(n', t, tables, s')
  {
    assert Behind(n', tables) == Behind(n, tables);
  }

  lemma EmptyNodeOk(n: Node, tables: map<nat, Table>, s: Spot)
    requires n == Node(s.comp, [], s.val, s.exp, None) && s.kids == map[]
    ensures NodeOk(n, map[], tables, s)
  {
  }

  lemma MoveOwned(nodes: map<Idx, Node>, tables: map<nat, Table>, owner: map<nat, Idx>, a: Idx, b: Idx, na: Node, nb: Node)
    requires SlotsOwned(nodes, tables, owner) && a in nodes && a != b && (b in nodes ==> nodes[b].overflow.None?)
    requires na.overflow.None? && nb.overflow == nodes[a].overflow
    requires nodes[a].overflow.Some? ==> nodes[a].overflow.value in tables
    ensures SlotsOwned(nodes[a := na][b := nb], tables, Rehome(nodes[a], b, owner))
    ensures OnlyOwn(tables, owner, tables, Rehome(nodes[a], b, owner), {a, b})
  {
    var nodes', owner' := nodes[a := na][b := nb], Rehome(nodes[a], b, owner);
    if nodes[a].overflow.Some? { assert owner[nodes[a].overflow.value] == a; }
    forall s | s in owner' ensures owner'[s] in nodes' && nodes'[owner'[s]].overflow == Some(s) {
      assert owner[s] in nodes && nodes[owner[s]].overflow == Some(s);
    }
    forall i | i in nodes' && nodes'[i].overflow.Some? ensures nodes'[i].overflow.value in owner' && owner'[nodes'[i].overflow.value] == i {
      if i != b && i != a { assert owner[nodes[i].overflow.value] == i; }
    }
  }

  /** The grove after the first half of a split: `i` is bare, `m` has the rest. */
  ghost function SplitOffGrove(all: Grove, i: Idx, n: nat, m: Idx): Grove
    requires i in all && n < |all[i].comp|
  {
    var s := all[i];
    all[i := s.(comp := s.comp[..n], val := None, exp := NO_EXPIRY, kids := map[])]
       [m := Spot(s.lab + s.comp[..n] + [s.comp[n]], i, s.comp[n + 1..], s.val, s.exp, s.kids)]
  }

  /** The two halves of a split node, before they are linked. */
  function Upper(n: Node, k: nat): Node
    requires k < |n.comp|
  {
    Node(n.comp[..k], [], None, NO_EXPIRY, None)
  }

  function Lower(n: Node, k: nat): Node
    requires k < |n.comp|
  {
    n.(comp := n.comp[k + 1..])
  }

  method SplitOff(h: Heap, i: Idx, n: nat, ghost g: Layout, ghost all: Grove) returns (h': Heap, m: Idx, ghost g': Layout)
    requires HeapOk(h, g, all) && i in all && n < |all[i].comp|
    ensures m !in all && HeapOk(h', g', SplitOffGrove(all, i, n, m))
    ensures m !in h.nodes && i in h.nodes && n < |h.nodes[i].comp|
    ensures h' == Heap(h.nodes[i := Upper(h.nodes[i], n)][m := Lower(h.nodes[i], n)], h.arena)
  {
    hide ArenaOk, SlotsOwned, Lists, Joins;
    KnowNode(h, g, all, i);
    FreshIdx(h.nodes.Keys);
    m :| m !in h.nodes.Keys;
    var node := h.nodes[i];
    var upper := Upper(node, n);
    var lower := Lower(node, n);
    ghost var f := SplitOffGrove(all, i, n, m);
    MoveBody(h, g, all, i, m, upper, lower, f[i], f[m]);
    h' := Heap(h.nodes[i := upper][m := lower], h.arena);
    g' := Layout(g.view, g.inl[i := map[]][m := g.inl[i]], Rehome(node, m, g.owner));
  }

  ghost predicate KidsLive(all: Grove, i: Idx) {
    i in all ==> forall r :: r in all[i].kids ==> all[i].kids[r] in all && all[i].kids[r] != i
  }

  /** What recompression does to the slab. */
  function AbsorbHeap(h: Heap, i: Idx): Heap {
    if SingleChild(h, i).None? then h else
      var e := SingleChild(h, i).value;
      if e.idx !in h.nodes then h else
        var child := h.nodes[e.idx];
        Heap((h.nodes - {e.idx})[i := child.(comp := h.nodes[i].comp + [e.radix] + child.comp)], h.arena)
  }

  /** If the node has exactly one inline child, no slot and no value, it absorbs
   *  that child; otherwise nothing happens. */
  method TryRecompress(h: Heap, i: Idx, ghost g: Layout, ghost all: Grove) returns (h': Heap, ghost g': Layout)
    requires HeapOk(h, g, all) && KidsLive(all, i)
    ensures SingleChild(h, i).None? ==> h' == h && g' == g
    ensures SingleChild(h, i).Some? ==> i in all && all[i].kids.Keys == {SingleChild(h, i).value.radix}
    ensures SingleChild(h, i).Some? ==> all[i].val.None? && all[i].kids[SingleChild(h, i).value.radix] in all
    ensures SingleChild(h, i).Some? ==> HeapOk(h', g', Merge(all, i, SingleChild(h, i).value.radix))
    ensures h' == AbsorbHeap(h, i)
  {
    hide ArenaOk, NodesOk, SlotsOwned, Merge;
    if i !in h.nodes {
      return h, g;
    }
    if SingleChild(h, i).None? {
      return h, g;
    }
    LiveNode(h, g, all, i);
    var e := SingleChild(h, i).value;
    SingleChildKids(h, g, all, i);
    assert e.radix in all[i].kids && all[i].kids[e.radix] == e.idx;
    h', g' := Absorb(h, i, e, g, all);
  }

  lemma LiveNode(h: Heap, g: Layout, all: Grove, i: Idx)
    requires HeapOk(h, g, all)
    ensures i in h.nodes <==> i in all
  {
    hide ArenaOk;
  }

  method Absorb(h: Heap, i: Idx, e: Edge, ghost g: Layout, ghost all: Grove) returns (h': Heap, ghost g': Layout)
    requires HeapOk(h, g, all) && i in all && SingleChild(h, i) == Some(e)
    requires all[i].kids == map[e.radix := e.idx] && e.idx in all && e.idx != i
    ensures HeapOk(h', g', Merge(all, i, e.radix)) && h' == AbsorbHeap(h, i)
  {
    hide ArenaOk, NodesOk, SlotsOwned, Lists, Joins;
    var c, r := e.idx, e.radix;
    KnowNode(h, g, all, i);
    KnowNode(h, g, all, c);
    var node, child := h.nodes[i], h.nodes[c];
    var bare := Node(child.comp, [], child.val, child.exp, None);
    var merged := Node(node.comp + [r] + child.comp, child.childs, child.val, child.exp, child.overflow);
    ghost var sa := all[c].(kids := map[]);
    ghost var sb := all[i].(comp := all[i].comp + [r] + all[c].comp, val := all[c].val, exp := all[c].exp, kids := all[c].kids);
    MoveBody(h, g, all, c, i, bare, merged, sa, sb);
    var h1 := Heap(h.nodes[c := bare][i := merged], h.arena);
    ghost var g1 := Layout(g.view, g.inl[c := map[]][i := g.inl[c]], Rehome(child, i, g.owner));
    ghost var all1 := all[c := sa][i := sb];
    DropBare(h1, g1, all1, c);
    h' := Heap(h1.nodes - {c}, h.arena);
    g' := Layout(g1.view, g1.inl - {c}, g1.owner);
    Relabel(h', g', all1 - {c}, Merge(all, i, r));
  }

  lemma DropBare(h: Heap, g: Layout, all: Grove, c: Idx)
    requires HeapOk(h, g, all) && c in all && c in h.nodes && h.nodes[c].overflow.None?
    ensures HeapOk(Heap(h.nodes - {c}, h.arena), Layout(g.view, g.inl - {c}, g.owner), all - {c})
  {
    hide ArenaOk, HeapOk, NodeOk;
    KnowNode(h, g, all, c);
    SameOwners(g, {c});
    DropNode(h, g, all, h.arena, g.view, c, g.owner);
  }
}
