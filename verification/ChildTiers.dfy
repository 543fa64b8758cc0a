/** The three child tiers: six inline edges in the node, ten light edges in an
 *  overflow slot, and a huge table behind the slot. */
module ChildTiers {
  import opened Basics
  import FreeList
  import opened SlotVec

  const CHILDS_SIZE: nat := 6
  const LIGHT_OVERFLOW_SIZE: nat := 10
  const HUGE_OVERFLOW_CAPACITY: nat := 121

  datatype Edge = Edge(radix: Byte, idx: Idx)
  type Table = map<Byte, Idx>

  function With(t: Table, r: Byte, i: Idx): Table {
    t[r := i]
  }

  // ---- Edge lists ------------------------------------------------------------

  ghost predicate HasRadix(es: seq<Edge>, r: Byte) {
    exists k :: 0 <= k < |es| && es[k].radix == r
  }

  /** Where a radix occurs. */
  ghost function PosOf(es: seq<Edge>, r: Byte): (k: nat)
    requires HasRadix(es, r)
    ensures k < |es| && es[k].radix == r
  {
    var k :| 0 <= k < |es| && es[k].radix == r;
    k
  }

  /** The edge list picks some entries of the finite map `t`, none twice. */
  ghost predicate Picks(es: seq<Edge>, t: Table) {
    forall k :: 0 <= k < |es| ==> PosOf(es, es[k].radix) == k && es[k].radix in t && t[es[k].radix] == es[k].idx
  }

  /** The edge list stands for the finite map `t`: it picks every entry. */
  ghost predicate Lists(es: seq<Edge>, t: Table) {
    Picks(es, t) && forall r :: r in t ==> HasRadix(es, r)
  }

  lemma PicksIntro(es: seq<Edge>, t: Table)
    requires forall i, j :: 0 <= i < j < |es| ==> es[i].radix != es[j].radix
    requires forall k :: 0 <= k < |es| ==> es[k].radix in t && t[es[k].radix] == es[k].idx
    ensures Picks(es, t)
  {
    forall k | 0 <= k < |es| ensures PosOf(es, es[k].radix) == k {
      var j := PosOf(es, es[k].radix);
      assert es[j].radix == es[k].radix;
    }
  }

  lemma ListsIntro(es: seq<Edge>, t: Table)
    requires forall i, j :: 0 <= i < j < |es| ==> es[i].radix != es[j].radix
    requires forall k :: 0 <= k < |es| ==> es[k].radix in t && t[es[k].radix] == es[k].idx
    requires forall r :: r in t ==> HasRadix(es, r)
    ensures Lists(es, t)
  {
    PicksIntro(es, t);
  }

  lemma ListsDistinct(es: seq<Edge>, t: Table, i: nat, j: nat)
    requires Picks(es, t) && i < |es| && j < |es| && i != j
    ensures es[i].radix != es[j].radix
  {
    assert PosOf(es, es[i].radix) == i && PosOf(es, es[j].radix) == j;
  }

  /** Which old position lands at new position `i` after an insertion at `n`. */
  function Shift(i: nat, n: nat): nat {
    if i <= n then i else i - 1
  }

  /** A new edge between two stretches of the list. */
  lemma InsertLists(a: seq<Edge>, e: Edge, b: seq<Edge>, t: Table)
    requires Lists(a + b, t) && e.radix !in t
    ensures Lists(a + [e] + b, With(t, e.radix, e.idx))
  {
    var es, es', n := a + b, a + [e] + b, |a|;
    assert es'[n] == e;
    forall i | 0 <= i < |es'| && i != n ensures es'[i] == es[Shift(i, n)] { }
    InsertAt(es, es', n, t);
  }

  lemma InsertAt(es: seq<Edge>, es': seq<Edge>, n: nat, t: Table)
    requires Lists(es, t) && |es'| == |es| + 1 && n < |es'| && es'[n].radix !in t
    requires forall i :: 0 <= i < |es'| && i != n ==> es'[i] == es[Shift(i, n)]
    ensures Lists(es', With(t, es'[n].radix, es'[n].idx))
  {
    var t' := With(t, es'[n].radix, es'[n].idx);
    forall i | 0 <= i < |es'| && i != n ensures es'[i].radix in t && t[es'[i].radix] == es'[i].idx {
      assert es[Shift(i, n)].radix in t;
    }
    forall i, j | 0 <= i < j < |es'| ensures es'[i].radix != es'[j].radix {
      if i != n && j != n { ListsDistinct(es, t, Shift(i, n), Shift(j, n)); }
    }
    forall r | r in t' && r != es'[n].radix ensures HasRadix(es', r) {
      var k := PosOf(es, r);
      assert es'[if k < n then k else k + 1].radix == r;
    }
    assert HasRadix(es', es'[n].radix);
    ListsIntro(es', t');
  }

  /** Removal by overwriting position `k` with the last edge. */
  function SwapRemove(es: seq<Edge>, k: nat): seq<Edge>
    requires k < |es|
  {
    es[k := Last(es)][..|es| - 1]
  }

  /** Swap-removal inside one stretch `m` of a longer list. */
  lemma SwapRemoveLists(a: seq<Edge>, m: seq<Edge>, b: seq<Edge>, t: Table, k: nat)
    requires Lists(a + m + b, t) && k < |m|
    ensures m[k].radix in t && Lists(a + SwapRemove(m, k) + b, t - {m[k].radix})
  {
    var es, es' := a + m + b, a + SwapRemove(m, k) + b;
    var p, q, x := |a| + k, |a| + |m| - 1, m[k].radix;
    assert es[p].radix == x;
    assert forall i :: 0 <= i < |es'| ==> es'[i] == es[Source(i, p, q)];
    forall i, j | 0 <= i < j < |es'| ensures es'[i].radix != es'[j].radix {
      ListsDistinct(es, t, Source(i, p, q), Source(j, p, q));
    }
    var t' := t - {x};
    forall i | 0 <= i < |es'| ensures es'[i].radix in t' && t'[es'[i].radix] == es'[i].idx {
      ListsDistinct(es, t, Source(i, p, q), p);
      assert es[Source(i, p, q)].radix in t;
    }
    forall r | r in t' ensures HasRadix(es', r) {
      var j := PosOf(es, r);
      assert j != p;
      assert es'[if j == q then p else if j < q then j else j - 1].radix == r;
    }
    ListsIntro(es', t');
  }

  /** Which old position lands at new position `i` when `q` moves into `p`. */
  function Source(i: nat, p: nat, q: nat): nat {
    if i == p && p < q then q else if i < q then i else i + 1
  }

  lemma {:induction false} ListsSize(es: seq<Edge>, t: Table)
    requires Lists(es, t)
    ensures |t| == |es|
    decreases |es|
  {
    if es == [] {
      assert t == map[];
    } else {
      var n := |es| - 1;
      assert [] + es + [] == es;
      SwapRemoveLists([], es, [], t, n);
      assert [] + SwapRemove(es, n) + [] == SwapRemove(es, n);
      ListsSize(SwapRemove(es, n), t - {es[n].radix});
      assert (t - {es[n].radix}).Keys == t.Keys - {es[n].radix};
    }
  }

  /** Linear search by radix. */
  method FindEdge(es: seq<Edge>, r: Byte) returns (pos: Option<nat>)
    ensures pos.Some? ==> pos.value < |es| && es[pos.value].radix == r
    ensures pos.None? ==> !HasRadix(es, r)
  {
    for i := 0 to |es|
      invariant forall j :: 0 <= j < i ==> es[j].radix != r
    {
      if es[i].radix == r {
        return Some(i);
      }
    }
    return None;
  }

  // ---- The overflow arena -------------------------------------------------------

  datatype Overflow = Overflow(light: seq<Edge>, big: Option<nat>)

  type Huge = map<nat, seq<Edge>>

  datatype Arena = Arena(vec: Vec<Overflow>, huge: Huge)

  ghost function BigPart(o: Overflow, huge: Huge): seq<Edge> {
    if o.big.Some? && o.big.value in huge then huge[o.big.value] else []
  }

  ghost predicate OverflowOk(o: Overflow, huge: Huge, t: Table) {
    && |o.light| <= LIGHT_OVERFLOW_SIZE
    && (o.big.Some? ==> o.big.value in huge && 0 < |huge[o.big.value]| <= HUGE_OVERFLOW_CAPACITY)
    && Lists(o.light + BigPart(o, huge), t)
  }

  /** Every occupied slot stores its table. */
  ghost predicate TablesOk(items: map<nat, Overflow>, huge: Huge, tables: map<nat, Table>) {
    && items.Keys == tables.Keys
    && (forall s {:trigger OverflowOk(items[s], huge, tables[s])} :: s in tables ==> OverflowOk(items[s], huge, tables[s]))
  }

  /** Each huge table belongs to exactly one slot. */
  ghost predicate OwnersOk(items: map<nat, Overflow>, huge: Huge, own: map<nat, nat>) {
    && huge.Keys == own.Keys
    && (forall h {:trigger own[h]} :: h in own ==> own[h] in items && items[own[h]].big == Some(h))
    && (forall s {:trigger items[s].big.value} :: s in items && items[s].big.Some? ==> items[s].big.value in own && own[items[s].big.value] == s)
  }

  /** What the arena means: the table behind each occupied slot, together with
   *  the free-list thread and the owner of each huge table. */
  datatype View = View(thread: Thread, items: map<nat, Overflow>, own: map<nat, nat>, tables: map<nat, Table>)

  ghost predicate ArenaOk(a: Arena, g: View) {
    && Holds(a.vec, g.thread, g.items)
    && TablesOk(g.items, a.huge, g.tables)
    && OwnersOk(g.items, a.huge, g.own)
  }

  /** Only the huge table of slot `s` may differ. */
  ghost predicate OnlySlot(huge: Huge, own: map<nat, nat>, huge': Huge, own': map<nat, nat>, s: nat) {
    && huge.Keys == own.Keys && huge'.Keys == own'.Keys
    && (forall h {:trigger own[h]} {:trigger own'[h]} :: h in own && own[h] != s ==> h in own' && huge'[h] == huge[h] && own'[h] == own[h])
    && (forall h {:trigger own'[h]} :: h in own' && own'[h] != s ==> h in own && own[h] == own'[h])
  }

  ghost predicate OwnSlot(own: map<nat, nat>, s: nat, o: Overflow) {
    && (forall h {:trigger own[h]} :: h in own && own[h] == s ==> o.big == Some(h))
    && (o.big.Some? ==> o.big.value in own && own[o.big.value] == s)
  }

  lemma TablesChange(items: map<nat, Overflow>, huge: Huge, own: map<nat, nat>, tables: map<nat, Table>,
                     s: nat, o: Overflow, huge': Huge, own': map<nat, nat>, t: Table)
    requires TablesOk(items, huge, tables) && OwnersOk(items, huge, own) && s in tables && OverflowOk(o, huge', t)
    requires OnlySlot(huge, own, huge', own', s)
    ensures TablesOk(items[s := o], huge', tables[s := t])
  {
    forall q | q in tables && q != s ensures OverflowOk(items[q], huge', tables[q]) {
      assert OverflowOk(items[q], huge, tables[q]);
      if items[q].big.Some? { assert own[items[q].big.value] == q; }
      BigPartKept(items[q], huge, huge', tables[q]);
    }
  }

  lemma OwnersChange(items: map<nat, Overflow>, huge: Huge, own: map<nat, nat>, s: nat, o: Overflow, huge': Huge, own': map<nat, nat>)
    requires OwnersOk(items, huge, own) && s in items && OnlySlot(huge, own, huge', own', s) && OwnSlot(own', s, o)
    ensures OwnersOk(items[s := o], huge', own')
  {
  }

  lemma BigPartKept(o: Overflow, huge: Huge, huge': Huge, t: Table)
    requires OverflowOk(o, huge, t) && (o.big.Some? ==> o.big.value in huge' && huge'[o.big.value] == huge[o.big.value])
    ensures OverflowOk(o, huge', t)
  {
    assert BigPart(o, huge) == BigPart(o, huge');
  }

  /** A new slot appears, empty. */
  lemma SlotAdd(items: map<nat, Overflow>, huge: Huge, own: map<nat, nat>, tables: map<nat, Table>, s: nat)
    requires TablesOk(items, huge, tables) && OwnersOk(items, huge, own) && s !in tables
    ensures TablesOk(items[s := Overflow([], None)], huge, tables[s := map[]])
    ensures OwnersOk(items[s := Overflow([], None)], huge, own)
  {
    assert OverflowOk(Overflow([], None), huge, map[]);
  }

  /** A slot disappears together with its huge table. */
  lemma SlotDrop(items: map<nat, Overflow>, huge: Huge, own: map<nat, nat>, tables: map<nat, Table>, s: nat, gone: set<nat>)
    requires TablesOk(items, huge, tables) && OwnersOk(items, huge, own) && s in tables
    requires gone == if items[s].big.Some? then {items[s].big.value} else {}
    ensures TablesOk(items - {s}, huge - gone, tables - {s})
    ensures OwnersOk(items - {s}, huge - gone, own - gone)
  {
    forall q | q in tables && q != s ensures OverflowOk(items[q], huge - gone, tables[q]) {
      assert OverflowOk(items[q], huge, tables[q]);
      if items[q].big.Some? { assert own[items[q].big.value] == q; }
      if items[s].big.Some? { assert own[items[s].big.value] == s; }
      BigPartKept(items[q], huge, huge - gone, tables[q]);
    }
  }

  lemma PushLight(o: Overflow, huge: Huge, t: Table, e: Edge)
    requires OverflowOk(o, huge, t) && e.radix !in t && |o.light| < LIGHT_OVERFLOW_SIZE
    ensures OverflowOk(o.(light := o.light + [e]), huge, With(t, e.radix, e.idx))
  {
    InsertLists(o.light, e, BigPart(o, huge), t);
    assert BigPart(o.(light := o.light + [e]), huge) == BigPart(o, huge);
  }

  lemma PushHuge(o: Overflow, huge: Huge, t: Table, e: Edge)
    requires OverflowOk(o, huge, t) && e.radix !in t && o.big.Some? && |huge[o.big.value]| < HUGE_OVERFLOW_CAPACITY
    ensures OverflowOk(o, huge[o.big.value := huge[o.big.value] + [e]], With(t, e.radix, e.idx))
  {
    var es := huge[o.big.value];
    assert o.light + es + [] == o.light + es;
    InsertLists(o.light + es, e, [], t);
    assert o.light + es + [e] + [] == o.light + (es + [e]);
  }

  lemma StartHuge(o: Overflow, huge: Huge, t: Table, h: nat, e: Edge)
    requires OverflowOk(o, huge, t) && e.radix !in t && o.big.None?
    ensures OverflowOk(o.(big := Some(h)), huge[h := [e]], With(t, e.radix, e.idx))
  {
    assert o.light + [] == o.light;
    InsertLists(o.light, e, [], t);
    assert o.light + [e] + [] == o.light + [e];
  }

  lemma RemoveLight(o: Overflow, huge: Huge, t: Table, k: nat)
    requires OverflowOk(o, huge, t) && k < |o.light|
    ensures o.light[k].radix in t && t[o.light[k].radix] == o.light[k].idx
    ensures OverflowOk(o.(light := SwapRemove(o.light, k)), huge, t - {o.light[k].radix})
  {
    RemoveFront(o.light, BigPart(o, huge), t, k);
    assert BigPart(o.(light := SwapRemove(o.light, k)), huge) == BigPart(o, huge);
  }

  lemma RemoveFront(m: seq<Edge>, b: seq<Edge>, t: Table, k: nat)
    requires Lists(m + b, t) && k < |m|
    ensures m[k].radix in t && t[m[k].radix] == m[k].idx && Lists(SwapRemove(m, k) + b, t - {m[k].radix})
  {
    assert (m + b)[k] == m[k];
    assert [] + m == m && [] + SwapRemove(m, k) == SwapRemove(m, k);
    SwapRemoveLists([], m, b, t, k);
  }

  lemma RemoveHugeAt(o: Overflow, huge: Huge, t: Table, k: nat)
    requires OverflowOk(o, huge, t) && o.big.Some? && k < |huge[o.big.value]|
    ensures var h, es := o.big.value, huge[o.big.value];
            && es[k].radix in t && t[es[k].radix] == es[k].idx
            && (|es| == 1 ==> OverflowOk(o.(big := None), huge - {h}, t - {es[k].radix}))
            && (|es| > 1 ==> OverflowOk(o, huge[h := SwapRemove(es, k)], t - {es[k].radix}))
  {
    var es := huge[o.big.value];
    assert o.light + es + [] == o.light + es;
    assert (o.light + es)[|o.light| + k] == es[k];
    SwapRemoveLists(o.light, es, [], t, k);
    assert o.light + SwapRemove(es, k) + [] == o.light + SwapRemove(es, k);
    if |es| == 1 { assert SwapRemove(es, k) == []; }
  }

  lemma HugeRoom(o: Overflow, huge: Huge, t: Table)
    requires OverflowOk(o, huge, t) && o.big.Some? && |o.light| == 10
    requires |t| < 131
    ensures |huge[o.big.value]| < 121
  {
    ListsSize(o.light + BigPart(o, huge), t);
  }

  method NewSlot(a: Arena, ghost g: View) returns (a': Arena, s: nat, ghost g': View)
    requires ArenaOk(a, g)
    ensures s !in g.tables && ArenaOk(a', g') && g'.tables == g.tables[s := map[]]
  {
    var vec;
    ghost var th;
    vec, s, th := Alloc(a.vec, Overflow([], None), g.thread, g.items);
    SlotAdd(g.items, a.huge, g.own, g.tables, s);
    a' := a.(vec := vec);
    g' := View(th, g.items[s := Overflow([], None)], g.own, g.tables[s := map[]]);
  }

  /** Also drops the slot's huge table, if it has one. */
  method FreeSlot(a: Arena, s: nat, ghost g: View) returns (a': Arena, ghost g': View)
    requires ArenaOk(a, g) && s in g.tables
    ensures ArenaOk(a', g') && g'.tables == g.tables - {s}
  {
    var o := Occupant(a, s, g);
    var gone := if o.big.Some? then {o.big.value} else {};
    SlotDrop(g.items, a.huge, g.own, g.tables, s, gone);
    var vec;
    ghost var th;
    vec, th := Free(a.vec, s, g.thread, g.items);
    a' := Arena(vec, a.huge - gone);
    g' := View(th, g.items - {s}, g.own - gone, g.tables - {s});
  }

  method Occupant(a: Arena, s: nat, ghost g: View) returns (o: Overflow)
    requires ArenaOk(a, g) && s in g.tables
    ensures o == g.items[s] && OverflowOk(o, a.huge, g.tables[s])
  {
    assert OverflowOk(g.items[s], a.huge, g.tables[s]);
    var x := Get(a.vec, s, g.thread, g.items);
    o := x.value;
  }

  method FindInSlot(a: Arena, s: nat, r: Byte, ghost g: View) returns (res: Option<Idx>)
    requires ArenaOk(a, g) && s in g.tables
    ensures res == if r in g.tables[s] then Some(g.tables[s][r]) else None
  {
    var o := Occupant(a, s, g);
    ghost var all := o.light + BigPart(o, a.huge);
    var pos := FindEdge(o.light, r);
    if pos.Some? {
      assert all[pos.value] == o.light[pos.value];
      return Some(o.light[pos.value].idx);
    }
    if o.big.Some? {
      var es := a.huge[o.big.value];
      pos := FindEdge(es, r);
      if pos.Some? {
        assert all[|o.light| + pos.value] == es[pos.value];
        return Some(es[pos.value].idx);
      }
    }
    NotInParts(o.light, BigPart(o, a.huge), r);
    return None;
  }

  /** Overwrite slot `s` and its entry in the huge slab. */
  method ChangeSlot(a: Arena, s: nat, o: Overflow, huge: Huge, ghost g: View, ghost own: map<nat, nat>, ghost t: Table)
    returns (a': Arena, ghost g': View)
    requires ArenaOk(a, g) && s in g.tables && OverflowOk(o, huge, t)
    requires OnlySlot(a.huge, g.own, huge, own, s) && OwnSlot(own, s, o)
    ensures ArenaOk(a', g') && g'.tables == g.tables[s := t] && a'.huge == huge && g'.items == g.items[s := o]
  {
    TablesChange(g.items, a.huge, g.own, g.tables, s, o, huge, own, t);
    OwnersChange(g.items, a.huge, g.own, s, o, huge, own);
    var vec := Put(a.vec, s, o, g.thread, g.items);
    a' := Arena(vec, huge);
    g' := View(g.thread, g.items[s := o], own, g.tables[s := t]);
  }

  /** The capacity clause is the bound of the fixed-capacity huge table. */
  method PushToSlot(a: Arena, s: nat, r: Byte, idx: Idx, ghost g: View) returns (a': Arena, ghost g': View)
    requires ArenaOk(a, g) && s in g.tables && r !in g.tables[s]
    requires |g.tables[s]| < 131
    ensures ArenaOk(a', g') && g'.tables == g.tables[s := With(g.tables[s], r, idx)]
    ensures var o := g.items[s];
            && (|o.light| < 10 ==> a'.huge == a.huge && g'.items[s].light == o.light + [Edge(r, idx)])
            && (|o.light| == 10 && o.big.Some? ==> a'.huge == a.huge[o.big.value := a.huge[o.big.value] + [Edge(r, idx)]])
            && (|o.light| == 10 && o.big.None? ==>
                  g'.items[s].big.Some? && g'.items[s].big.value !in a.huge && a'.huge == a.huge[g'.items[s].big.value := [Edge(r, idx)]])
  {
    var o := Occupant(a, s, g);
    var e := Edge(r, idx);
    ghost var t := With(g.tables[s], r, idx);
    if |o.light| < LIGHT_OVERFLOW_SIZE {
      PushLight(o, a.huge, g.tables[s], e);
      a', g' := ChangeSlot(a, s, o.(light := o.light + [e]), a.huge, g, g.own, t);
    } else if o.big.Some? {
      var h := o.big.value;
      HugeRoom(o, a.huge, g.tables[s]);
      PushHuge(o, a.huge, g.tables[s], e);
      a', g' := ChangeSlot(a, s, o, a.huge[h := a.huge[h] + [e]], g, g.own, t);
    } else {
      FreshIdx(a.huge.Keys);
      var h: nat :| h !in a.huge.Keys;
      StartHuge(o, a.huge, g.tables[s], h, e);
      a', g' := ChangeSlot(a, s, o.(big := Some(h)), a.huge[h := [e]], g, g.own[h := s], t);
    }
  }

  method RemoveFromSlot(a: Arena, s: nat, r: Byte, ghost g: View) returns (a': Arena, res: Option<Idx>, ghost g': View)
    requires ArenaOk(a, g) && s in g.tables
    ensures ArenaOk(a', g') && g'.tables == g.tables[s := g.tables[s] - {r}]
    ensures res == if r in g.tables[s] then Some(g.tables[s][r]) else None
  {
    var o := Occupant(a, s, g);
    ghost var t := g.tables[s] - {r};
    var pos := FindEdge(o.light, r);
    if pos.Some? {
      RemoveLight(o, a.huge, g.tables[s], pos.value);
      res := Some(o.light[pos.value].idx);
      a', g' := ChangeSlot(a, s, o.(light := SwapRemove(o.light, pos.value)), a.huge, g, g.own, t);
      return;
    }
    if o.big.Some? {
      var h, es := o.big.value, a.huge[o.big.value];
      pos := FindEdge(es, r);
      if pos.Some? {
        RemoveHugeAt(o, a.huge, g.tables[s], pos.value);
        res := Some(es[pos.value].idx);
        if |es| == 1 {
          a', g' := ChangeSlot(a, s, o.(big := None), a.huge - {h}, g, g.own - {h}, t);
        } else {
          a', g' := ChangeSlot(a, s, o, a.huge[h := SwapRemove(es, pos.value)], g, g.own, t);
        }
        return;
      }
    }
    NotInParts(o.light, BigPart(o, a.huge), r);
    assert t == g.tables[s] && g.tables[s := t] == g.tables;
    a', res, g' := a, None, g;
  }

  method SlotIsEmpty(a: Arena, s: nat, ghost g: View) returns (b: bool)
    requires ArenaOk(a, g) && s in g.tables
    ensures b <==> g.tables[s] == map[]
  {
    var o := Occupant(a, s, g);
    b := o.light == [] && o.big.None?;
    ListsSize(o.light + BigPart(o, a.huge), g.tables[s]);
  }

  /** The edges of a slot: light ones first, then huge ones. */
  function EdgesOfSlot(a: Arena, s: nat): seq<Edge> {
    if s >= |a.vec.slots| || !a.vec.slots[s].Item? then []
    else
      var o := a.vec.slots[s].item;
      o.light + if o.big.Some? && o.big.value in a.huge then a.huge[o.big.value] else []
  }

  lemma SlotListed(a: Arena, g: View, s: nat)
    requires ArenaOk(a, g) && s in g.tables
    ensures Lists(EdgesOfSlot(a, s), g.tables[s])
  {
    hide Lists;
    LaidAt(a.vec.slots, g.thread.link, g.items, s);
    assert OverflowOk(g.items[s], a.huge, g.tables[s]);
  }

  method IterSlot(a: Arena, s: nat, ghost g: View) returns (es: seq<Edge>)
    requires ArenaOk(a, g) && s in g.tables
    ensures Lists(es, g.tables[s]) && es == EdgesOfSlot(a, s)
  {
    var o := Occupant(a, s, g);
    LaidAt(a.vec.slots, g.thread.link, g.items, s);
    es := o.light + if o.big.Some? then a.huge[o.big.value] else [];
  }

  lemma NotInParts(a: seq<Edge>, b: seq<Edge>, r: Byte)
    requires !HasRadix(a, r) && !HasRadix(b, r)
    ensures !HasRadix(a + b, r)
  {
    forall k | 0 <= k < |a + b| ensures (a + b)[k].radix != r {
      assert (a + b)[k] == if k < |a| then a[k] else b[k - |a|];
    }
  }

  // ---- The tiers together --------------------------------------------------------

  ghost function AllBytes(n: nat): set<Byte>
    requires n < 128
  {
    if n == 0 then {} else AllBytes(n - 1) + {n}
  }

  lemma {:induction false} ByteCount(n: nat)
    requires n < 128
    ensures |AllBytes(n)| == n && forall b: Byte :: b in AllBytes(n) <==> b <= n
  {
    if n != 0 {
      ByteCount(n - 1);
      assert n !in AllBytes(n - 1);
    }
  }

  /** At most 127 radixes exist, so a table lacking one has at most 126. */
  lemma TableRoom(t: Table, r: Byte)
    requires r !in t
    ensures |t| <= 126
  {
    hide AllBytes;
    ByteCount(127);
    assert t.Keys + {r} <= AllBytes(127);
    Subset(t.Keys + {r}, AllBytes(127));
  }

  lemma {:induction false} Subset<T>(a: set<T>, b: set<T>)
    requires a <= b
    ensures |a| <= |b|
    decreases |a|
  {
    if x :| x in a {
      Subset(a - {x}, b - {x});
    }
  }
}
