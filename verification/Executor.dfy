/** Every run of the store: commands of many clients and the chunks of their
 *  pending `deln_async` calls, in any order, against a plain map. */
module Executor {
  import opened Basics
  import opened Forest
  import opened Heap
  import opened Art
  import opened Scan
  import opened Roots
  import ChildTiers

  /** A `deln_async` between two polls. */
  datatype Task = Task(stack: seq<Idx>, parent: Idx, total: nat, done: bool)

  datatype World = World(heap: Heap, root: Idx, now: nat, tasks: seq<Task>)

  /** What the world stands for: the trunk, the nodes each task has still to
   *  free, the task each severed node belongs to, and the promised counts. */
  datatype Shadow = Shadow(trunk: Trunk, mines: seq<Grove>, who: map<Idx, nat>, promised: seq<nat>)

  ghost predicate TaskOk(k: Task, mine: Grove, promised: nat) {
    && Pending(mine, k.stack)
    && k.total + |Valued(mine)| == promised
    && (k.done ==> k.stack == [])
  }

  /** Every severed node belongs to a task. */
  ghost predicate Homes(mines: seq<Grove>, who: map<Idx, nat>) {
    forall i {:trigger who[i]} {:trigger i in who} :: i in who ==> who[i] < |mines| && i in mines[who[i]]
  }

  ghost predicate OwnedBy(mine: Grove, who: map<Idx, nat>, loose: Grove, a: nat) {
    forall i :: i in mine ==> i in who && who[i] == a && i in loose && mine[i] == loose[i]
  }

  /** Every severed node belongs to exactly one task. */
  ghost predicate Shared(mines: seq<Grove>, who: map<Idx, nat>, loose: Grove) {
    && who.Keys == loose.Keys && Homes(mines, who)
    && (forall a {:trigger mines[a]} :: 0 <= a < |mines| ==> OwnedBy(mines[a], who, loose, a))
  }

  ghost predicate WorldOk(w: World, s: Shadow) {
    && ArtOk(w.heap, w.root, s.trunk)
    && |s.mines| == |w.tasks| && |s.promised| == |w.tasks|
    && Shared(s.mines, s.who, s.trunk.loose)
    && (forall a {:trigger w.tasks[a]} :: 0 <= a < |w.tasks| ==> TaskOk(w.tasks[a], s.mines[a], s.promised[a]))
  }

  lemma TaskPart(mines: seq<Grove>, who: map<Idx, nat>, loose: Grove, a: nat)
    requires Shared(mines, who, loose) && a < |mines|
    ensures PartOf(mines[a], loose) && OwnedBy(mines[a], who, loose, a)
  {
    assert OwnedBy(mines[a], who, loose, a);
  }

  /** Task `a` changed or gave up some of its nodes; the others kept theirs. */
  lemma SharedChange(mines: seq<Grove>, who: map<Idx, nat>, loose: Grove, a: nat, mine': Grove, loose': Grove)
    requires Shared(mines, who, loose) && a < |mines| && mine'.Keys <= mines[a].Keys
    requires loose'.Keys == loose.Keys - (mines[a].Keys - mine'.Keys)
    requires forall i :: i in mine' ==> loose'[i] == mine'[i]
    requires forall i :: i in loose && i !in mines[a] ==> loose'[i] == loose[i]
    ensures Shared(mines[a := mine'], who - (mines[a].Keys - mine'.Keys), loose')
  {
    hide OwnedBy, Homes;
    var who' := who - (mines[a].Keys - mine'.Keys);
    TaskPart(mines, who, loose, a);
    HomesKept(mines, who, a, mine');
    KeptOwn(mines[a], mine', who, loose, loose', a);
    forall b | 0 <= b < |mines| && b != a ensures OwnedBy(mines[b], who', loose', b) {
      TaskPart(mines, who, loose, b);
      KeptOther(mines[a], mine', mines[b], who, loose, loose', a, b);
    }
  }

  lemma HomesKept(mines: seq<Grove>, who: map<Idx, nat>, a: nat, mine': Grove)
    requires Homes(mines, who) && a < |mines| && mine'.Keys <= mines[a].Keys
    ensures Homes(mines[a := mine'], who - (mines[a].Keys - mine'.Keys))
  {
    var mines', who' := mines[a := mine'], who - (mines[a].Keys - mine'.Keys);
    forall i | i in who' ensures who'[i] < |mines'| && i in mines'[who'[i]] { assert who[i] < |mines|; }
  }

  lemma KeptOwn(mine: Grove, mine': Grove, who: map<Idx, nat>, loose: Grove, loose': Grove, a: nat)
    requires OwnedBy(mine, who, loose, a) && mine'.Keys <= mine.Keys && loose'.Keys == loose.Keys - (mine.Keys - mine'.Keys)
    requires forall i :: i in mine' ==> loose'[i] == mine'[i]
    ensures OwnedBy(mine', who - (mine.Keys - mine'.Keys), loose', a)
  {
  }

  lemma KeptOther(mine: Grove, mine': Grove, other: Grove, who: map<Idx, nat>, loose: Grove, loose': Grove, a: nat, b: nat)
    requires a != b && OwnedBy(mine, who, loose, a) && OwnedBy(other, who, loose, b)
    requires loose'.Keys == loose.Keys - (mine.Keys - mine'.Keys)
    requires forall i :: i in loose && i !in mine ==> loose'[i] == loose[i]
    ensures OwnedBy(other, who - (mine.Keys - mine'.Keys), loose', b)
  {
  }

  /** A new task took over freshly severed nodes. */
  lemma SharedGrow(mines: seq<Grove>, who: map<Idx, nat>, loose: Grove, mine: Grove)
    requires Shared(mines, who, loose) && mine.Keys !! loose.Keys
    ensures Shared(mines + [mine], who + Assigned(mine, |mines|), loose + mine)
  {
    hide OwnedBy, Homes;
    var mines', who', loose' := mines + [mine], who + Assigned(mine, |mines|), loose + mine;
    HomesMore(mines, who, mine);
    NewOwned(mine, who, loose, |mines|);
    forall b | 0 <= b < |mines'| ensures OwnedBy(mines'[b], who', loose', b) {
      if b < |mines| {
        TaskPart(mines, who, loose, b);
        OldOwned(mines[b], mine, who, loose, |mines|, b);
        assert mines'[b] == mines[b];
      }
    }
  }

  ghost function Assigned(mine: Grove, n: nat): map<Idx, nat> {
    map i | i in mine :: n
  }

  lemma HomesMore(mines: seq<Grove>, who: map<Idx, nat>, mine: Grove)
    requires Homes(mines, who)
    ensures Homes(mines + [mine], who + Assigned(mine, |mines|))
  {
    var mines', who' := mines + [mine], who + Assigned(mine, |mines|);
    forall i | i in who' ensures who'[i] < |mines'| && i in mines'[who'[i]] {
      if i in mine { assert who'[i] == |mines| && mines'[|mines|] == mine; } else { assert who[i] < |mines|; }
    }
  }

  lemma NewOwned(mine: Grove, who: map<Idx, nat>, loose: Grove, n: nat)
    ensures OwnedBy(mine, who + Assigned(mine, n), loose + mine, n)
  {
  }

  lemma OldOwned(other: Grove, mine: Grove, who: map<Idx, nat>, loose: Grove, n: nat, b: nat)
    requires OwnedBy(other, who, loose, b) && mine.Keys !! loose.Keys
    ensures OwnedBy(other, who + Assigned(mine, n), loose + mine, b)
  {
  }

  /** Merging in a part of a grove is merging in the whole. */
  lemma MergeInPart(mine: Grove, loose: Grove, tops: set<Idx>, i: Idx, r: Byte)
    requires PartOf(mine, loose) && Linked(mine, tops) && i in mine && mine[i].kids.Keys == {r}
    ensures mine[i].kids[r] in mine && r in loose[i].kids && loose[i].kids[r] in loose
    ensures Merge(mine, i, r).Keys == mine.Keys - {mine[i].kids[r]} && Merge(loose, i, r).Keys == loose.Keys - {mine[i].kids[r]}
    ensures forall j :: j in Merge(mine, i, r) ==> Merge(loose, i, r)[j] == Merge(mine, i, r)[j]
    ensures forall j :: j in loose && j !in mine ==> Merge(loose, i, r)[j] == loose[j]
  {
    MergeSpots(mine, tops, i, r);
    var c := mine[i].kids[r];
    forall j | j in mine[c].kids.Values ensures j in mine {
      var q :| q in mine[c].kids && mine[c].kids[q] == j;
      assert EdgeOk(mine, tops, c, q);
    }
  }

  /** A recompression inside the nodes of task `a`. */
  lemma SharedMerge(mines: seq<Grove>, who: map<Idx, nat>, loose: Grove, a: nat, tops: set<Idx>, i: Idx, r: Byte)
    requires Shared(mines, who, loose) && a < |mines| && i in mines[a] && Linked(mines[a], tops) && mines[a][i].kids.Keys == {r}
    ensures mines[a][i].kids[r] in mines[a] && i in loose && r in loose[i].kids && loose[i].kids[r] in loose
    ensures Shared(mines[a := Merge(mines[a], i, r)], who - {mines[a][i].kids[r]}, Merge(loose, i, r))
  {
    hide Shared, Merge;
    TaskPart(mines, who, loose, a);
    MergeInPart(mines[a], loose, tops, i, r);
    assert mines[a].Keys - Merge(mines[a], i, r).Keys == {mines[a][i].kids[r]};
    SharedChange(mines, who, loose, a, Merge(mines[a], i, r), Merge(loose, i, r));
  }

  // ---- Steps of a pending deletion -------------------------------------------------------

  ghost function Freed(s: Shadow, a: nat, t: Trunk, mine: Grove): Shadow
    requires a < |s.mines|
  {
    s.(trunk := t, mines := s.mines[a := mine], who := s.who - (s.mines[a].Keys - mine.Keys))
  }

  /** How many of `n` severed nodes one poll leaves. */
  function AfterPoll(n: nat): nat {
    if n > YIELD_BUDGET then n - YIELD_BUDGET else 0
  }

  /** One poll of task `a`: free a chunk; when nothing is left, recompress the
   *  saved parent, whatever has become of it, and finish. */
  method StepTask(w: World, a: nat, ghost s: Shadow) returns (w': World, ghost s': Shadow)
    requires WorldOk(w, s) && a < |w.tasks| && !w.tasks[a].done
    ensures WorldOk(w', s') && |w'.tasks| == |w.tasks| && w'.now == w.now && w'.root == w.root
    ensures s'.trunk.store == s.trunk.store && s'.promised == s.promised
    ensures w'.tasks[a].done ==> w'.tasks[a].total == s.promised[a]
    ensures w'.tasks[a].done <==> |s.mines[a]| <= 256
    ensures |s'.mines| == |s.mines| && |s'.mines[a]| == (if |s.mines[a]| > 256 then |s.mines[a]| - 256 else 0) && NoneGrew(s.mines, s'.mines)
    ensures forall b :: 0 <= b < |w.tasks| && b != a ==> w'.tasks[b] == w.tasks[b]
  {
    hide WorldOk;
    w', s' := OneChunk(w, a, s);
    if w'.tasks[a].stack == [] {
      w', s' := Finish(w', a, s');
    }
  }

  /** The chunk alone. */
  method OneChunk(w: World, a: nat, ghost s: Shadow) returns (w': World, ghost s': Shadow)
    requires WorldOk(w, s) && a < |w.tasks| && !w.tasks[a].done
    ensures WorldOk(w', s') && |w'.tasks| == |w.tasks| && w'.now == w.now && w'.root == w.root && !w'.tasks[a].done
    ensures s'.trunk.store == s.trunk.store && s'.promised == s.promised
    ensures |s.mines| == |s'.mines| == |w.tasks| && |s'.mines[a]| == AfterPoll(|s.mines[a]|) && NoneGrew(s.mines, s'.mines)
    ensures w'.tasks[a].stack == [] <==> |s.mines[a]| <= YIELD_BUDGET
    ensures w'.tasks[a].stack == [] ==> s'.mines[a] == map[]
    ensures forall b :: 0 <= b < |w.tasks| && b != a ==> w'.tasks[b] == w.tasks[b]
  {
    hide WorldOk, TaskOk, ArtOk, Shared, Pending, Valued, PartOf, NoneGrew;
    var k := w.tasks[a];
    TaskKnown(w, s, a);
    var h, stack, n;
    ghost var t, mine;
    h, stack, n, t, mine := FreeChunk(w.heap, w.root, k.stack, YIELD_BUDGET, s.trunk, s.mines[a]);
    ChunkShared(s, a, t, mine);
    SmallerPart(mine, s.mines[a]);
    OneShrank(s.mines, a, mine);
    Drained(mine, stack);
    if stack != [] { Undrained(mine, stack); }
    LessToFree(k, s.mines[a], s.promised[a], stack, n, mine);
    s' := Freed(s, a, t, mine);
    w' := w.(heap := h, tasks := w.tasks[a := k.(stack := stack, total := k.total + n)]);
    ChunkWorld(w, s, a, w', s', mine);
  }

  lemma TaskKnown(w: World, s: Shadow, a: nat)
    requires WorldOk(w, s) && a < |w.tasks|
    ensures |s.mines| == |w.tasks| && |s.promised| == |w.tasks| && ArtOk(w.heap, w.root, s.trunk)
    ensures Shared(s.mines, s.who, s.trunk.loose) && PartOf(s.mines[a], s.trunk.loose)
    ensures TaskOk(w.tasks[a], s.mines[a], s.promised[a]) && Pending(s.mines[a], w.tasks[a].stack)
  {
    hide ArtOk, Shared, Pending, Valued, PartOf;
    TaskPart(s.mines, s.who, s.trunk.loose, a);
    assert TaskOk(w.tasks[a], s.mines[a], s.promised[a]);
  }

  lemma LessToFree(k: Task, mine: Grove, promised: nat, stack: seq<Idx>, n: nat, mine': Grove)
    requires TaskOk(k, mine, promised) && !k.done && Pending(mine', stack) && n + |Valued(mine')| == |Valued(mine)|
    ensures TaskOk(k.(stack := stack, total := k.total + n), mine', promised)
  {
    hide Pending, Valued;
  }

  lemma ChunkWorld(w: World, s: Shadow, a: nat, w': World, s': Shadow, mine: Grove)
    requires WorldOk(w, s) && a < |w.tasks| && ArtOk(w'.heap, w'.root, s'.trunk) && Shared(s'.mines, s'.who, s'.trunk.loose)
    requires s'.mines == s.mines[a := mine] && s'.promised == s.promised && |w'.tasks| == |w.tasks|
    requires forall b :: 0 <= b < |w.tasks| && b != a ==> w'.tasks[b] == w.tasks[b]
    requires TaskOk(w'.tasks[a], mine, s.promised[a])
    ensures WorldOk(w', s')
  {
    hide ArtOk, Shared, TaskOk;
    forall b | 0 <= b < |w'.tasks| ensures TaskOk(w'.tasks[b], s'.mines[b], s'.promised[b]) {
      if b != a { assert TaskOk(w.tasks[b], s.mines[b], s.promised[b]); }
    }
  }

  ghost predicate NoneGrew(mines: seq<Grove>, mines': seq<Grove>) {
    |mines'| == |mines| && forall b :: 0 <= b < |mines| ==> |mines'[b]| <= |mines[b]|
  }

  lemma OneShrank(mines: seq<Grove>, a: nat, mine: Grove)
    requires a < |mines| && |mine| <= |mines[a]|
    ensures NoneGrew(mines, mines[a := mine])
  {
  }

  lemma SmallerPart(part: Grove, whole: Grove)
    requires PartOf(part, whole)
    ensures |part| <= |whole|
  {
    assert part.Keys <= whole.Keys;
    ChildTiers.Subset(part.Keys, whole.Keys);
  }

  lemma ChunkShared(s: Shadow, a: nat, t: Trunk, mine: Grove)
    requires Shared(s.mines, s.who, s.trunk.loose) && a < |s.mines| && PartOf(mine, s.mines[a])
    requires t.loose == s.trunk.loose - (s.mines[a].Keys - mine.Keys)
    ensures Shared(Freed(s, a, t, mine).mines, Freed(s, a, t, mine).who, t.loose)
  {
    hide Shared, OwnedBy;
    TaskPart(s.mines, s.who, s.trunk.loose, a);
    SharedChange(s.mines, s.who, s.trunk.loose, a, mine, t.loose);
  }

  /** The last phase. The saved parent may be gone, reused, still in the tree,
   *  or itself severed by another task. */
  method Finish(w: World, a: nat, ghost s: Shadow) returns (w': World, ghost s': Shadow)
    requires WorldOk(w, s) && a < |w.tasks| && !w.tasks[a].done && w.tasks[a].stack == [] && s.mines[a] == map[]
    ensures WorldOk(w', s') && w'.tasks == w.tasks[a := w.tasks[a].(done := true)] && w'.now == w.now && w'.root == w.root
    ensures s'.trunk.store == s.trunk.store && s'.promised == s.promised
    ensures w'.tasks[a].total == s.promised[a]
    ensures NoneGrew(s.mines, s'.mines) && |s'.mines[a]| == 0
  {
    hide ArtOk, Shared, Pending, Linked, Recompressed;
    assert Valued(s.mines[a]) == {};
    var p := w.tasks[a].parent;
    w' := w.(tasks := w.tasks[a := w.tasks[a].(done := true)]);
    s' := s;
    if p != w.root {
      ghost var b := Holder(s, p);
      if p in s.trunk.loose { HolderOk(w, s, p); }
      var h;
      ghost var t;
      h, t := Recompress(w.heap, w.root, p, s.trunk, if b < |s.mines| then s.mines[b] else map[], if b < |w.tasks| then Elems(w.tasks[b].stack) else {});
      s' := Settled(w, s, p, t);
      SettledOk(w', s, p, h, t);
      SettledSmaller(w', s, p, t);
      w' := w'.(heap := h);
    }
  }

  /** The task that the severed node `p` belongs to. */
  ghost function Holder(s: Shadow, p: Idx): nat {
    if p in s.who then s.who[p] else |s.mines|
  }

  lemma HolderOk(w: World, s: Shadow, p: Idx)
    requires WorldOk(w, s) && p in s.trunk.loose
    ensures var b := Holder(s, p); b < |s.mines| && p in s.mines[b] && PartOf(s.mines[b], s.trunk.loose) && Linked(s.mines[b], Elems(w.tasks[b].stack))
  {
    hide ArtOk, Linked;
    var b := s.who[p];
    TaskPart(s.mines, s.who, s.trunk.loose, b);
    assert TaskOk(w.tasks[b], s.mines[b], s.promised[b]);
  }

  ghost function Settled(w: World, s: Shadow, p: Idx, t: Trunk): Shadow {
    var b := Holder(s, p);
    if p in s.trunk.loose && b < |s.mines| && SingleChild(w.heap, p).Some? && Absorbs(w.heap, p, s.mines[b]) then
      var r := SingleChild(w.heap, p).value.radix;
      s.(trunk := t, mines := s.mines[b := Merge(s.mines[b], p, r)], who := s.who - {s.mines[b][p].kids[r]})
    else s.(trunk := t)
  }

  lemma SettledOk(w: World, s: Shadow, p: Idx, h: Heap, t: Trunk)
    requires WorldOk(w, s) && ArtOk(h, w.root, t) && t.store == s.trunk.store
    requires p !in s.trunk.loose ==> t.loose == s.trunk.loose
    requires p in s.trunk.loose ==> Absorbs(w.heap, p, s.trunk.loose) && Absorbs(w.heap, p, s.mines[Holder(s, p)])
    requires p in s.trunk.loose ==> t.loose == Recompressed(w.heap, p, s.trunk.loose)
    ensures WorldOk(w.(heap := h), Settled(w, s, p, t))
  {
    hide ArtOk, Shared, SingleChild, Merge;
    if p in s.trunk.loose && SingleChild(w.heap, p).Some? {
      HolderOk(w, s, p);
      var b, r := Holder(s, p), SingleChild(w.heap, p).value.radix;
      assert TaskOk(w.tasks[b], s.mines[b], s.promised[b]);
      SharedMerge(s.mines, s.who, s.trunk.loose, b, Elems(w.tasks[b].stack), p, r);
      MergeLinked(s.mines[b], Elems(w.tasks[b].stack), p, r);
      MergeValued(s.mines[b], Elems(w.tasks[b].stack), p, r);
    }
  }

  lemma SettledSmaller(w: World, s: Shadow, p: Idx, t: Trunk)
    requires WorldOk(w, s)
    ensures NoneGrew(s.mines, Settled(w, s, p, t).mines)
  {
    hide ArtOk, Shared, SingleChild;
    var b := Holder(s, p);
    if p in s.trunk.loose && b < |s.mines| && SingleChild(w.heap, p).Some? && Absorbs(w.heap, p, s.mines[b]) {
      HolderOk(w, s, p);
      var r := SingleChild(w.heap, p).value.radix;
      MergeSpots(s.mines[b], Elems(w.tasks[b].stack), p, r);
      assert Merge(s.mines[b], p, r).Keys == s.mines[b].Keys - {s.mines[b][p].kids[r]};
      ChildTiers.Subset(Merge(s.mines[b], p, r).Keys, s.mines[b].Keys);
    }
  }

  // ---- Commands and their meaning on a plain map ----------------------------------------------

  datatype Event =
    | Set(key: Key, val: Value)
    | SetTtl(key: Key, ttl: nat, val: Value)
    | SetNow(clock: nat)
    | Get(key: Key)
    | Del(key: Key)
    | Getn(prefix: Key)
    | Deln(prefix: Key)
    | DelnAsync(prefix: Key)
    | Poll(task: nat)

  datatype Output =
    | Done
    | Answer(val: Option<Value>)
    | Count(n: nat)
    | Listing(pairs: seq<Pair>)
    | Suspended

  /** The whole observable state: a map, a clock and, for each `deln_async` call
   *  so far, the count it promised and the severed nodes it has left to free. */
  datatype Spec = Spec(store: Store, now: nat, promised: seq<nat>, left: seq<nat>)

  /** What a `deln_async` leaves: on the empty prefix it keeps the empty key. */
  ghost function CutStore(store: Store, prefix: Key): Store {
    if prefix == [] then OnlyEmptyKey(store) else Outside(store, prefix)
  }

  /** What it counts: on the empty prefix, the empty key too, if it has not
   *  expired. */
  ghost function Promise(store: Store, now: nat, prefix: Key): nat {
    if prefix == [] then |store - {[]}| + (if Live(store, now, []) then 1 else 0) else |Matching(store, prefix)|
  }

  /** Everything but the work left, which depends on the shape of the tree. */
  ghost function Next(s: Spec, e: Event): Spec {
    match e
    case Set(k, v) => s.(store := s.store[k := Entry(v, NO_EXPIRY)])
    case SetTtl(k, ttl, v) => if s.now + ttl < EXPIRY_LIMIT then s.(store := s.store[k := Entry(v, s.now + ttl)]) else s
    case SetNow(n) => s.(now := n)
    case Get(k) => if k in s.store && Expired(s.store[k].exp, s.now) then s.(store := s.store - {k}) else s
    case Del(k) => s.(store := s.store - {k})
    case Getn(_) => s
    case Deln(p) => s.(store := Outside(s.store, p))
    case DelnAsync(p) => s.(store := CutStore(s.store, p), promised := s.promised + [Promise(s.store, s.now, p)])
    case Poll(_) => s
  }

  /** A poll answers with the promised count as soon as at most 256 severed nodes
   *  are left, and never before. */
  ghost predicate Answers(s: Spec, a: nat, o: Output) {
    if a >= |s.promised| || a >= |s.left| then o == Done
    else o == if s.left[a] > YIELD_BUDGET then Suspended else Count(s.promised[a])
  }

  /** The reply to a command. The first poll of a deletion comes with the call:
   *  it answers unless work is left. */
  ghost predicate Agrees(s: Spec, e: Event, o: Output, s': Spec) {
    match e
    case Get(k) => o == Answer(if Live(s.store, s.now, k) then Some(s.store[k].val) else None)
    case Del(k) => o == Answer(if k in s.store then Some(s.store[k].val) else None)
    case Getn(p) => o.Listing? && Reports(o.pairs, s.store, Below(s.store, s.now, p))
    case Deln(p) => o == Count(|Matching(s.store, p)|)
    case DelnAsync(p) =>
      |s'.left| > 0 && o == if Last(s'.left) > 0 then Suspended else Count(Promise(s.store, s.now, p))
    case Poll(a) => Answers(s, a, o)
    case _ => o == Done
  }

  /** The work left never grows; a poll takes its budget off its own task. */
  ghost predicate Works(left: seq<nat>, e: Event, left': seq<nat>) {
    && |left'| == |left| + (if e.DelnAsync? then 1 else 0)
    && (forall b :: 0 <= b < |left| ==> left'[b] <= left[b])
    && (e.Poll? && e.task < |left| ==> left'[e.task] == AfterPoll(left[e.task]))
    && (!e.Poll? && !e.DelnAsync? ==> left' == left)
  }

  ghost predicate Step(s: Spec, e: Event, o: Output, s': Spec) {
    s' == Next(s, e).(left := s'.left) && Agrees(s, e, o, s') && Works(s.left, e, s'.left)
  }

  /** The commands that a state of the world does not survive: an expiry that does
   *  not fit its word, which an assertion refuses, and the commands on the empty
   *  key or prefix that break the tree. */
  predicate Stops(w: World, e: Event) {
    match e
    case SetTtl(_, ttl, _) => w.now + ttl >= EXPIRY_LIMIT
    case Get(k) => GetBreaks(w.heap, w.root, w.now, k)
    case Del(k) => DelBreaks(w.heap, w.root, k)
    case Deln(p) => DelnBreaks(w.heap, w.root, p)
    case DelnAsync(p) => DelnBreaks(w.heap, w.root, p)
    case _ => false
  }

  ghost function Meaning(w: World, s: Shadow): Spec {
    Spec(s.trunk.store, w.now, s.promised, Sizes(s.mines))
  }

  ghost function Sizes(mines: seq<Grove>): seq<nat> {
    seq(|mines|, b requires 0 <= b < |mines| => |mines[b]|)
  }

  /** A command that leaves severed nodes alone leaves the tasks alone. */
  lemma TasksKept(w: World, s: Shadow, h: Heap, now: nat, t: Trunk)
    requires WorldOk(w, s) && ArtOk(h, w.root, t) && t.loose == s.trunk.loose
    ensures WorldOk(w.(heap := h, now := now), s.(trunk := t))
  {
    hide ArtOk, Shared, TaskOk;
  }

  /** Find and cut: the new task, before its first chunk. */
  method Launch(w: World, prefix: Key, ghost s: Shadow) returns (w': World, ghost s': Shadow)
    requires WorldOk(w, s) && !DelnBreaks(w.heap, w.root, prefix)
    ensures WorldOk(w', s') && w'.root == w.root && w'.now == w.now && s'.trunk.store == CutStore(s.trunk.store, prefix)
    ensures |w'.tasks| == |w.tasks| + 1 && Last(w'.tasks).done == (Last(w'.tasks).stack == [])
    ensures s'.promised == s.promised + [Promise(s.trunk.store, w.now, prefix)]
    ensures |s'.mines| == |s.mines| + 1 && s'.mines[..|s.mines|] == s.mines
    ensures Last(s'.mines).Keys == Covering(s.trunk.tree, prefix) - {w.root}
  {
    hide ArtOk, Shared, Valued, OnlyEmptyKey, Outside, Matching;
    var h, stack, parent, initial := w.heap, [], w.root, 0;
    ghost var t, mine;
    if prefix == [] {
      RootSpellsNothing(w.heap, w.root, s.trunk);
      h, stack, initial, t, mine := CutRoot(w.heap, w.root, w.now, s.trunk);
    } else {
      h, stack, parent, t, mine := FindAndCut(w.heap, w.root, prefix, s.trunk);
      RootSpellsNothing(w.heap, w.root, s.trunk);
    }
    var task := Task(stack, parent, initial, stack == []);
    SharedGrow(s.mines, s.who, s.trunk.loose, mine);
    w' := w.(heap := h, tasks := w.tasks + [task]);
    s' := Shadow(t, s.mines + [mine], s.who + Assigned(mine, |s.mines|), s.promised + [initial + |Valued(mine)|]);
    StartedOk(w, s, w', s', task, mine);
  }

  /** The call runs up to the end of its first chunk. */
  method Start(w: World, prefix: Key, ghost s: Shadow) returns (w': World, o: Output, ghost s': Shadow)
    requires WorldOk(w, s) && !DelnBreaks(w.heap, w.root, prefix)
    ensures WorldOk(w', s') && w'.root == w.root && Step(Meaning(w, s), DelnAsync(prefix), o, Meaning(w', s'))
    ensures s'.mines != [] && |Last(s'.mines)| == AfterPoll(|Covering(s.trunk.tree, prefix) - {w.root}|)
  {
    hide ArtOk, Shared, Valued, CutStore, Promise, TaskOk, Covering;
    w', s' := Launch(w, prefix, s);
    ghost var s1 := s';
    var a := |w.tasks|;
    if w'.tasks[a].done {
      NothingLeft(w', a, s');
      o := Count(w'.tasks[a].total);
    } else {
      w', s' := StepTask(w', a, s');
      o := if w'.tasks[a].done then Count(w'.tasks[a].total) else Suspended;
    }
    assert forall b :: 0 <= b < |s.mines| ==> s1.mines[b] == s.mines[b];
  }

  lemma NothingLeft(w: World, a: nat, s: Shadow)
    requires WorldOk(w, s) && a < |w.tasks| && w.tasks[a].done
    ensures |s.mines[a]| == 0 && w.tasks[a].total == s.promised[a]
  {
    hide ArtOk, Shared, Pending, Valued;
    assert TaskOk(w.tasks[a], s.mines[a], s.promised[a]);
    Drained(s.mines[a], w.tasks[a].stack);
  }

  lemma StartedOk(w: World, s: Shadow, w': World, s': Shadow, task: Task, mine: Grove)
    requires WorldOk(w, s) && ArtOk(w'.heap, w'.root, s'.trunk) && Shared(s'.mines, s'.who, s'.trunk.loose)
    requires w'.tasks == w.tasks + [task] && s'.mines == s.mines + [mine] && s'.promised == s.promised + [task.total + |Valued(mine)|]
    requires Pending(mine, task.stack) && (task.done ==> task.stack == [])
    ensures WorldOk(w', s')
  {
    hide ArtOk, Shared, Pending, Valued;
    forall a | 0 <= a < |w'.tasks| ensures TaskOk(w'.tasks[a], s'.mines[a], s'.promised[a]) {
      if a < |w.tasks| { assert TaskOk(w.tasks[a], s.mines[a], s.promised[a]); }
    }
  }

  method Resume(w: World, a: nat, ghost s: Shadow) returns (w': World, o: Output, ghost s': Shadow)
    requires WorldOk(w, s)
    ensures WorldOk(w', s') && w'.root == w.root && Step(Meaning(w, s), Poll(a), o, Meaning(w', s'))
  {
    hide ArtOk, Shared, Valued;
    if a >= |w.tasks| {
      return w, Done, s;
    }
    if w.tasks[a].done {
      NothingLeft(w, a, s);
      return w, Count(w.tasks[a].total), s;
    }
    w', s' := StepTask(w, a, s);
    o := if w'.tasks[a].done then Count(w'.tasks[a].total) else Suspended;
  }

  /** What a command leaves behind that breaks the tree. */
  method Wreck(w: World, e: Event, ghost s: Shadow) returns (wreck: Heap)
    requires WorldOk(w, s) && Stops(w, e)
    ensures !e.SetTtl? ==> Broken(wreck, w.root)
  {
    hide ArtOk, Shared, TaskOk, Broken;
    ghost var t := s.trunk;
    wreck := w.heap;
    match e {
      case Get(k) =>
        var res;
        wreck, res, t := GetAny(w.heap, w.root, w.now, k, t);
      case Del(k) =>
        var res;
        wreck, res, t := DelAny(w.heap, w.root, k, t);
      case Deln(p) =>
        var n;
        wreck, n, t := DelnAny(w.heap, w.root, p, t);
      case DelnAsync(p) =>
        var n;
        wreck, n, t := DelnAsyncRoot(w.heap, w.root, w.now, t);
      case _ =>
    }
  }

  /** The clock that the commands so far have set. */
  function ClockAfter(events: seq<Event>): nat {
    if events == [] then 0
    else if Last(events).SetNow? then Last(events).clock
    else ClockAfter(events[..|events| - 1])
  }

  lemma StepClock(w: World, s: Shadow, events: seq<Event>, e: Event, o: Output, w': World, s': Shadow)
    requires Step(Meaning(w, s), e, o, Meaning(w', s')) && w.now == ClockAfter(events)
    ensures w'.now == ClockAfter(events + [e])
  {
    assert (events + [e])[..|events|] == events;
  }

  /** A command that leaves the tasks alone. */
  method Command(w: World, e: Event, ghost s: Shadow) returns (w': World, o: Output, ghost s': Shadow)
    requires WorldOk(w, s) && !Stops(w, e) && !e.DelnAsync? && !e.Poll?
    ensures WorldOk(w', s') && w'.root == w.root && Step(Meaning(w, s), e, o, Meaning(w', s'))
  {
    hide ArtOk, Shared, TaskOk, Reports, Broken, GetBreaks, DelBreaks, DelnBreaks;
    var h, now := w.heap, w.now;
    ghost var t := s.trunk;
    match e {
      case Set(k, v) =>
        h, t := SetInternal(h, w.root, k, NO_EXPIRY, v, t);
        o := Done;
      case SetTtl(k, ttl, v) =>
        h, t := SetInternal(h, w.root, k, w.now + ttl, v, t);
        o := Done;
      case SetNow(n) =>
        now, o := n, Done;
      case Get(k) =>
        var res;
        h, res, t := GetAny(h, w.root, w.now, k, t);
        o := Answer(res);
      case Del(k) =>
        var res;
        h, res, t := DelAny(h, w.root, k, t);
        o := Answer(res);
      case Getn(p) =>
        var pairs := Scan.Getn(h, w.root, w.now, p, t);
        o := Listing(pairs);
      case Deln(p) =>
        var n;
        h, n, t := DelnAny(h, w.root, p, t);
        o := Count(n);
    }
    TasksKept(w, s, h, now, t);
    w' := w.(heap := h, now := now);
    s' := s.(trunk := t);
  }

  method Apply(w: World, e: Event, ghost s: Shadow) returns (w': World, o: Output, ghost s': Shadow)
    requires WorldOk(w, s) && !Stops(w, e)
    ensures WorldOk(w', s') && w'.root == w.root && Step(Meaning(w, s), e, o, Meaning(w', s'))
    ensures e.DelnAsync? ==> s'.mines != [] && |Last(s'.mines)| == AfterPoll(|Covering(s.trunk.tree, e.prefix) - {w.root}|)
  {
    hide WorldOk, Step, Broken, Covering;
    match e
    case DelnAsync(p) => w', o, s' := Start(w, p, s);
    case Poll(a) => w', o, s' := Resume(w, a, s);
    case _ => w', o, s' := Command(w, e, s);
  }

  /** Every run refines the map: whatever the commands and however the pending
   *  deletions are interleaved with them, each answer is the map's answer, and
   *  each pending deletion works off its severed nodes. When every deletion has
   *  finished, no severed node is left. The run ends early only at an expiry that
   *  does not fit in 56 bits, or at a command on the empty key or prefix that breaks
   *  the tree: `wreck` is what it leaves. `trees` are the trees that the commands
   *  meet: a `deln_async` has left what exceeds 256 of the nodes with the prefix. */
  method Execute(root: Idx, events: seq<Event>)
    returns (w: World, n: nat, outs: seq<Output>, wreck: Heap, ghost trace: seq<Spec>, ghost s: Shadow, ghost trees: seq<Grove>)
    ensures n <= |events| && IsRun(trace, events[..n], outs) && trace[0] == Spec(map[], 0, [], [])
    ensures WorldOk(w, s) && Meaning(w, s) == Last(trace)
    ensures |trees| == n && forall i :: 0 <= i < n ==>
              && IsTree(trees[i], root) && Represents(trees[i], trace[i].store)
              && (events[i].DelnAsync? ==>
                    var m := |Covering(trees[i], events[i].prefix) - {root}|;
                    trace[i + 1].left != [] && Last(trace[i + 1].left) == if m > 256 then m - 256 else 0)
    ensures n < |events| ==>
              && (events[n].SetTtl? || (Broken(wreck, w.root) && w.root in w.heap.nodes))
              && match events[n] {
                   case SetTtl(_, ttl, _) => w.now + ttl >= 0x100_0000_0000_0000
                   case Get(k) =>
                     var top := w.heap.nodes[w.root];
                     k == [] && |top.childs| == 1 && top.overflow.None? && top.exp < w.now && top.exp != 0xFF_FFFF_FFFF_FFFF
                   case Del(k) => k == [] && |w.heap.nodes[w.root].childs| == 1 && w.heap.nodes[w.root].overflow.None?
                   case Deln(p) => p == [] && w.heap.nodes[w.root].overflow.Some?
                   case DelnAsync(p) => p == [] && w.heap.nodes[w.root].overflow.Some?
                   case _ => false
                 }
    ensures w.now == ClockAfter(events[..n])
    ensures (forall i :: 0 <= i < |events| ==>
               match events[i] {
                 case SetTtl(_, ttl, _) => ClockAfter(events[..i]) + ttl < 0x100_0000_0000_0000
                 case Get(k) => k != []
                 case Del(k) => k != []
                 case Deln(p) => p != []
                 case DelnAsync(p) => p != []
                 case _ => true
               }) ==> n == |events|
    ensures forall a :: 0 <= a < |Last(trace).left| ==> Last(trace).left[a] <= |w.heap.nodes|
    ensures (forall a :: 0 <= a < |w.tasks| ==> w.tasks[a].done) ==> s.trunk.loose == map[]
  {
    hide WorldOk, Step, Art.ArtOk, Stops, Broken, Met, IsTree, Represents, Covering, ClockAfter, Meaning, IsRun;
    var h;
    ghost var t;
    h, t := New(root);
    w, s := World(h, root, 0, []), Shadow(t, [], map[], []);
    FreshWorld(h, root, t);
    NothingRun(events, w, s);
    n, outs, trace, wreck, trees := 0, [], [Spec(map[], 0, [], [])], h, [];
    while n < |events| && !Stops(w, events[n])
      invariant n <= |events| && |trace| == n + 1 && IsRun(trace, events[..n], outs) && trace[0] == Spec(map[], 0, [], [])
      invariant WorldOk(w, s) && Meaning(w, s) == Last(trace) && w.now == ClockAfter(events[..n]) && w.root == root
      invariant |trees| == n && forall i {:trigger trees[i]} :: 0 <= i < n ==> Met(trees[i], root, trace[i], events[i], trace[i + 1])
    {
      var o;
      ghost var w0, s0 := w, s;
      w, o, s := Apply(w, events[n], s);
      assert events[..n + 1] == events[..n] + [events[n]];
      StepClock(w0, s0, events[..n], events[n], o, w, s);
      RunOn(trace, events[..n], outs, events[n], o, Meaning(w, s));
      MetNow(w0, s0, events[n], w, s);
      outs, trace, trees := outs + [o], trace + [Meaning(w, s)], trees + [s0.trunk.tree];
      n := n + 1;
    }
    forall i | 0 <= i < n ensures Met(trees[i], root, trace[i], events[i], trace[i + 1]) { }
    MetAll(trees, root, trace, events[..n]);
    if n < |events| {
      wreck := Wreck(w, events[n], s);
      StopsWhen(w, events[n]);
    }
    AllDone(w, s);
    WorkBounded(w, s);
  }

  lemma NothingRun(events: seq<Event>, w: World, s: Shadow)
    requires s.trunk.store == map[] && w.now == 0 && s.promised == [] && s.mines == []
    ensures IsRun([Spec(map[], 0, [], [])], events[..0], []) && ClockAfter(events[..0]) == 0
    ensures Meaning(w, s) == Spec(map[], 0, [], [])
  {
  }

  /** The tree that a command meets, and what a `deln_async` leaves of it. */
  ghost predicate Met(f: Grove, root: Idx, s: Spec, e: Event, s': Spec) {
    && IsTree(f, root) && Represents(f, s.store)
    && (e.DelnAsync? ==>
          s'.left != [] && Last(s'.left) == AfterPoll(|Covering(f, e.prefix) - {root}|))
  }

  lemma MetNow(w: World, s: Shadow, e: Event, w': World, s': Shadow)
    requires WorldOk(w, s)
    requires e.DelnAsync? ==> s'.mines != [] && |Last(s'.mines)| == AfterPoll(|Covering(s.trunk.tree, e.prefix) - {w.root}|)
    ensures Met(s.trunk.tree, w.root, Meaning(w, s), e, Meaning(w', s'))
  {
    hide IsTree, Represents, Covering, HeapOk, Shared;
  }

  lemma MetAll(trees: seq<Grove>, root: Idx, trace: seq<Spec>, events: seq<Event>)
    requires |trees| == |events| && |trace| == |events| + 1
    requires forall i {:trigger trees[i]} :: 0 <= i < |trees| ==> Met(trees[i], root, trace[i], events[i], trace[i + 1])
    ensures forall i :: 0 <= i < |trees| ==>
              && IsTree(trees[i], root) && Represents(trees[i], trace[i].store)
              && (events[i].DelnAsync? ==>
                    var m := |Covering(trees[i], events[i].prefix) - {root}|;
                    trace[i + 1].left != [] && Last(trace[i + 1].left) == if m > 256 then m - 256 else 0)
  {
    hide IsTree, Represents, Covering;
  }

  lemma StopsWhen(w: World, e: Event)
    requires Stops(w, e)
    ensures e.SetTtl? || w.root in w.heap.nodes
    ensures match e {
              case SetTtl(_, ttl, _) => w.now + ttl >= 0x100_0000_0000_0000
              case Get(k) =>
                var top := w.heap.nodes[w.root];
                k == [] && |top.childs| == 1 && top.overflow.None? && top.exp < w.now && top.exp != 0xFF_FFFF_FFFF_FFFF
              case Del(k) => k == [] && |w.heap.nodes[w.root].childs| == 1 && w.heap.nodes[w.root].overflow.None?
              case Deln(p) => p == [] && w.heap.nodes[w.root].overflow.Some?
              case DelnAsync(p) => p == [] && w.heap.nodes[w.root].overflow.Some?
              case _ => false
            }
  {
  }

  ghost predicate IsRun(trace: seq<Spec>, events: seq<Event>, outs: seq<Output>) {
    && |trace| == |events| + 1 && |outs| == |events|
    && forall i {:trigger events[i]} :: 0 <= i < |events| ==> Step(trace[i], events[i], outs[i], trace[i + 1])
  }

  lemma RunOn(trace: seq<Spec>, events: seq<Event>, outs: seq<Output>, e: Event, o: Output, s: Spec)
    requires IsRun(trace, events, outs) && Step(Last(trace), e, o, s)
    ensures IsRun(trace + [s], events + [e], outs + [o])
  {
    hide Step;
    var trace', events', outs' := trace + [s], events + [e], outs + [o];
    forall i | 0 <= i < |events'| ensures Step(trace'[i], events'[i], outs'[i], trace'[i + 1]) {
      if i < |events| { assert events'[i] == events[i] && trace'[i] == trace[i] && trace'[i + 1] == trace[i + 1] && outs'[i] == outs[i]; }
    }
  }

  /** A task has never more to free than there are nodes. */
  lemma WorkBounded(w: World, s: Shadow)
    requires WorldOk(w, s)
    ensures forall a :: 0 <= a < |Meaning(w, s).left| ==> Meaning(w, s).left[a] <= |w.heap.nodes|
  {
    hide ArtOk, Shared;
    forall a | 0 <= a < |s.mines| ensures |s.mines[a]| <= |w.heap.nodes| {
      TaskPart(s.mines, s.who, s.trunk.loose, a);
      EnoughBudget(w.heap, w.root, s.trunk, s.mines[a]);
    }
  }

  // ---- Pending deletions answer ----------------------------------------------------------------

  /** How often task `a` is polled. */
  function Polls(events: seq<Event>, a: nat): nat {
    if events == [] then 0 else Polls(events[..|events| - 1], a) + if Last(events) == Poll(a) then 1 else 0
  }

  ghost predicate Replied(events: seq<Event>, outs: seq<Output>, a: nat, n: nat) {
    exists k :: 0 <= k < |events| && k < |outs| && events[k] == Poll(a) && outs[k] == Count(n)
  }

  lemma RepliedBefore(events: seq<Event>, outs: seq<Output>, n: nat, a: nat, count: nat)
    requires n <= |events| == |outs|
    ensures Replied(events[..n], outs[..n], a, count) ==> Replied(events, outs, a, count)
  {
    if Replied(events[..n], outs[..n], a, count) {
      var k :| 0 <= k < n && events[..n][k] == Poll(a) && outs[..n][k] == Count(count);
      assert events[k] == Poll(a) && outs[k] == Count(count);
    }
  }

  /** Promises are kept, and unanswered polls have done their work. */
  lemma {:induction false} Unanswered(trace: seq<Spec>, events: seq<Event>, outs: seq<Output>, a: nat)
    requires IsRun(trace, events, outs) && a < |trace[0].left| && |trace[0].left| <= |trace[0].promised|
    requires !Replied(events, outs, a, trace[0].promised[a])
    ensures a < |Last(trace).left| <= |Last(trace).promised| && Last(trace).promised[a] == trace[0].promised[a]
    ensures Last(trace).left[a] + 256 * Polls(events, a) <= trace[0].left[a]
    ensures Polls(events, a) > 0 ==> 256 * Polls(events, a) < trace[0].left[a]
    decreases |events|
  {
    hide Agrees, Next;
    if events != [] {
      var n := |events| - 1;
      var events', outs', trace' := events[..n], outs[..n], trace[..n + 1];
      assert forall i :: 0 <= i < n ==> events'[i] == events[i];
      RepliedBefore(events, outs, n, a, trace[0].promised[a]);
      Unanswered(trace', events', outs', a);
      assert Step(trace[n], events[n], outs[n], trace[n + 1]);
      PromiseKept(trace[n], events[n], outs[n], trace[n + 1], a);
      assert events[n] == Poll(a) ==> outs[n] != Count(trace[0].promised[a]);
    }
  }

  lemma PromiseKept(s: Spec, e: Event, o: Output, s': Spec, a: nat)
    requires Step(s, e, o, s') && a < |s.left| <= |s.promised|
    ensures a < |s'.left| <= |s'.promised| && s'.promised[a] == s.promised[a] && s'.left[a] <= s.left[a]
    ensures e == Poll(a) && o != Count(s.promised[a]) ==> s.left[a] > 256 && s'.left[a] == s.left[a] - 256
  {
  }

  /** Every pending deletion answers: after a poll for every 256 nodes it had
   *  left, and at least one, it has returned exactly the promised count. */
  lemma DeletionAnswers(trace: seq<Spec>, events: seq<Event>, outs: seq<Output>, a: nat)
    requires IsRun(trace, events, outs) && a < |trace[0].left| <= |trace[0].promised|
    requires Polls(events, a) > 0 && 256 * Polls(events, a) >= trace[0].left[a]
    ensures Replied(events, outs, a, trace[0].promised[a])
  {
    hide Step;
    if !Replied(events, outs, a, trace[0].promised[a]) { Unanswered(trace, events, outs, a); }
  }

  lemma FreshWorld(h: Heap, root: Idx, t: Trunk)
    requires ArtOk(h, root, t) && t.loose == map[]
    ensures WorldOk(World(h, root, 0, []), Shadow(t, [], map[], []))
  {
    hide ArtOk;
  }

  lemma AllDone(w: World, s: Shadow)
    requires WorldOk(w, s)
    ensures (forall a :: 0 <= a < |w.tasks| ==> w.tasks[a].done) ==> s.trunk.loose == map[]
  {
    hide ArtOk;
    if forall a :: 0 <= a < |w.tasks| ==> w.tasks[a].done {
      forall a | 0 <= a < |w.tasks| ensures s.mines[a] == map[] {
        assert TaskOk(w.tasks[a], s.mines[a], s.promised[a]);
        Drained(s.mines[a], w.tasks[a].stack);
      }
    }
  }
}
