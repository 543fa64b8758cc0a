/** `getn_async` while other tasks do anything at all, deletions included.
 *
 *  Each chunk meets some valid tree. A frame on the stack may name a node that is
 *  gone from the slab; the scan skips it. As long as no frame names a node that
 *  was severed but not yet freed, or an index that was handed out again, this
 *  module says exactly which keys such a scan reports. */
module AmidScan {
  import opened Basics
  import opened Forest
  import opened Heap
  import opened Art
  import opened Scan
  import opened AsyncScan
  import ChildTiers

  /** What one chunk meets. */
  datatype Scene = Scene(heap: Heap, now: nat)

  ghost function Seen(scenes: seq<Scene>, ts: seq<Trunk>, n: nat): seq<Moment>
    requires n <= |scenes| == |ts|
  {
    seq(n, j requires 0 <= j < n => Moment(ts[j].store, scenes[j].now))
  }

  /** Every chunk found each node on its stack in the tree under its label, or
   *  gone. */
  ghost predicate Traceable(scenes: seq<Scene>, ts: seq<Trunk>, stacks: seq<seq<Frame>>) {
    && |stacks| <= |ts| == |scenes|
    && forall j {:trigger stacks[j]} :: 0 <= j < |stacks| ==> Named(scenes[j].heap, ts[j].tree, stacks[j])
  }

  /** Every chunk found all nodes on its stack in the tree. */
  ghost predicate Undisturbed(ts: seq<Trunk>, stacks: seq<seq<Frame>>) {
    |stacks| <= |ts| && forall j {:trigger stacks[j]} :: 0 <= j < |stacks| ==> StackOk(ts[j].tree, stacks[j])
  }

  /** The frames that were popped when their node was gone. */
  ghost predicate Fell(scenes: seq<Scene>, stacks: seq<seq<Frame>>, gone: seq<Frame>) {
    forall x {:trigger x in gone} :: x in gone ==> FellAt(scenes, stacks, x)
  }

  ghost predicate FellAt(scenes: seq<Scene>, stacks: seq<seq<Frame>>, x: Frame) {
    exists j :: 0 <= j < |stacks| && j < |scenes| && x in stacks[j] && x.idx !in scenes[j].heap.nodes
  }

  /** What a scan owes between two chunks. */
  ghost predicate Owed(stack: seq<Frame>, keys: seq<Key>, prefix: Key, history: seq<Moment>, must: set<Key>, gone: seq<Frame>) {
    && Antichain(stack) && KeysOk(stack, keys, prefix) && Reached(stack, keys, must) && Lost(gone, stack, keys)
    && (forall k {:trigger AlwaysLive(history, k)} :: prefix <= k && AlwaysLive(history, k) && !Waiting(gone, k) ==> k in must)
    && (forall k {:trigger k in must} :: k in must ==> AlwaysLive(history, k))
  }

  lemma OwedLater(stack: seq<Frame>, keys: seq<Key>, prefix: Key, history: seq<Moment>, must: set<Key>, gone: seq<Frame>, m: Moment)
    requires Owed(stack, keys, prefix, history, must, gone)
    ensures Owed(stack, keys, prefix, history + [m], (set k | k in must && LiveAt(m, k)), gone)
  {
    hide KeysOk, Antichain, Lost;
    forall k ensures AlwaysLive(history + [m], k) <==> AlwaysLive(history, k) && LiveAt(m, k) { HistoryMore(history, m, k); }
  }

  lemma MustLive(history: seq<Moment>, must: set<Key>, m: Moment)
    requires history != [] && Last(history) == m && forall k :: k in must ==> AlwaysLive(history, k)
    ensures AllLive(must, m.store, m.now)
  {
    forall k | k in must ensures Live(m.store, m.now, k) { assert LiveAt(history[|history| - 1], k); }
  }

  lemma SeenMore(scenes: seq<Scene>, ts: seq<Trunk>, n: nat)
    requires n < |scenes| == |ts|
    ensures Seen(scenes, ts, n + 1) == Seen(scenes, ts, n) + [Moment(ts[n].store, scenes[n].now)]
  {
  }

  lemma TraceMore(scenes: seq<Scene>, ts: seq<Trunk>, stacks: seq<seq<Frame>>, stack: seq<Frame>)
    requires |stacks| < |ts| == |scenes|
    ensures Traceable(scenes, ts, stacks + [stack]) <==>
              Traceable(scenes, ts, stacks) && Named(scenes[|stacks|].heap, ts[|stacks|].tree, stack)
    ensures Undisturbed(ts, stacks + [stack]) <==> Undisturbed(ts, stacks) && StackOk(ts[|stacks|].tree, stack)
  {
    hide StackOk, Named;
    var more := stacks + [stack];
    assert more[|stacks|] == stack;
    assert forall j :: 0 <= j < |stacks| ==> more[j] == stacks[j];
  }

  lemma FellMore(scenes: seq<Scene>, stacks: seq<seq<Frame>>, gone: seq<Frame>, stack: seq<Frame>, more: seq<Frame>)
    requires Fell(scenes, stacks, gone) && |stacks| < |scenes| && Vanished(scenes[|stacks|].heap, more) && forall x :: x in more ==> x in stack
    ensures Fell(scenes, stacks + [stack], gone + more)
  {
    var all := stacks + [stack];
    forall x | x in gone + more ensures FellAt(scenes, all, x) {
      if x in gone {
        var j :| 0 <= j < |stacks| && j < |scenes| && x in stacks[j] && x.idx !in scenes[j].heap.nodes;
        assert all[j] == stacks[j];
      } else {
        var a :| 0 <= a < |more| && more[a] == x;
        assert all[|stacks|] == stack;
      }
    }
  }

  /** One chunk of a traceable scan. */
  lemma ChunkOwed(h: Heap, root: Idx, now: nat, t: Trunk, stack: seq<Frame>, keys: seq<Key>, prefix: Key, history: seq<Moment>, must: set<Key>, gone: seq<Frame>)
    returns (more: seq<Frame>)
    requires ArtOk(h, root, t) && Named(h, t.tree, stack) && Owed(stack, keys, prefix, history, must, gone)
    requires history != [] && Last(history) == Moment(t.store, now)
    ensures var (stack', keys') := Chunk(h, now, stack, keys, YIELD_BUDGET);
            && Owed(stack', keys', prefix, history, Spared(must, more), gone + more) && NewLive(keys, keys', t.store, now)
            && Vanished(h, more) && (forall x :: x in more ==> x in stack)
            && (StackOk(t.tree, stack) ==> more == [])
  {
    hide ArtOk, Chunk, KeysOk, Reached, Ahead, StackOk, Named, Lost;
    MustLive(history, must, Moment(t.store, now));
    more := ChunkGaps(h, root, now, t, stack, keys, YIELD_BUDGET, prefix, must, gone);
    forall k ensures Waiting(gone + more, k) <==> Waiting(gone, k) || Waiting(more, k) { WaitingEither(gone, more, k); }
  }

  /** Each chunk that found all its nodes and left work took exactly its budget off
   *  the nodes ahead. */
  ghost predicate Steady(ts: seq<Trunk>, stacks: seq<seq<Frame>>, stack: seq<Frame>) {
    var all := stacks + [stack];
    |stacks| <= |ts| && forall j {:trigger stacks[j]} :: 0 <= j < |stacks| && StackOk(ts[j].tree, stacks[j]) && all[j + 1] != [] ==>
      |Ahead(ts[j].tree, stacks[j])| == YIELD_BUDGET + |Ahead(ts[j].tree, all[j + 1])|
  }

  lemma NotStarted(ts: seq<Trunk>, stack: seq<Frame>)
    ensures Steady(ts, [], stack)
  {
  }

  lemma SteadyMore(h: Heap, root: Idx, now: nat, ts: seq<Trunk>, stacks: seq<seq<Frame>>, stack: seq<Frame>, keys: seq<Key>,
                   prefix: Key, history: seq<Moment>, must: set<Key>, gone: seq<Frame>)
    requires Steady(ts, stacks, stack) && |stacks| < |ts| && ArtOk(h, root, ts[|stacks|]) && Owed(stack, keys, prefix, history, must, gone)
    ensures Steady(ts, stacks + [stack], Chunk(h, now, stack, keys, YIELD_BUDGET).0)
  {
    hide ArtOk, StackOk, KeysOk, Reached, Lost, Antichain, Ahead, Chunk, Visits;
    var n, stack', more := |stacks|, Chunk(h, now, stack, keys, YIELD_BUDGET).0, stacks + [stack];
    var all, all' := stacks + [stack], more + [stack'];
    assert more[n] == stack && all'[n + 1] == stack';
    ChunkVisits(h, now, stack, keys, YIELD_BUDGET);
    if StackOk(ts[n].tree, stack) { ChunkCounts(h, root, now, ts[n], stack, keys, YIELD_BUDGET, prefix); }
    forall j | 0 <= j < n && StackOk(ts[j].tree, more[j]) && all'[j + 1] != []
      ensures |Ahead(ts[j].tree, more[j])| == YIELD_BUDGET + |Ahead(ts[j].tree, all'[j + 1])|
    {
      assert more[j] == stacks[j] && all'[j + 1] == all[j + 1];
    }
  }

  lemma SteadyMeans(ts: seq<Trunk>, stacks: seq<seq<Frame>>, stack: seq<Frame>)
    requires Steady(ts, stacks, stack)
    ensures |stacks| <= |ts|
    ensures forall j :: 0 <= j < |stacks| - 1 && stacks[j + 1] != [] && StackOk(ts[j].tree, stacks[j]) ==>
              |Ahead(ts[j].tree, stacks[j])| == YIELD_BUDGET + |Ahead(ts[j].tree, stacks[j + 1])|
  {
    hide StackOk, Ahead;
    assert forall j {:trigger stacks[j]} :: 0 <= j < |stacks| ==> (stacks + [stack])[j] == stacks[j];
  }

  lemma WaitingEither(a: seq<Frame>, b: seq<Frame>, k: Key)
    ensures Waiting(a + b, k) <==> Waiting(a, k) || Waiting(b, k)
  {
    var all := a + b;
    if Waiting(a, k) { var i :| 0 <= i < |a| && a[i].prefix <= k; assert all[i] == a[i]; }
    if Waiting(b, k) { var i :| 0 <= i < |b| && b[i].prefix <= k; assert all[|a| + i] == b[i]; }
    if Waiting(all, k) { var i :| 0 <= i < |all| && all[i].prefix <= k; assert if i < |a| then all[i] == a[i] else all[i] == b[i - |a|]; }
  }

  /** The scan over the given scenes, one chunk in each; `stacks` records the
   *  stack at the start of each chunk, and `gone` the frames that were popped
   *  when their node was gone. If it was traceable and came to an end, a match
   *  that was live in all scenes is reported, once, if and only if no frame that
   *  leads to it fell; and every reported key was live when visited. */
  method GetnAmid(root: Idx, scenes: seq<Scene>, prefix: Key, ghost ts: seq<Trunk>)
    returns (stack: seq<Frame>, keys: seq<Key>, rounds: nat, ghost stacks: seq<seq<Frame>>, ghost gone: seq<Frame>, ghost when: seq<nat>)
    requires |scenes| > 0 && |ts| == |scenes| && forall j :: 0 <= j < |scenes| ==> ArtOk(scenes[j].heap, root, ts[j])
    ensures rounds <= |scenes| && |stacks| == rounds && (stack == [] || rounds == |scenes|)
    ensures Traceable(scenes, ts, stacks) && stack == [] ==>
              var history := Seen(scenes, ts, if rounds == 0 then 1 else rounds);
              && NoDup(keys) && (forall k :: k in keys ==> prefix <= k && !Waiting(gone, k)) && Witnessed(history, keys, when)
              && (forall k :: prefix <= k && AlwaysLive(history, k) ==> (k in keys <==> !Waiting(gone, k)))
              && Fell(scenes, stacks, gone)
    ensures Undisturbed(ts, stacks) ==> gone == [] && Traceable(scenes, ts, stacks)
    ensures |keys| <= 1 + 256 * rounds
    ensures Traceable(scenes, ts, stacks) ==>
              forall j :: 0 <= j < rounds - 1 && StackOk(ts[j].tree, stacks[j]) ==>
                |Ahead(ts[j].tree, stacks[j])| == 256 + |Ahead(ts[j].tree, stacks[j + 1])|
  {
    hide ArtOk, StackOk, KeysOk, Reached, Ahead, Owed, ScanOk, Evolves, Chunk, Named, Lost, Antichain, Fell, Witnessed, Steady;
    stack, keys := StartScan(scenes[0].heap, root, scenes[0].now, prefix, ts[0]);
    ghost var start := Moment(ts[0].store, scenes[0].now);
    ghost var history, must := [start], Below(ts[0].store, scenes[0].now, prefix);
    assert history == Seen(scenes, ts, 1);
    Begun(ts[0].tree, stack, keys, prefix, start, must);
    rounds, stacks, gone, when := 0, [], [], seq(|keys|, _ => 0);
    assert Fell(scenes, stacks, gone) by { NothingFell(scenes); }
    NotStarted(ts, stack);
    while stack != [] && rounds < |scenes|
      invariant rounds <= |scenes| && |stacks| == rounds && forall j :: 0 <= j < |stacks| ==> stacks[j] != []
      invariant history == Seen(scenes, ts, if rounds == 0 then 1 else rounds)
      invariant Traceable(scenes, ts, stacks) ==> Owed(stack, keys, prefix, history, must, gone) && Witnessed(history, keys, when) && Fell(scenes, stacks, gone)
      invariant Undisturbed(ts, stacks) ==> gone == []
      invariant |keys| <= 1 + 256 * rounds && (Traceable(scenes, ts, stacks) ==> Steady(ts, stacks, stack))
      decreases |scenes| - rounds
    {
      ghost var m := Moment(ts[rounds].store, scenes[rounds].now);
      if rounds > 0 {
        if Traceable(scenes, ts, stacks) {
          OwedLater(stack, keys, prefix, history, must, gone, m);
          WitnessLater(history, keys, when, history + [m]);
        }
        SeenMore(scenes, ts, rounds);
        history, must := history + [m], set k | k in must && LiveAt(m, k);
      }
      ghost var stack0, keys0 := stack, keys;
      TraceMore(scenes, ts, stacks, stack);
      stack, keys := CollectChunk(scenes[rounds].heap, root, scenes[rounds].now, stack, keys, YIELD_BUDGET, ts[rounds]);
      if Traceable(scenes, ts, stacks + [stack0]) {
        SteadyMore(scenes[rounds].heap, root, scenes[rounds].now, ts, stacks, stack0, keys0, prefix, history, must, gone);
        ghost var more := ChunkOwed(scenes[rounds].heap, root, scenes[rounds].now, ts[rounds], stack0, keys0, prefix, history, must, gone);
        FellMore(scenes, stacks, gone, stack0, more);
        WitnessChunk(history, keys0, when, keys, m);
        when := when + seq(|keys| - |keys0|, _ => |history| - 1);
        must, gone := Spared(must, more), gone + more;
      } else {
        NotUndisturbed(scenes, ts, stacks + [stack0]);
      }
      ChunkVisits(scenes[rounds].heap, scenes[rounds].now, stack0, keys0, YIELD_BUDGET);
      stacks := stacks + [stack0];
      rounds := rounds + 1;
    }
    if !Traceable(scenes, ts, stacks) { NotUndisturbed(scenes, ts, stacks); } else { SteadyMeans(ts, stacks, stack); }
    if Traceable(scenes, ts, stacks) && stack == [] { Ended(keys, prefix, history, must, gone); }
  }

  lemma NothingFell(scenes: seq<Scene>)
    ensures Fell(scenes, [], [])
  {
  }

  lemma NotUndisturbed(scenes: seq<Scene>, ts: seq<Trunk>, stacks: seq<seq<Frame>>)
    requires |stacks| <= |ts| == |scenes| && !Traceable(scenes, ts, stacks)
    ensures !Undisturbed(ts, stacks)
  {
    hide Antichain;
    var j :| 0 <= j < |stacks| && !Named(scenes[j].heap, ts[j].tree, stacks[j]);
    assert !StackOk(ts[j].tree, stacks[j]);
  }

  lemma Begun(f: Grove, stack: seq<Frame>, keys: seq<Key>, prefix: Key, start: Moment, must: set<Key>)
    requires StackOk(f, stack) && KeysOk(stack, keys, prefix) && Reached(stack, keys, must)
    requires must == Below(start.store, start.now, prefix)
    requires forall a :: 0 <= a < |keys| ==> Live(start.store, start.now, keys[a])
    ensures Owed(stack, keys, prefix, [start], must, []) && Witnessed([start], keys, seq(|keys|, _ => 0))
  {
    hide KeysOk, Reached;
    ScanBegins(f, stack, keys, prefix, start, must);
    assert forall a :: 0 <= a < |keys| ==> LiveAt([start][0], keys[a]);
  }

  lemma Ended(keys: seq<Key>, prefix: Key, history: seq<Moment>, must: set<Key>, gone: seq<Frame>)
    requires Owed([], keys, prefix, history, must, gone)
    ensures NoDup(keys) && forall k :: k in keys ==> prefix <= k && !Waiting(gone, k)
    ensures forall k :: prefix <= k && AlwaysLive(history, k) ==> (k in keys <==> !Waiting(gone, k))
  {
    forall k | k in keys ensures prefix <= k && !Waiting(gone, k) { var a :| 0 <= a < |keys| && keys[a] == k; }
    assert forall k :: !Waiting([], k);
  }

  // ---- The rest of a scan after a disturbance ---------------------------------------------------

  /** A frame on the stack that leads to `k` names a node that is gone. */
  ghost predicate Severed(h: Heap, stack: seq<Frame>, k: Key) {
    exists a :: 0 <= a < |stack| && stack[a].idx !in h.nodes && stack[a].prefix <= k
  }

  /** A suspended scan is carried to its end with no further interference: of the
   *  keys it owes, it misses exactly those that a vanished frame leads to. */
  method FinishScan(h: Heap, root: Idx, now: nat, stack: seq<Frame>, keys: seq<Key>, ghost t: Trunk, ghost prefix: Key, ghost must: set<Key>)
    returns (keys': seq<Key>)
    requires ArtOk(h, root, t) && ScanInv(h, t.tree, stack, keys, prefix, must) && AllLive(must, t.store, now)
    ensures NoDup(keys') && NewLive(keys, keys', t.store, now)
    ensures forall k :: k in must ==> (k in keys' <==> !Severed(h, stack, k))
  {
    hide ArtOk, ScanInv, AllLive, NewLive, Vanished, Lost, Ahead, Chunk, Severed;
    var rest := stack;
    ghost var gone: seq<Frame>, left := [], must;
    keys' := keys;
    Starting(h, stack, keys, must, t.store, now);
    while rest != []
      invariant ScanInv(h, t.tree, rest, keys', prefix, left) && Lost(gone, rest, keys') && Vanished(h, gone)
      invariant left == Spared(must, gone) && AllLive(left, t.store, now) && NewLive(keys, keys', t.store, now)
      invariant forall x :: x in gone ==> x in stack
      invariant forall x :: x in stack && x.idx !in h.nodes ==> x in gone || x in rest
      invariant forall x :: x in rest && x.idx !in h.nodes ==> x in stack
      decreases |Ahead(t.tree, rest)|, |rest|
    {
      ghost var before, keys0 := rest, keys';
      rest, keys' := CollectChunk(h, root, now, rest, keys', YIELD_BUDGET, t);
      ghost var more := ChunkGaps(h, root, now, t, before, keys0, YIELD_BUDGET, prefix, left, gone);
      MissingStay(h, now, before, keys0, YIELD_BUDGET, root, t, prefix, left);
      NewTwice(keys, keys0, keys', t.store, now);
      SparedMore(must, gone, more);
      VanishedBoth(h, gone, more);
      left, gone := Spared(left, more), gone + more;
      StillLive(must, gone, left, t.store, now);
      NoneAhead(t.tree);
    }
    Finished(h, t.tree, stack, keys', prefix, must, gone);
  }

  lemma NoneAhead(f: Grove)
    ensures |Ahead(f, [])| == 0
  {
    assert Ahead(f, []) == {};
  }

  lemma Starting(h: Heap, stack: seq<Frame>, keys: seq<Key>, must: set<Key>, store: Store, now: nat)
    ensures Lost([], stack, keys) && Vanished(h, []) && Spared(must, []) == must && NewLive(keys, keys, store, now)
  {
  }

  lemma SparedMore(must: set<Key>, gone: seq<Frame>, more: seq<Frame>)
    ensures Spared(Spared(must, gone), more) == Spared(must, gone + more)
  {
    forall k ensures Waiting(gone + more, k) <==> Waiting(gone, k) || Waiting(more, k) { WaitingEither(gone, more, k); }
  }

  lemma VanishedBoth(h: Heap, a: seq<Frame>, b: seq<Frame>)
    requires Vanished(h, a) && Vanished(h, b)
    ensures Vanished(h, a + b)
  {
  }

  lemma StillLive(must: set<Key>, gone: seq<Frame>, left: set<Key>, store: Store, now: nat)
    requires AllLive(must, store, now) && left == Spared(must, gone)
    ensures AllLive(left, store, now)
  {
  }

  /** A chunk pushes no frame whose node is gone. */
  lemma {:induction false} MissingStay(h: Heap, now: nat, stack: seq<Frame>, keys: seq<Key>, budget: nat, root: Idx, t: Trunk, prefix: Key, must: set<Key>)
    requires ArtOk(h, root, t) && ScanInv(h, t.tree, stack, keys, prefix, must) && AllLive(must, t.store, now)
    ensures forall x :: x in Chunk(h, now, stack, keys, budget).0 && x.idx !in h.nodes ==> x in stack
    decreases budget, |stack|
  {
    hide ArtOk, ScanInv, AllLive, NewLive, Lost, Ahead, StackOk;
    if budget > 0 && stack != [] {
      var top, rest := Last(stack), stack[..|stack| - 1];
      assert stack == rest + [top];
      Starting(h, stack, keys, must, t.store, now);
      if top.idx !in h.nodes {
        SkipFrame(h, t.tree, rest, top, keys, prefix, must, []);
        SkipFacts(h, root, t, rest, top, must, now);
        MissingStay(h, now, rest, keys, budget, root, t, prefix, Spared(must, [top]));
      } else {
        VisitFrame(h, root, now, t, rest, top, keys, prefix, must, []);
        var base := top.prefix + h.nodes[top.idx].comp;
        var pushed := Frames(base, ChildEdges(h, top.idx));
        MissingStay(h, now, rest + pushed, keys + Scan.Found(h, now, top.idx, base), budget - 1, root, t, prefix, must);
        forall x: Frame | x in pushed ensures x.idx in h.nodes { var a :| 0 <= a < |pushed| && pushed[a] == x; }
      }
    }
  }

  lemma Finished(h: Heap, f: Grove, stack: seq<Frame>, keys: seq<Key>, prefix: Key, must: set<Key>, gone: seq<Frame>)
    requires ScanInv(h, f, [], keys, prefix, Spared(must, gone)) && Lost(gone, [], keys) && Vanished(h, gone)
    requires forall x :: x in gone ==> x in stack
    requires forall x :: x in stack && x.idx !in h.nodes ==> x in gone
    ensures NoDup(keys) && forall k :: k in must ==> (k in keys <==> !Severed(h, stack, k))
  {
    forall k | k in must ensures k in keys <==> !Severed(h, stack, k) {
      SameLoss(h, stack, gone, k);
      assert !Waiting([], k);
      if k in keys { var a :| 0 <= a < |keys| && keys[a] == k; }
    }
  }

  lemma SameLoss(h: Heap, stack: seq<Frame>, gone: seq<Frame>, k: Key)
    requires Vanished(h, gone) && (forall x :: x in gone ==> x in stack) && forall x :: x in stack && x.idx !in h.nodes ==> x in gone
    ensures Waiting(gone, k) <==> Severed(h, stack, k)
  {
    if Waiting(gone, k) {
      var a :| 0 <= a < |gone| && gone[a].prefix <= k;
      assert gone[a] in stack;
      var b :| 0 <= b < |stack| && stack[b] == gone[a];
      assert stack[b].idx !in h.nodes;
    }
    if Severed(h, stack, k) {
      var b :| 0 <= b < |stack| && stack[b].idx !in h.nodes && stack[b].prefix <= k;
      assert stack[b] in gone;
      var a :| 0 <= a < |gone| && gone[a] == stack[b];
    }
  }

  // ---- Which deletions lose keys -----------------------------------------------------------------

  ghost predicate OnStack(stack: seq<Frame>, i: Idx) {
    exists a :: 0 <= a < |stack| && stack[a].idx == i
  }

  /** A recompression while a scan is suspended, and the rest of the scan. Of the
   *  keys it owes, the scan misses exactly those at or below the absorbed child,
   *  and only if that child is on its stack. So the rest of the scan is right if
   *  and only if the child is not on the stack or leads to no key that is owed. */
  method RecompressedScan(h: Heap, root: Idx, now: nat, i: Idx, stack: seq<Frame>, keys: seq<Key>,
                          ghost t: Trunk, ghost prefix: Key, ghost must: set<Key>)
    returns (h': Heap, keys': seq<Key>, ghost t': Trunk)
    requires ArtOk(h, root, t) && i in t.tree && i != root && SingleChild(h, i).Some?
    requires StackOk(t.tree, stack) && KeysOk(stack, keys, prefix) && Reached(stack, keys, must) && AllLive(must, t.store, now)
    ensures h' == AbsorbHeap(h, i) && ArtOk(h', root, t') && t'.store == t.store
    ensures var c := SingleChild(h, i).value.idx;
            && c in t.tree
            && (forall k :: k in must ==> (k in keys' <==> !(OnStack(stack, c) && t.tree[c].lab <= k)))
            && ((forall k :: k in must ==> k in keys') <==> (!OnStack(stack, c) || forall k :: k in must ==> !(t.tree[c].lab <= k)))
  {
    hide ArtOk, StackOk, KeysOk, Reached, AllLive, AbsorbHeap, OnStack, Merge;
    ghost var c := SingleChild(h, i).value.idx;
    ChildKnown(h, root, t, i);
    h', t' := RecompressTree(h, root, i, t);
    Absorbed(h, root, t, i, h', t', stack);
    keys' := FinishScan(h', root, now, stack, keys, t', prefix, must);
    forall k ensures Severed(h', stack, k) <==> OnStack(stack, c) && t.tree[c].lab <= k { SeveredBelow(h', t.tree, stack, c, k); }
  }

  lemma ChildKnown(h: Heap, root: Idx, t: Trunk, i: Idx)
    requires ArtOk(h, root, t) && i in t.tree && SingleChild(h, i).Some?
    ensures var e := SingleChild(h, i).value;
            e.idx in t.tree && e.idx in h.nodes && e.idx != i && e.radix in t.tree[i].kids && t.tree[i].kids[e.radix] == e.idx
  {
    hide HeapOk, Represents;
    SingleKid(h, t.layout, t.tree + t.loose, i);
    assert EdgeOk(t.tree, {root}, i, SingleChild(h, i).value.radix);
    TreeNode(h, root, t, SingleChild(h, i).value.idx);
  }

  lemma SingleKid(h: Heap, g: Layout, all: Grove, i: Idx)
    requires HeapOk(h, g, all) && i in all && SingleChild(h, i).Some?
    ensures var e := SingleChild(h, i).value; e.radix in all[i].kids && all[i].kids[e.radix] == e.idx
  {
    hide HeapOk;
    SingleChildKids(h, g, all, i);
  }

  /** After the absorption every frame but that of the child is as good as before. */
  lemma Absorbed(h: Heap, root: Idx, t: Trunk, i: Idx, h': Heap, t': Trunk, stack: seq<Frame>)
    requires ArtOk(h, root, t) && i in t.tree && i != root && SingleChild(h, i).Some? && h' == AbsorbHeap(h, i)
    requires SingleChild(h, i).value.idx in h.nodes && SingleChild(h, i).value.idx != i && i in h.nodes
    requires Absorbs(h, i, t.tree) && t'.tree == Recompressed(h, i, t.tree) && StackOk(t.tree, stack)
    ensures Named(h', t'.tree, stack) && Antichain(stack)
    ensures forall a :: 0 <= a < |stack| ==> stack[a].idx in t.tree && t.tree[stack[a].idx].lab == stack[a].prefix
    ensures forall a :: 0 <= a < |stack| ==> (stack[a].idx !in h'.nodes <==> stack[a].idx == SingleChild(h, i).value.idx)
  {
    hide HeapOk, Represents, Merge, Antichain;
    var c := SingleChild(h, i).value.idx;
    MergeSpots(t.tree, {root}, i, SingleChild(h, i).value.radix);
    assert EdgeOk(t.tree, {root}, i, SingleChild(h, i).value.radix);
    ChildKnown(h, root, t, i);
    assert h'.nodes.Keys == h.nodes.Keys - {c};
    forall a | 0 <= a < |stack| ensures stack[a].idx in h.nodes { TreeNode(h, root, t, stack[a].idx); }
  }

  lemma SeveredBelow(h: Heap, f: Grove, stack: seq<Frame>, c: Idx, k: Key)
    requires c in f && forall a :: 0 <= a < |stack| ==> stack[a].idx in f && f[stack[a].idx].lab == stack[a].prefix
    requires forall a :: 0 <= a < |stack| ==> (stack[a].idx !in h.nodes <==> stack[a].idx == c)
    ensures Severed(h, stack, k) <==> OnStack(stack, c) && f[c].lab <= k
  {
    if Severed(h, stack, k) {
      var a :| 0 <= a < |stack| && stack[a].idx !in h.nodes && stack[a].prefix <= k;
      assert stack[a].idx == c;
    }
    if OnStack(stack, c) && f[c].lab <= k {
      var a :| 0 <= a < |stack| && stack[a].idx == c;
      assert stack[a].prefix <= k;
    }
  }

  /** A leaf that is removed leads to no stored key any more: skipping its frame
   *  loses nothing. */
  lemma LeafLosesNothing(f: Grove, root: Idx, store: Store, i: Idx, k: Key)
    requires IsTree(f, root) && i in f && i != root && f[i].kids == map[] && f[i].up in f && f[i].lab != []
    requires Represents(DropLeaf(f, i), store) && k in store
    ensures !(f[i].lab <= k)
  {
    var j :| Forest.Holds(DropLeaf(f, i), j, k);
    if f[i].lab <= k { OnePath(f, root, i, j); }
  }

  /** So does every node of a subtree that is cut and freed. */
  lemma CutLosesNothing(f: Grove, root: Idx, store: Store, i: Idx, prefix: Key, j: Idx, k: Key)
    requires IsTree(f, root) && Represents(f, store) && i in f && i != root && f[i].lab <= prefix <= Full(f[i])
    requires j in Under(f, i) && k in Outside(store, prefix)
    ensures !(f[j].lab <= k)
  {
    hide IsTree, Represents;
    if f[j].lab <= k {
      PrefixOf(f[i].lab, f[j].lab, k);
      SameBelow(f, root, store, 0, i, prefix);
    }
  }

  lemma PrefixOf(a: Key, b: Key, c: Key)
    requires a <= b <= c
    ensures a <= c
  {
  }
}
