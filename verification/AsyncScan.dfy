/** `getn_async`: a scan that gives up the tree after every 256 nodes while
 *  other tasks store keys and the clock moves. */
module AsyncScan {
  import opened Basics
  import opened Forest
  import opened Heap
  import opened Art
  import opened Scan
  import ChildTiers

  /** What other tasks may do while the scan is suspended. `set` writes the
   *  never-expires word, `set_ttl` an expiry word. */
  datatype Write = Put(key: Key, exp: Expiry, val: Value) | Tick(now: nat)

  datatype Moment = Moment(store: Store, now: nat)

  ghost function After(m: Moment, w: Write): Moment {
    match w
    case Put(k, e, v) => m.(store := m.store[k := Entry(v, e)])
    case Tick(n) => m.(now := n)
  }

  ghost predicate LiveAt(m: Moment, k: Key) {
    Live(m.store, m.now, k)
  }

  /** `history` lists every state from `start` on, one per write. */
  ghost predicate Evolves(history: seq<Moment>, start: Moment, writes: seq<Write>) {
    && |history| == |writes| + 1 && history[0] == start
    && forall j {:trigger writes[j]} :: 0 <= j < |writes| ==> history[j + 1] == After(history[j], writes[j])
  }

  ghost predicate AlwaysLive(history: seq<Moment>, k: Key) {
    forall j {:trigger history[j]} :: 0 <= j < |history| ==> LiveAt(history[j], k)
  }

  ghost predicate OnceLive(history: seq<Moment>, k: Key) {
    exists j :: 0 <= j < |history| && LiveAt(history[j], k)
  }

  ghost function Flat(batches: seq<seq<Write>>): seq<Write> {
    if batches == [] then [] else Flat(batches[..|batches| - 1]) + Last(batches)
  }

  lemma FlatMore(batches: seq<seq<Write>>, b: nat)
    requires b < |batches|
    ensures Flat(batches[..b + 1]) == Flat(batches[..b]) + batches[b]
  {
    assert batches[..b + 1][..b] == batches[..b];
  }

  lemma EvolvesMore(history: seq<Moment>, start: Moment, writes: seq<Write>, w: Write)
    requires Evolves(history, start, writes)
    ensures Evolves(history + [After(Last(history), w)], start, writes + [w])
  {
    var h', w' := history + [After(Last(history), w)], writes + [w];
    forall j | 0 <= j < |w'| ensures h'[j + 1] == After(h'[j], w'[j]) {
      if j < |writes| { assert writes[j] == w'[j]; }
    }
  }

  /** The suspended scan: what it holds and what it still owes. */
  ghost predicate ScanOk(f: Grove, stack: seq<Frame>, keys: seq<Key>, prefix: Key, history: seq<Moment>, must: set<Key>) {
    && StackOk(f, stack) && KeysOk(stack, keys, prefix) && Reached(stack, keys, must)
    && (forall k {:trigger AlwaysLive(history, k)} :: prefix <= k && AlwaysLive(history, k) ==> k in must)
    && (forall k {:trigger k in must} :: k in must ==> AlwaysLive(history, k))
    && (forall a {:trigger keys[a]} :: 0 <= a < |keys| ==> OnceLive(history, keys[a]))
  }

  lemma HistoryMore(history: seq<Moment>, m: Moment, k: Key)
    ensures AlwaysLive(history + [m], k) <==> AlwaysLive(history, k) && LiveAt(m, k)
    ensures OnceLive(history, k) ==> OnceLive(history + [m], k)
  {
    var more := history + [m];
    if AlwaysLive(more, k) {
      forall j | 0 <= j < |history| ensures LiveAt(history[j], k) { assert more[j] == history[j]; }
      assert more[|history|] == m;
    }
    if OnceLive(history, k) {
      var j :| 0 <= j < |history| && LiveAt(history[j], k);
      assert more[j] == history[j];
    }
  }

  /** One write by another task: the scan's obligations shrink, nothing breaks. */
  lemma ScanSurvives(f: Grove, g: Grove, stack: seq<Frame>, keys: seq<Key>, prefix: Key, history: seq<Moment>, must: set<Key>, m: Moment)
    requires ScanOk(f, stack, keys, prefix, history, must) && Grows(f, g)
    ensures ScanOk(g, stack, keys, prefix, history + [m], set k | k in must && LiveAt(m, k))
  {
    hide KeysOk, Grows;
    StackSurvives(f, g, stack);
    var must' := set k | k in must && LiveAt(m, k);
    forall k ensures AlwaysLive(history + [m], k) <==> AlwaysLive(history, k) && LiveAt(m, k) { HistoryMore(history, m, k); }
    forall a | 0 <= a < |keys| ensures OnceLive(history + [m], keys[a]) { HistoryMore(history, m, keys[a]); }
  }

  method DoWrite(h: Heap, root: Idx, now: nat, w: Write, ghost t: Trunk) returns (h': Heap, now': nat, ghost t': Trunk)
    requires ArtOk(h, root, t)
    ensures ArtOk(h', root, t') && Grows(t.tree, t'.tree) && Moment(t'.store, now') == After(Moment(t.store, now), w)
    ensures t'.loose == t.loose && (w.Tick? ==> h' == h && t' == t)
  {
    hide ArtOk;
    match w
    case Put(k, e, v) =>
      h', t' := SetInternal(h, root, k, e, v, t);
      now' := now;
    case Tick(n) =>
      h', t', now' := h, t, n;
  }

  /** The writes of one suspension. */
  method DoBatch(h: Heap, root: Idx, now: nat, batch: seq<Write>, stack: seq<Frame>, keys: seq<Key>, ghost prefix: Key,
                 ghost t: Trunk, ghost start: Moment, ghost done: seq<Write>, ghost history: seq<Moment>, ghost must: set<Key>)
    returns (h': Heap, now': nat, ghost t': Trunk, ghost history': seq<Moment>, ghost must': set<Key>)
    requires ArtOk(h, root, t) && ScanOk(t.tree, stack, keys, prefix, history, must)
    requires Evolves(history, start, done) && Last(history) == Moment(t.store, now)
    ensures ArtOk(h', root, t') && ScanOk(t'.tree, stack, keys, prefix, history', must')
    ensures Evolves(history', start, done + batch) && Last(history') == Moment(t'.store, now')
    ensures t'.loose == t.loose && history <= history'
    ensures |Ahead(t.tree, stack)| <= |Ahead(t'.tree, stack)| && (OnlyTicks(batch) ==> h' == h && t' == t)
  {
    hide ArtOk, ScanOk, Evolves, After, Ahead, Grows;
    h', now', t', history', must' := h, now, t, history, must;
    assert done + batch[..0] == done;
    assert history != [] by { SomeHistory(history, start, done); }
    for j := 0 to |batch|
      invariant ArtOk(h', root, t') && ScanOk(t'.tree, stack, keys, prefix, history', must')
      invariant Evolves(history', start, done + batch[..j]) && history' != [] && Last(history') == Moment(t'.store, now')
      invariant t'.loose == t.loose && history <= history'
      invariant |Ahead(t.tree, stack)| <= |Ahead(t'.tree, stack)| && (OnlyTicks(batch) ==> h' == h && t' == t)
    {
      ghost var f, m := t'.tree, After(Last(history'), batch[j]);
      h', now', t' := DoWrite(h', root, now', batch[j], t');
      ScanSurvives(f, t'.tree, stack, keys, prefix, history', must', m);
      AheadGrows(f, t'.tree, stack);
      EvolvesMore(history', start, done + batch[..j], batch[j]);
      assert done + batch[..j + 1] == done + batch[..j] + [batch[j]];
      must' := set k | k in must' && LiveAt(m, k);
      history' := history' + [m];
    }
    assert batch[..|batch|] == batch;
  }

  /** Only the clock moves. */
  ghost predicate OnlyTicks(writes: seq<Write>) {
    forall j {:trigger writes[j]} :: 0 <= j < |writes| ==> writes[j].Tick?
  }

  lemma TicksMore(a: seq<Write>, b: seq<Write>)
    requires OnlyTicks(a + b)
    ensures OnlyTicks(a) && OnlyTicks(b)
  {
    assert forall j :: 0 <= j < |a| ==> (a + b)[j] == a[j];
    assert forall j :: 0 <= j < |b| ==> (a + b)[|a| + j] == b[j];
  }

  /** A growing tree takes no node off the scan's way. */
  lemma AheadGrows(f: Grove, g: Grove, stack: seq<Frame>)
    requires Grows(f, g)
    ensures |Ahead(f, stack)| <= |Ahead(g, stack)|
  {
    forall i | i in Ahead(f, stack) ensures i in Ahead(g, stack) { }
    ChildTiers.Subset(Ahead(f, stack), Ahead(g, stack));
  }

  lemma SomeHistory(history: seq<Moment>, start: Moment, done: seq<Write>)
    requires Evolves(history, start, done)
    ensures history != []
  {
  }

  /** One chunk, run while nothing else does. */
  method DoChunk(h: Heap, root: Idx, now: nat, stack: seq<Frame>, keys: seq<Key>, ghost prefix: Key,
                 ghost t: Trunk, ghost history: seq<Moment>, ghost must: set<Key>)
    returns (stack': seq<Frame>, keys': seq<Key>, ghost visits: nat)
    requires ArtOk(h, root, t) && ScanOk(t.tree, stack, keys, prefix, history, must)
    requires history != [] && Last(history) == Moment(t.store, now)
    ensures ScanOk(t.tree, stack', keys', prefix, history, must)
    ensures keys <= keys' && NewLive(keys, keys', t.store, now)
    ensures |Ahead(t.tree, stack')| + visits == |Ahead(t.tree, stack)| && |keys'| <= |keys| + visits
    ensures visits <= 256 && (stack != [] ==> visits > 0) && (stack' != [] ==> visits == 256)
  {
    hide ArtOk, StackOk, KeysOk, Reached, Ahead, Live, Chunk, Visits;
    ghost var last := |history| - 1;
    forall k | k in must ensures Live(t.store, now, k) { assert LiveAt(history[last], k); }
    stack', keys' := CollectChunk(h, root, now, stack, keys, YIELD_BUDGET, t);
    ChunkGood(h, root, now, t, stack, keys, YIELD_BUDGET, prefix, must);
    ChunkVisits(h, now, stack, keys, YIELD_BUDGET);
    ChunkCounts(h, root, now, t, stack, keys, YIELD_BUDGET, prefix);
    visits := Visits(h, stack, YIELD_BUDGET);
    forall a | 0 <= a < |keys'| ensures OnceLive(history, keys'[a]) {
      if a < |keys| { assert keys'[a] == keys[a]; } else { assert LiveAt(history[last], keys'[a]); }
    }
  }

  /** Each key was live when it was visited: key `a` in state `when[a]`. */
  ghost predicate Witnessed(history: seq<Moment>, keys: seq<Key>, when: seq<nat>) {
    && |when| == |keys|
    && (forall a {:trigger when[a]} :: 0 <= a < |when| ==> when[a] < |history| && LiveAt(history[when[a]], keys[a]))
  }

  lemma WitnessChunk(history: seq<Moment>, keys: seq<Key>, when: seq<nat>, keys': seq<Key>, m: Moment)
    requires Witnessed(history, keys, when) && history != [] && Last(history) == m && NewLive(keys, keys', m.store, m.now)
    ensures Witnessed(history, keys', when + seq(|keys'| - |keys|, _ => |history| - 1))
  {
    var when' := when + seq(|keys'| - |keys|, _ => |history| - 1);
    forall a | 0 <= a < |when'| ensures when'[a] < |history| && LiveAt(history[when'[a]], keys'[a]) {
      if a < |keys| { assert when'[a] == when[a] && keys'[a] == keys[a]; } else { assert Live(m.store, m.now, keys'[a]); }
    }
  }

  lemma WitnessLater(history: seq<Moment>, keys: seq<Key>, when: seq<nat>, history': seq<Moment>)
    requires Witnessed(history, keys, when) && history <= history'
    ensures Witnessed(history', keys, when)
  {
    forall a | 0 <= a < |when| ensures when[a] < |history'| && LiveAt(history'[when[a]], keys[a]) {
      assert history'[when[a]] == history[when[a]];
    }
  }

  function Least(a: nat, b: nat): nat {
    if a < b then a else b
  }

  /** The scan in chunks: `marks` are the numbers of keys reported before the first
   *  chunk and after each one. The keys of chunk `b` were visited in the state after
   *  the first `b` suspensions, if there were so many; the covering node in the
   *  first state. */
  ghost predicate Paced(when: seq<nat>, marks: seq<nat>, batches: seq<seq<Write>>) {
    && marks != [] && marks[0] <= 1 && Last(marks) == |when|
    && (forall b {:trigger marks[b]} :: 0 <= b < |marks| - 1 ==> marks[b] <= marks[b + 1] <= marks[b] + 256)
    && (forall a {:trigger when[a]} :: 0 <= a < marks[0] && a < |when| ==> when[a] == 0)
    && (forall b, a {:trigger marks[b], when[a]} :: 0 <= b < |marks| - 1 && marks[b] <= a < marks[b + 1] && a < |when| ==>
          when[a] == |Flat(batches[..Least(b, |batches|)])|)
  }

  lemma {:induction false} MarksRise(when: seq<nat>, marks: seq<nat>, batches: seq<seq<Write>>, b: nat)
    requires Paced(when, marks, batches) && b < |marks|
    ensures marks[b] <= |when|
    decreases |marks| - b
  {
    if b + 1 < |marks| {
      MarksRise(when, marks, batches, b + 1);
      assert marks[b] <= marks[b + 1];
    }
  }

  lemma PaceChunk(when: seq<nat>, marks: seq<nat>, batches: seq<seq<Write>>, n: nat)
    requires Paced(when, marks, batches) && n <= 256
    ensures Paced(when + seq(n, _ => |Flat(batches[..Least(|marks| - 1, |batches|)])|), marks + [|when| + n], batches)
  {
    hide Flat;
    var now := |Flat(batches[..Least(|marks| - 1, |batches|)])|;
    var when', marks' := when + seq(n, _ => now), marks + [|when| + n];
    assert forall b :: 0 <= b < |marks| ==> marks'[b] == marks[b];
    forall b, a | 0 <= b < |marks'| - 1 && marks'[b] <= a < marks'[b + 1] && a < |when'|
      ensures when'[a] == |Flat(batches[..Least(b, |batches|)])|
    {
      if b < |marks| - 1 {
        MarksRise(when, marks, batches, b + 1);
        assert marks[b] <= a < marks[b + 1] && when'[a] == when[a];
      }
    }
    MarksRise(when, marks, batches, 0);
  }

  /** The whole command. `batches[b]` is what other tasks write during the b-th
   *  suspension; `rounds` suspensions happen, one after every 256 nodes visited as
   *  long as nodes are left. Every matching key that is live throughout is reported
   *  exactly once, and every reported key was live when it was visited. Without
   *  interference this is exactly `getn`. */
  method GetnAsync(h: Heap, root: Idx, now: nat, prefix: Key, batches: seq<seq<Write>>, ghost t: Trunk)
    returns (h': Heap, now': nat, keys: seq<Key>, rounds: nat, ghost t': Trunk, ghost history: seq<Moment>, ghost when: seq<nat>,
             ghost marks: seq<nat>, ghost visited: nat)
    requires ArtOk(h, root, t)
    ensures ArtOk(h', root, t') && t'.loose == t.loose
    ensures rounds <= |batches| && Evolves(history, Moment(t.store, now), Flat(batches[..rounds]))
    ensures history != [] && Last(history) == Moment(t'.store, now')
    ensures NoDup(keys)
    ensures forall k :: prefix <= k && AlwaysLive(history, k) ==> k in keys
    ensures forall k :: k in keys ==> prefix <= k
    ensures Witnessed(history, keys, when) && Paced(when, marks, batches)
    ensures Flat(batches[..rounds]) == [] ==> Elems(keys) == Below(t.store, now, prefix)
    ensures |marks| == 1 + (visited + 255) / 256
    ensures rounds == Least(|batches|, if visited == 0 then 0 else (visited - 1) / 256)
    ensures |keys| <= 1 + visited && (rounds < |batches| ==> |keys| <= 1 + 256 * (rounds + 1))
    ensures |Covering(t.tree, prefix)| <= 1 + visited
    ensures OnlyTicks(Flat(batches[..rounds])) ==> visited == if Covering(t.tree, prefix) == {} then 0 else |Covering(t.tree, prefix)| - 1
  {
    hide ArtOk, StackOk, KeysOk, Reached, Ahead, ScanOk, Evolves, Witnessed, Paced, NewLive, Covering, OnlyTicks, Flat;
    ghost var start := Moment(t.store, now);
    var stack;
    stack, keys := StartScan(h, root, now, prefix, t);
    history := [start];
    ghost var must := Below(t.store, now, prefix);
    ScanBegins(t.tree, stack, keys, prefix, start, must);
    when, marks, visited := seq(|keys|, _ => 0), [|keys|], 0;
    WitnessStart(keys, start, batches);
    ghost var seeds := |Ahead(t.tree, stack)|;
    h', now', t', rounds := h, now, t, 0;
    while stack != []
      invariant ArtOk(h', root, t') && t'.loose == t.loose && ScanOk(t'.tree, stack, keys, prefix, history, must)
      invariant rounds <= |batches| && Evolves(history, start, Flat(batches[..rounds]))
      invariant history != [] && Last(history) == Moment(t'.store, now')
      invariant Witnessed(history, keys, when) && Paced(when, marks, batches) && |when| == |keys| <= 1 + visited
      invariant visited <= 256 * (|marks| - 1) && (|marks| > 1 ==> visited > 256 * (|marks| - 2)) && marks != []
      invariant stack != [] ==> visited == 256 * (|marks| - 1)
      invariant rounds == Least(|batches|, if stack != [] then |marks| - 1 else if |marks| == 1 then 0 else |marks| - 2)
      invariant seeds <= visited + |Ahead(t'.tree, stack)|
      invariant OnlyTicks(Flat(batches[..rounds])) ==> t' == t && seeds == visited + |Ahead(t'.tree, stack)|
      decreases |batches| - rounds, |Ahead(t'.tree, stack)|
    {
      ghost var keys0 := keys;
      ghost var n;
      stack, keys, n := DoChunk(h', root, now', stack, keys, prefix, t', history, must);
      HistoryLength(history, start, Flat(batches[..rounds]));
      WitnessChunk(history, keys0, when, keys, Moment(t'.store, now'));
      PaceChunk(when, marks, batches, |keys| - |keys0|);
      when, marks, visited := when + seq(|keys| - |keys0|, _ => |history| - 1), marks + [|keys|], visited + n;
      if stack != [] && rounds < |batches| {
        ghost var history0 := history;
        h', now', t', history, must :=
          DoBatch(h', root, now', batches[rounds], stack, keys, prefix, t', start, Flat(batches[..rounds]), history, must);
        FlatMore(batches, rounds);
        if OnlyTicks(Flat(batches[..rounds + 1])) { TicksMore(Flat(batches[..rounds]), batches[rounds]); }
        SomeHistory(history, start, Flat(batches[..rounds]) + batches[rounds]);
        WitnessLater(history0, keys, when, history);
        rounds := rounds + 1;
      }
    }
    NoneAhead(t'.tree);
    ScanEnds(t'.tree, keys, prefix, history, must, start, Flat(batches[..rounds]));
  }

  lemma NoneAhead(f: Grove)
    ensures Ahead(f, []) == {}
  {
  }

  lemma WitnessStart(keys: seq<Key>, start: Moment, batches: seq<seq<Write>>)
    requires |keys| <= 1 && forall a :: 0 <= a < |keys| ==> Live(start.store, start.now, keys[a])
    ensures Witnessed([start], keys, seq(|keys|, _ => 0)) && Paced(seq(|keys|, _ => 0), [|keys|], batches)
  {
    assert forall a :: 0 <= a < |keys| ==> LiveAt([start][0], keys[a]);
  }

  lemma HistoryLength(history: seq<Moment>, start: Moment, writes: seq<Write>)
    requires Evolves(history, start, writes)
    ensures |history| == |writes| + 1
  {
  }

  lemma ScanBegins(f: Grove, stack: seq<Frame>, keys: seq<Key>, prefix: Key, start: Moment, must: set<Key>)
    requires StackOk(f, stack) && KeysOk(stack, keys, prefix) && Reached(stack, keys, must)
    requires must == Below(start.store, start.now, prefix)
    requires forall a :: 0 <= a < |keys| ==> Live(start.store, start.now, keys[a])
    ensures ScanOk(f, stack, keys, prefix, [start], must) && Evolves([start], start, Flat([]))
  {
    hide StackOk, KeysOk, Reached;
    forall k ensures AlwaysLive([start], k) <==> LiveAt(start, k) {
      assert [start][0] == start;
    }
    forall a | 0 <= a < |keys| ensures OnceLive([start], keys[a]) { assert LiveAt([start][0], keys[a]); }
  }

  lemma ScanEnds(f: Grove, keys: seq<Key>, prefix: Key, history: seq<Moment>, must: set<Key>, start: Moment, writes: seq<Write>)
    requires ScanOk(f, [], keys, prefix, history, must) && Evolves(history, start, writes)
    ensures NoDup(keys)
    ensures forall k :: prefix <= k && AlwaysLive(history, k) ==> k in keys
    ensures forall k :: k in keys ==> prefix <= k && OnceLive(history, k)
    ensures writes == [] ==> Elems(keys) == Below(start.store, start.now, prefix)
  {
    forall k | k in keys ensures prefix <= k && OnceLive(history, k) {
      var a :| 0 <= a < |keys| && keys[a] == k;
    }
    forall k | prefix <= k && AlwaysLive(history, k) ensures k in keys { assert !Waiting([], k); }
    if writes == [] {
      assert history == [start];
      forall k | k in Below(start.store, start.now, prefix) ensures k in keys {
        assert LiveAt(start, k);
        assert AlwaysLive(history, k);
      }
      forall k | k in keys ensures k in Below(start.store, start.now, prefix) {
        var j :| 0 <= j < |history| && LiveAt(history[j], k);
      }
    }
  }
}
