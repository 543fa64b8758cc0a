/** Traversal guided by a deterministic automaton: subtrees on which the
 *  automaton is dead are skipped. */
module RegexScan {
  import opened Basics
  import opened Forest
  import opened Heap
  import opened Art
  import opened Scan
  import ChildTiers

  /** The compiled automaton, taken as given. */
  datatype Dfa<!S(==)> = Dfa(next: (S, Byte) -> S, eoi: S -> S, isMatch: S -> bool, isDead: S -> bool)

  /** Dead states stay dead and never match at the end of input. */
  ghost predicate DeadIsFinal<S(!new)>(dfa: Dfa<S>) {
    && (forall s {:trigger dfa.eoi(s)} :: dfa.isDead(s) ==> !dfa.isMatch(dfa.eoi(s)))
    && (forall s, b {:trigger dfa.next(s, b)} :: dfa.isDead(s) ==> dfa.isDead(dfa.next(s, b)))
  }

  ghost function Run<S>(dfa: Dfa<S>, s: S, key: Key): S {
    if key == [] then s else dfa.next(Run(dfa, s, key[..|key| - 1]), Last(key))
  }

  ghost predicate Accepts<S>(dfa: Dfa<S>, s: S, key: Key) {
    dfa.isMatch(dfa.eoi(Run(dfa, s, key)))
  }

  lemma RunStep<S>(dfa: Dfa<S>, s: S, key: Key, b: Byte)
    ensures Run(dfa, s, key + [b]) == dfa.next(Run(dfa, s, key), b)
  {
    assert (key + [b])[..|key|] == key;
  }

  /** Once dead on a prefix, an automaton accepts no extension. */
  lemma {:induction false} DeadPrefix<S(!new)>(dfa: Dfa<S>, s: S, p: Key, key: Key)
    requires DeadIsFinal(dfa) && p <= key && dfa.isDead(Run(dfa, s, p))
    ensures dfa.isDead(Run(dfa, s, key)) && !Accepts(dfa, s, key)
    decreases |key|
  {
    if |p| < |key| {
      DeadPrefix(dfa, s, p, key[..|key| - 1]);
    } else {
      assert p == key;
    }
  }

  datatype Guided<S> = Guided(frame: Frame, state: S)

  ghost function Plain<S>(stack: seq<Guided<S>>): seq<Frame> {
    seq(|stack|, a requires 0 <= a < |stack| => stack[a].frame)
  }

  /** Every frame carries the state its prefix leads to. */
  ghost predicate InStep<S>(dfa: Dfa<S>, start: S, stack: seq<Guided<S>>) {
    forall a {:trigger stack[a]} :: 0 <= a < |stack| ==> stack[a].state == Run(dfa, start, stack[a].frame.prefix)
  }

  /** The live keys the automaton accepts. */
  ghost function Wanted<S>(dfa: Dfa<S>, start: S, store: Store, now: nat): set<Key> {
    set k | k in store && Live(store, now, k) && Accepts(dfa, start, k)
  }

  /** Of those, the ones no frame on the stack leads to any more. */
  ghost function Served<S>(dfa: Dfa<S>, start: S, store: Store, now: nat, stack: seq<Guided<S>>): set<Key> {
    set k | k in Wanted(dfa, start, store, now) && !Waiting(Plain(stack), k)
  }

  // ---- Pruning ---------------------------------------------------------------------------

  /** The edges on which the automaton stays alive, in order. */
  function Alive<S>(dfa: Dfa<S>, s: S, es: seq<ChildTiers.Edge>): seq<ChildTiers.Edge> {
    if es == [] then []
    else Alive(dfa, s, es[..|es| - 1]) + if dfa.isDead(dfa.next(s, Last(es).radix)) then [] else [Last(es)]
  }

  lemma {:induction false} AliveEdges<S>(dfa: Dfa<S>, s: S, es: seq<ChildTiers.Edge>)
    ensures forall e :: e in Alive(dfa, s, es) <==> e in es && !dfa.isDead(dfa.next(s, e.radix))
    decreases |es|
  {
    if es != [] {
      AliveEdges(dfa, s, es[..|es| - 1]);
      assert es == es[..|es| - 1] + [Last(es)];
    }
  }

  ghost predicate Distinct(es: seq<ChildTiers.Edge>) {
    forall i, j :: 0 <= i < j < |es| ==> es[i].radix != es[j].radix
  }

  lemma {:induction false} AliveDistinct<S>(dfa: Dfa<S>, s: S, es: seq<ChildTiers.Edge>)
    requires Distinct(es)
    ensures Distinct(Alive(dfa, s, es))
    decreases |es|
  {
    if es != [] {
      var init := es[..|es| - 1];
      AliveDistinct(dfa, s, init);
      AliveEdges(dfa, s, init);
      var xs := Alive(dfa, s, init);
      forall i | 0 <= i < |xs| ensures xs[i].radix != Last(es).radix {
        assert xs[i] in init;
        var j :| 0 <= j < |init| && init[j] == xs[i];
        assert es[j].radix != es[|es| - 1].radix;
      }
      assert Distinct(xs + [Last(es)]);
      assert xs + [] == xs;
    }
  }

  lemma AlivePicks<S>(dfa: Dfa<S>, s: S, es: seq<ChildTiers.Edge>, kids: ChildTiers.Table)
    requires ChildTiers.Lists(es, kids)
    ensures ChildTiers.Picks(Alive(dfa, s, es), kids)
  {
    var xs := Alive(dfa, s, es);
    AliveEdges(dfa, s, es);
    forall i, j | 0 <= i < j < |es| ensures es[i].radix != es[j].radix { ChildTiers.ListsDistinct(es, kids, i, j); }
    AliveDistinct(dfa, s, es);
    forall k | 0 <= k < |xs| ensures xs[k].radix in kids && kids[xs[k].radix] == xs[k].idx {
      assert xs[k] in es;
      var j :| 0 <= j < |es| && es[j] == xs[k];
    }
    assert Distinct(xs);
    ChildTiers.PicksIntro(xs, kids);
  }

  /** A wanted key below the visited node is its own or below a kept child. */
  lemma WantedNext<S(!new)>(dfa: Dfa<S>, start: S, f: Grove, root: Idx, store: Store, i: Idx, es: seq<ChildTiers.Edge>, k: Key)
    requires DeadIsFinal(dfa) && IsTree(f, root) && Represents(f, store) && i in f && ChildTiers.Lists(es, f[i].kids)
    requires k in store && f[i].lab <= k && Accepts(dfa, start, k) && k != Full(f[i])
    ensures exists e :: e in Alive(dfa, Run(dfa, start, Full(f[i])), es) && Full(f[i]) + [e.radix] <= k
  {
    hide IsTree, Represents, ChildTiers.Lists;
    var base := Full(f[i]);
    NextChild(f, root, store, i, es, k);
    var d :| 0 <= d < |es| && base + [es[d].radix] <= k;
    RunStep(dfa, start, base, es[d].radix);
    if dfa.isDead(Run(dfa, start, base + [es[d].radix])) { DeadPrefix(dfa, start, base + [es[d].radix], k); }
    AliveEdges(dfa, Run(dfa, start, base), es);
    assert es[d] in es;
  }

  // ---- The traversal --------------------------------------------------------------------------

  /** Feed a compression to the automaton; None as soon as it is dead. */
  method Feed<S(!new)>(dfa: Dfa<S>, s: S, comp: Key, ghost start: S, ghost prefix: Key) returns (res: Option<S>)
    requires DeadIsFinal(dfa) && s == Run(dfa, start, prefix)
    ensures res.Some? ==> res.value == Run(dfa, start, prefix + comp)
    ensures res.None? ==> dfa.isDead(Run(dfa, start, prefix + comp))
  {
    var state := s;
    assert prefix + comp[..0] == prefix;
    for b := 0 to |comp|
      invariant state == Run(dfa, start, prefix + comp[..b])
    {
      assert prefix + comp[..b + 1] == prefix + comp[..b] + [comp[b]];
      RunStep(dfa, start, prefix + comp[..b], comp[b]);
      state := dfa.next(state, comp[b]);
      if dfa.isDead(state) {
        assert prefix + comp[..b + 1] <= prefix + comp;
        DeadPrefix(dfa, start, prefix + comp[..b + 1], prefix + comp);
        return None;
      }
    }
    assert comp[..|comp|] == comp;
    return Some(state);
  }

  function Push<S>(dfa: Dfa<S>, base: Key, s: S, es: seq<ChildTiers.Edge>): seq<Guided<S>> {
    seq(|es|, k requires 0 <= k < |es| => Guided(Frame(es[k].idx, base + [es[k].radix]), dfa.next(s, es[k].radix)))
  }

  /** The stack after a visit: the kept children replace the top. */
  lemma PlainPush<S>(dfa: Dfa<S>, rest: seq<Guided<S>>, top: Guided<S>, base: Key, s: S, es: seq<ChildTiers.Edge>)
    ensures Plain(rest + [top]) == Plain(rest) + [top.frame]
    ensures Plain(rest + Push(dfa, base, s, es)) == Plain(rest) + Frames(base, es)
    ensures Plain(rest + []) == Plain(rest) + Frames(base, [])
  {
  }

  lemma PushInStep<S>(dfa: Dfa<S>, start: S, rest: seq<Guided<S>>, top: Guided<S>, base: Key, s: S, es: seq<ChildTiers.Edge>)
    requires InStep(dfa, start, rest + [top]) && s == Run(dfa, start, base)
    ensures InStep(dfa, start, rest) && InStep(dfa, start, rest + Push(dfa, base, s, es))
    ensures top.state == Run(dfa, start, top.frame.prefix)
  {
    var was, now := rest + [top], rest + Push(dfa, base, s, es);
    assert was[|rest|] == top;
    forall a | 0 <= a < |rest| ensures rest[a].state == Run(dfa, start, rest[a].frame.prefix) { assert was[a] == rest[a]; }
    forall a | 0 <= a < |now| ensures now[a].state == Run(dfa, start, now[a].frame.prefix) {
      if a < |rest| { assert now[a] == rest[a]; } else { RunStep(dfa, start, base, es[a - |rest|].radix); }
    }
  }

  /** A visit serves exactly the visited key, if it is wanted. */
  lemma ServedMore<S(!new)>(dfa: Dfa<S>, start: S, f: Grove, root: Idx, store: Store, now: nat,
                            rest: seq<Guided<S>>, top: Guided<S>, es: seq<ChildTiers.Edge>, stack': seq<Guided<S>>)
    requires DeadIsFinal(dfa) && IsTree(f, root) && Represents(f, store) && top.frame.idx in f
    requires StackOk(f, Plain(rest) + [top.frame]) && ChildTiers.Lists(es, f[top.frame.idx].kids)
    requires Plain(rest + [top]) == Plain(rest) + [top.frame]
    requires var base := Full(f[top.frame.idx]);
             Plain(stack') == Plain(rest) + Frames(base, if dfa.isDead(Run(dfa, start, base)) then [] else Alive(dfa, Run(dfa, start, base), es))
    ensures var base := Full(f[top.frame.idx]);
            && base !in Served(dfa, start, store, now, rest + [top])
            && Served(dfa, start, store, now, stack') ==
               Served(dfa, start, store, now, rest + [top]) + if base in Wanted(dfa, start, store, now) then {base} else {}
  {
    hide IsTree, Represents, ChildTiers.Lists, StackOk;
    var base := Full(f[top.frame.idx]);
    var kept := if dfa.isDead(Run(dfa, start, base)) then [] else Alive(dfa, Run(dfa, start, base), es);
    var was, then_ := Plain(rest) + [top.frame], Plain(rest) + Frames(base, kept);
    TopLabel(f, Plain(rest), top.frame);
    assert was[|Plain(rest)|] == top.frame;
    assert Waiting(was, base);
    forall k | k in Wanted(dfa, start, store, now)
      ensures Waiting(then_, k) ==> Waiting(was, k) && k != base
      ensures Waiting(was, k) && k != base ==> Waiting(then_, k)
    {
      if Waiting(then_, k) { StackTop(f, Plain(rest), top.frame); VisitDone(f, Plain(rest), top.frame, kept, k); }
      if Waiting(was, k) && k != base { StillWaiting(dfa, start, f, root, store, Plain(rest), top.frame, es, k); }
    }
  }

  lemma TopLabel(f: Grove, rest: seq<Frame>, top: Frame)
    requires StackOk(f, rest + [top]) && top.idx in f
    ensures top.prefix == f[top.idx].lab && top.prefix <= Full(f[top.idx])
  {
    assert (rest + [top])[|rest|] == top;
  }

  lemma StillWaiting<S(!new)>(dfa: Dfa<S>, start: S, f: Grove, root: Idx, store: Store, rest: seq<Frame>, top: Frame,
                              es: seq<ChildTiers.Edge>, k: Key)
    requires DeadIsFinal(dfa) && IsTree(f, root) && Represents(f, store) && top.idx in f && StackOk(f, rest + [top])
    requires ChildTiers.Lists(es, f[top.idx].kids) && k in store && Accepts(dfa, start, k) && k != Full(f[top.idx]) && Waiting(rest + [top], k)
    ensures var base := Full(f[top.idx]);
            Waiting(rest + Frames(base, if dfa.isDead(Run(dfa, start, base)) then [] else Alive(dfa, Run(dfa, start, base), es)), k)
  {
    hide IsTree, Represents, ChildTiers.Lists;
    var base := Full(f[top.idx]);
    var kept := if dfa.isDead(Run(dfa, start, base)) then [] else Alive(dfa, Run(dfa, start, base), es);
    var now := rest + Frames(base, kept);
    var a :| 0 <= a < |rest + [top]| && (rest + [top])[a].prefix <= k;
    if a < |rest| {
      assert now[a] == rest[a];
    } else {
      TopLabel(f, rest, top);
      WantedNext(dfa, start, f, root, store, top.idx, es, k);
      var e :| e in Alive(dfa, Run(dfa, start, base), es) && base + [e.radix] <= k;
      if dfa.isDead(Run(dfa, start, base)) { DeadPrefix(dfa, start, base, k); }
      var d :| 0 <= d < |kept| && kept[d] == e;
      assert now[|rest| + d].prefix <= k;
    }
  }

  lemma {:induction false} NoneAlive<S(!new)>(dfa: Dfa<S>, s: S, es: seq<ChildTiers.Edge>)
    requires DeadIsFinal(dfa) && dfa.isDead(s)
    ensures Alive(dfa, s, es) == []
    decreases |es|
  {
    if es != [] { NoneAlive(dfa, s, es[..|es| - 1]); }
  }

  /** The state of the traversal: what is on the stack and what was reported. */
  ghost predicate GuidedOk<S>(dfa: Dfa<S>, start: S, t: Trunk, now: nat, stack: seq<Guided<S>>, out: seq<Pair>) {
    && StackOk(t.tree, Plain(stack)) && InStep(dfa, start, stack)
    && Reports(out, t.store, Served(dfa, start, t.store, now, stack))
  }

  /** Visit the popped frame. */
  method Visit<S(!new)>(h: Heap, root: Idx, now: nat, dfa: Dfa<S>, rest: seq<Guided<S>>, top: Guided<S>, out: seq<Pair>, ghost start: S, ghost t: Trunk)
    returns (stack': seq<Guided<S>>, out': seq<Pair>)
    requires ArtOk(h, root, t) && DeadIsFinal(dfa) && GuidedOk(dfa, start, t, now, rest + [top], out)
    requires top.frame.idx in t.tree && top.frame.idx in h.nodes
    ensures GuidedOk(dfa, start, t, now, stack', out')
    ensures |Ahead(t.tree, Plain(stack'))| < |Ahead(t.tree, Plain(rest + [top]))|
  {
    hide HeapOk, IsTree, Represents, StackOk, Reports, Served, Ahead, ChildTiers.Picks, InStep;
    var i := top.frame.idx;
    TreeNode(h, root, t, i);
    PlainPush(dfa, rest, top, [], top.state, []);
    StackTop(t.tree, Plain(rest), top.frame);
    TopLabel(t.tree, Plain(rest), top.frame);
    PushInStep(dfa, start, rest, top, top.frame.prefix, Run(dfa, start, top.frame.prefix), []);
    var base := top.frame.prefix + h.nodes[i].comp;
    var state := Feed(dfa, top.state, h.nodes[i].comp, start, top.frame.prefix);
    var es := IterChildren(h, i, t.layout, t.tree + t.loose);
    out' := out;
    ghost var was := Served(dfa, start, t.store, now, rest + [top]);
    assert was + {} == was;
    if state.None? {
      stack' := rest;
      PlainPush(dfa, rest, top, base, top.state, []);
      assert rest + [] == rest;
      VisitStack(t.tree, root, Plain(rest), top.frame, []);
      VisitShrinks(t.tree, root, Plain(rest), top.frame, []);
      ServedMore(dfa, start, t.tree, root, t.store, now, rest, top, es, stack');
      NotWanted(dfa, start, t.store, now, base);
    } else {
      var s := state.value;
      var kept := Alive(dfa, s, es);
      stack' := rest + Push(dfa, base, s, kept);
      AlivePicks(dfa, s, es, t.tree[i].kids);
      if dfa.isDead(s) { NoneAlive(dfa, s, es); }
      PlainPush(dfa, rest, top, base, s, kept);
      PushInStep(dfa, start, rest, top, base, s, kept);
      VisitStack(t.tree, root, Plain(rest), top.frame, kept);
      VisitShrinks(t.tree, root, Plain(rest), top.frame, kept);
      ServedMore(dfa, start, t.tree, root, t.store, now, rest, top, es, stack');
      assert Accepts(dfa, start, base) <==> dfa.isMatch(dfa.eoi(s));
      assert base in Wanted(dfa, start, t.store, now) <==> Live(t.store, now, base) && Accepts(dfa, start, base);
      if dfa.isMatch(dfa.eoi(s)) {
        var found := VisitNode(h, root, now, i, base, t);
        ReportsAppend(out, found, t.store, was, if Live(t.store, now, base) then {base} else {});
        out' := out + found;
      }
    }
  }

  lemma NotWanted<S(!new)>(dfa: Dfa<S>, start: S, store: Store, now: nat, base: Key)
    requires DeadIsFinal(dfa) && dfa.isDead(Run(dfa, start, base))
    ensures base !in Wanted(dfa, start, store, now)
  {
    DeadPrefix(dfa, start, base, base);
  }

  /** The states that a key leads through, one for each byte. */
  ghost predicate Trace<S>(dfa: Dfa<S>, start: S, key: Key, states: seq<S>) {
    && |states| == |key| + 1 && states[0] == start
    && forall b {:trigger key[b]} :: 0 <= b < |key| ==> states[b + 1] == dfa.next(states[b], key[b])
  }

  lemma {:induction false} TraceEnds<S>(dfa: Dfa<S>, start: S, key: Key, states: seq<S>)
    requires Trace(dfa, start, key, states)
    ensures Last(states) == Run(dfa, start, key)
    decreases |key|
  {
    if key != [] {
      var n := |key| - 1;
      forall b | 0 <= b < n ensures states[..n + 1][b + 1] == dfa.next(states[..n + 1][b], key[..n][b]) { assert key[..n][b] == key[b]; }
      TraceEnds(dfa, start, key[..n], states[..n + 1]);
      assert states[n + 1] == dfa.next(states[n], key[n]);
    }
  }

  /** The listing spelled out: a stored pair is in it exactly if its time has not
   *  passed and the state that the key's bytes lead to matches at the end of input. */
  lemma CollectedMeans<S>(out: seq<Pair>, store: Store, now: nat, dfa: Dfa<S>, start: S, k: Key, v: Value, states: seq<S>)
    requires Reports(out, store, Wanted(dfa, start, store, now))
    requires |states| == |k| + 1 && states[0] == start && forall b :: 0 <= b < |k| ==> states[b + 1] == dfa.next(states[b], k[b])
    ensures (exists i :: 0 <= i < |out| && out[i] == Pair(k, v)) <==>
              && k in store && store[k].val == v && (store[k].exp == 0xFF_FFFF_FFFF_FFFF || now <= store[k].exp)
              && dfa.isMatch(dfa.eoi(states[|k|]))
    ensures forall i, j :: 0 <= i < j < |out| ==> out[i].key != out[j].key
  {
    TraceEnds(dfa, start, k, states);
    if k in Wanted(dfa, start, store, now) {
      assert k in KeysOf(out);
      var p :| p in out && p.key == k;
      var i :| 0 <= i < |out| && out[i] == p;
      assert store[out[i].key].val == out[i].val;
    }
    if i :| 0 <= i < |out| && out[i] == Pair(k, v) { assert out[i] in out && out[i].key in KeysOf(out); }
  }

  /** Pruned traversal equals the filter: exactly the live entries whose whole
   *  key the automaton accepts, each once. */
  method CollectRegex<S(!new)>(h: Heap, root: Idx, now: nat, dfa: Dfa<S>, start: S, ghost t: Trunk) returns (out: seq<Pair>)
    requires ArtOk(h, root, t)
    requires forall s {:trigger dfa.eoi(s)} :: dfa.isDead(s) ==> !dfa.isMatch(dfa.eoi(s))
    requires forall s, b {:trigger dfa.next(s, b)} :: dfa.isDead(s) ==> dfa.isDead(dfa.next(s, b))
    ensures Reports(out, t.store, Wanted(dfa, start, t.store, now))
  {
    hide ArtOk, GuidedOk, Reports, Wanted, Ahead;
    var stack := [Guided(Frame(root, []), start)];
    out := [];
    Begins(h, root, now, dfa, start, t);
    while stack != []
      invariant GuidedOk(dfa, start, t, now, stack, out)
      decreases |Ahead(t.tree, Plain(stack))|, |stack|
    {
      var top, rest := Last(stack), stack[..|stack| - 1];
      assert stack == rest + [top];
      GuidedTop(h, root, now, dfa, start, t, rest, top, out);
      if top.frame.idx in h.nodes {
        stack, out := Visit(h, root, now, dfa, rest, top, out, start, t);
      }
    }
    Ends(dfa, start, t, now, out);
  }

  lemma Begins<S(!new)>(h: Heap, root: Idx, now: nat, dfa: Dfa<S>, start: S, t: Trunk)
    requires ArtOk(h, root, t)
    ensures GuidedOk(dfa, start, t, now, [Guided(Frame(root, []), start)], [])
  {
    hide HeapOk, Represents;
    var stack := [Guided(Frame(root, []), start)];
    var plain := Plain(stack);
    assert plain == [Frame(root, [])];
    forall k ensures Waiting(plain, k) { assert plain[0].prefix <= k; }
    assert Served(dfa, start, t.store, now, stack) == {};
    NothingReported(t.store);
  }

  lemma GuidedTop<S>(h: Heap, root: Idx, now: nat, dfa: Dfa<S>, start: S, t: Trunk, rest: seq<Guided<S>>, top: Guided<S>, out: seq<Pair>)
    requires ArtOk(h, root, t) && GuidedOk(dfa, start, t, now, rest + [top], out)
    ensures top.frame.idx in t.tree && top.frame.idx in h.nodes
  {
    hide HeapOk, IsTree, Represents, Reports, Served, InStep;
    assert Plain(rest + [top])[|rest|] == top.frame;
    TreeNode(h, root, t, top.frame.idx);
  }

  lemma Ends<S>(dfa: Dfa<S>, start: S, t: Trunk, now: nat, out: seq<Pair>)
    requires GuidedOk(dfa, start, t, now, [], out)
    ensures Reports(out, t.store, Wanted(dfa, start, t.store, now))
  {
    hide Reports, Wanted;
    assert Plain<S>([]) == [];
    assert forall k :: !Waiting([], k);
    assert Served(dfa, start, t.store, now, []) == Wanted(dfa, start, t.store, now);
  }
}
