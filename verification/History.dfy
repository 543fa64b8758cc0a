/** What every run answers, read off the commands before it. */
module History {
  import opened Basics
  import opened Scan
  import opened Art
  import opened Roots
  import opened Executor

  /** What the commands so far have left under one key: its last value and expiry
   *  word, unless it was deleted or found expired since. */
  ghost function Fate(events: seq<Event>, k: Key): Option<Entry>
    decreases |events|
  {
    if events == [] then None
    else
      var before := events[..|events| - 1];
      match Last(events)
      case Set(j, v) => if j == k then Some(Entry(v, 0xFF_FFFF_FFFF_FFFF)) else Fate(before, k)
      case SetTtl(j, ttl, v) =>
        var due := ClockAfter(before) + ttl;
        if j == k && due < 0x100_0000_0000_0000 then Some(Entry(v, due)) else Fate(before, k)
      case Get(j) => if j == k && !Alive(Fate(before, k), ClockAfter(before)) then None else Fate(before, k)
      case Del(j) => if j == k then None else Fate(before, k)
      case Deln(p) => if p <= k then None else Fate(before, k)
      case DelnAsync(p) => if p <= k && (p != [] || k != []) then None else Fate(before, k)
      case _ => Fate(before, k)
  }

  predicate Alive(e: Option<Entry>, now: nat) {
    e.Some? && (now <= e.value.exp || e.value.exp == 0xFF_FFFF_FFFF_FFFF)
  }

  /** The store holds what the commands have left. */
  ghost predicate Tells(events: seq<Event>, s: Spec) {
    && s.now == ClockAfter(events)
    && forall k {:trigger Fate(events, k)} :: Fate(events, k) == if k in s.store then Some(s.store[k]) else None
  }

  lemma NextTells(events: seq<Event>, s: Spec, e: Event, o: Output, s': Spec)
    requires Tells(events, s) && Step(s, e, o, s')
    ensures Tells(events + [e], s')
  {
    hide Agrees, Works;
    var more := events + [e];
    assert more[..|events|] == events && Last(more) == e;
    forall k ensures Fate(more, k) == if k in s'.store then Some(s'.store[k]) else None {
      assert Fate(events, k) == if k in s.store then Some(s.store[k]) else None;
    }
  }

  lemma {:induction false} RunTells(trace: seq<Spec>, events: seq<Event>, outs: seq<Output>, n: nat)
    requires IsRun(trace, events, outs) && trace[0] == Spec(map[], 0, [], []) && n <= |events|
    ensures Tells(events[..n], trace[n])
  {
    hide Step;
    if n == 0 {
      assert events[..0] == [];
    } else {
      RunTells(trace, events, outs, n - 1);
      assert Step(trace[n - 1], events[n - 1], outs[n - 1], trace[n]);
      NextTells(events[..n - 1], trace[n - 1], events[n - 1], outs[n - 1], trace[n]);
      assert events[..n - 1] + [events[n - 1]] == events[..n];
    }
  }

  /** The keys that the commands so far have left under a prefix. */
  ghost predicate LeftUnder(ks: set<Key>, events: seq<Event>, p: Key) {
    forall k :: k in ks <==> p <= k && Fate(events, k).Some?
  }

  /** Every answer in every run. A `get` gives the value last stored under its key
   *  if its time has not passed; a `del` gives it whether or not; a `getn` lists the
   *  live matches; a `deln` counts the matches; a `deln_async` that answers at once
   *  does too, the empty key excepted, which counts only while it lives. */
  lemma RunAnswers(trace: seq<Spec>, events: seq<Event>, outs: seq<Output>, i: nat)
    requires IsRun(trace, events, outs) && trace[0] == Spec(map[], 0, [], []) && i < |events|
    ensures var before, now := events[..i], ClockAfter(events[..i]);
            match events[i]
            case Get(k) => outs[i] == Answer(if Alive(Fate(before, k), now) then Some(Fate(before, k).value.val) else None)
            case Del(k) => outs[i] == Answer(if Fate(before, k).Some? then Some(Fate(before, k).value.val) else None)
            case Getn(p) =>
              && outs[i].Listing?
              && (forall a, b :: 0 <= a < b < |outs[i].pairs| ==> outs[i].pairs[a].key != outs[i].pairs[b].key)
              && (forall k, v :: Pair(k, v) in outs[i].pairs <==> p <= k && Alive(Fate(before, k), now) && Fate(before, k).value.val == v)
            case Deln(p) => exists ks :: LeftUnder(ks, before, p) && outs[i] == Count(|ks|)
            case DelnAsync(p) =>
              exists ks :: LeftUnder(ks, before, p)
                && (outs[i] == Suspended
                    || outs[i] == Count(if p == [] && [] in ks && !Alive(Fate(before, []), now) then |ks| - 1 else |ks|))
            case _ => true
  {
    hide Next, Works, Reports, Below;
    var before, s := events[..i], trace[i];
    RunTells(trace, events, outs, i);
    assert Step(s, events[i], outs[i], trace[i + 1]);
    match events[i] {
      case Get(k) => assert Fate(before, k) == if k in s.store then Some(s.store[k]) else None;
      case Del(k) => assert Fate(before, k) == if k in s.store then Some(s.store[k]) else None;
      case Getn(p) => ListingTells(before, s, p, outs[i].pairs);
      case Deln(p) => MatchingTells(before, s, p);
      case DelnAsync(p) =>
        MatchingTells(before, s, p);
        PromiseTells(before, s, p);
      case _ =>
    }
  }

  lemma ListingTells(before: seq<Event>, s: Spec, p: Key, out: seq<Pair>)
    requires Tells(before, s) && Reports(out, s.store, Below(s.store, s.now, p))
    ensures forall a, b :: 0 <= a < b < |out| ==> out[a].key != out[b].key
    ensures forall k, v ::
              Pair(k, v) in out <==> p <= k && Alive(Fate(before, k), ClockAfter(before)) && Fate(before, k).value.val == v
  {
    hide Reports, Below;
    forall k, v ensures Pair(k, v) in out <==> p <= k && Alive(Fate(before, k), ClockAfter(before)) && Fate(before, k).value.val == v {
      ListedMeans(out, s.store, s.now, p, k, v);
      assert Fate(before, k) == if k in s.store then Some(s.store[k]) else None;
    }
    forall a, b | 0 <= a < b < |out| ensures out[a].key != out[b].key { ListedMeans(out, s.store, s.now, p, out[a].key, out[a].val); }
  }

  lemma MatchingTells(before: seq<Event>, s: Spec, p: Key)
    requires Tells(before, s)
    ensures LeftUnder(Matching(s.store, p).Keys, before, p) && |Matching(s.store, p)| == |Matching(s.store, p).Keys|
  {
    forall k ensures k in Matching(s.store, p).Keys <==> p <= k && Fate(before, k).Some? {
      assert Fate(before, k) == if k in s.store then Some(s.store[k]) else None;
    }
  }

  lemma PromiseTells(before: seq<Event>, s: Spec, p: Key)
    requires Tells(before, s)
    ensures var ks := Matching(s.store, p).Keys;
            Promise(s.store, s.now, p) == if p == [] && [] in ks && !Alive(Fate(before, []), s.now) then |ks| - 1 else |ks|
  {
    assert Fate(before, []) == if [] in s.store then Some(s.store[[]]) else None;
    if p == [] {
      assert Matching(s.store, p) == s.store;
      OthersCount(s.store);
    }
  }

  // ---- Polls ---------------------------------------------------------------------------------

  /** How many deletions were launched. */
  function Launched(events: seq<Event>): nat {
    if events == [] then 0 else Launched(events[..|events| - 1]) + if Last(events).DelnAsync? then 1 else 0
  }

  lemma OnePromiseMore(s: Spec, e: Event, o: Output, s': Spec)
    requires Step(s, e, o, s')
    ensures var one := if e.DelnAsync? then 1 else 0;
            |s'.promised| == |s.promised| + one && |s'.left| == |s.left| + one
  {
    hide Agrees, Promise;
  }

  lemma {:induction false} OnePromiseEach(trace: seq<Spec>, events: seq<Event>, outs: seq<Output>, n: nat)
    requires IsRun(trace, events, outs) && trace[0] == Spec(map[], 0, [], []) && n <= |events|
    ensures |trace[n].promised| == |trace[n].left| == Launched(events[..n])
  {
    hide Step;
    if n > 0 {
      OnePromiseEach(trace, events, outs, n - 1);
      assert Step(trace[n - 1], events[n - 1], outs[n - 1], trace[n]);
      OnePromiseMore(trace[n - 1], events[n - 1], outs[n - 1], trace[n]);
      assert events[..n][..n - 1] == events[..n - 1];
    }
  }

  lemma {:induction false} PromisesStay(trace: seq<Spec>, events: seq<Event>, outs: seq<Output>, j: nat, i: nat)
    requires IsRun(trace, events, outs) && trace[0] == Spec(map[], 0, [], []) && j < i <= |events| && events[j].DelnAsync?
    ensures var a := Launched(events[..j]);
            a < |trace[i].promised| && trace[i].promised[a] == Promise(trace[j].store, trace[j].now, events[j].prefix)
    decreases i - j
  {
    hide Agrees, Works, Promise;
    assert Step(trace[i - 1], events[i - 1], outs[i - 1], trace[i]);
    if i == j + 1 { OnePromiseEach(trace, events, outs, j); } else { PromisesStay(trace, events, outs, j, i - 1); }
  }

  /** A later poll of a `deln_async` frees 256 nodes if more are left, and otherwise
   *  the rest; it answers exactly then, with the number of keys that the commands
   *  before the call had left under the prefix. */
  lemma PollAnswers(trace: seq<Spec>, events: seq<Event>, outs: seq<Output>, j: nat, i: nat)
    requires IsRun(trace, events, outs) && trace[0] == Spec(map[], 0, [], []) && j < i < |events|
    requires events[j].DelnAsync? && events[i] == Poll(Launched(events[..j]))
    ensures var before, now, p := events[..j], ClockAfter(events[..j]), events[j].prefix;
            exists ks :: LeftUnder(ks, before, p)
              && (outs[i] == Suspended
                  || outs[i] == Count(if p == [] && [] in ks && !Alive(Fate(before, []), now) then |ks| - 1 else |ks|))
    ensures var a := Launched(events[..j]);
            && a < |trace[i].left| && a < |trace[i + 1].left|
            && (outs[i] == Suspended <==> trace[i].left[a] > 256)
            && trace[i + 1].left[a] == if trace[i].left[a] > 256 then trace[i].left[a] - 256 else 0
  {
    hide Next, Promise, Fate;
    var before, p := events[..j], events[j].prefix;
    RunTells(trace, events, outs, j);
    MatchingTells(before, trace[j], p);
    PromiseTells(before, trace[j], p);
    OnePromiseEach(trace, events, outs, i);
    PromisesStay(trace, events, outs, j, i);
    assert Step(trace[i], events[i], outs[i], trace[i + 1]);
  }
}
