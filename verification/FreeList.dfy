/** Intrusive free lists: the links stored in the free slots of a vector.
 *
 * `link` gives the next-free field of every free slot, `list` the free slots
 * from the end of the list to its head, and `depth` the position of a slot in
 * `list`. */
module FreeList {
  import opened Basics

  ghost predicate LinkOk(link: map<nat, Option<nat>>, depth: map<nat, nat>, list: seq<nat>, s: nat)
    requires s in depth && s in link
  {
    && depth[s] < |list| && list[depth[s]] == s
    && link[s] == if depth[s] == 0 then None else Some(list[depth[s] - 1])
  }

  ghost function HeadOf(list: seq<nat>): Option<nat> {
    if list == [] then None else Some(Last(list))
  }

  /** The list from `head` threads exactly the slots of `link`, each once. */
  ghost predicate Threaded(link: map<nat, Option<nat>>, head: Option<nat>, depth: map<nat, nat>, list: seq<nat>) {
    && link.Keys == depth.Keys
    && (forall s {:trigger LinkOk(link, depth, list, s)} :: s in depth ==> LinkOk(link, depth, list, s))
    && (forall k {:trigger list[k]} :: 0 <= k < |list| ==> list[k] in depth && depth[list[k]] == k)
    && head == HeadOf(list)
  }

  lemma DropSize<V>(m: map<nat, V>, s: nat)
    requires s in m
    ensures |m - {s}| == |m| - 1
  {
    assert (m - {s}).Keys == m.Keys - {s};
  }

  lemma AddSize<V>(m: map<nat, V>, s: nat, v: V)
    requires s !in m
    ensures |m[s := v]| == |m| + 1
  {
    assert m[s := v].Keys == m.Keys + {s};
  }

  lemma KeepSize<V>(m: map<nat, V>, s: nat, v: V)
    requires s in m
    ensures |m[s := v]| == |m|
  {
    assert m[s := v].Keys == m.Keys;
  }

  lemma HeadListed(link: map<nat, Option<nat>>, head: Option<nat>, depth: map<nat, nat>, list: seq<nat>)
    requires Threaded(link, head, depth, list) && head.Some?
    ensures list != [] && head == Some(Last(list)) && Last(list) in link
  {
    assert list[|list| - 1] == Last(list);
  }

  /** Unlinking the head. */
  lemma Pop(link: map<nat, Option<nat>>, head: Option<nat>, depth: map<nat, nat>, list: seq<nat>)
    requires Threaded(link, head, depth, list) && head.Some?
    ensures head.value in link
    ensures Threaded(link - {head.value}, link[head.value], depth - {head.value}, list[..|list| - 1])
  {
    var h := head.value;
    assert list[|list| - 1] == h;
    assert LinkOk(link, depth, list, h);
    forall s | s in depth && s != h ensures LinkOk(link - {h}, depth - {h}, list[..|list| - 1], s) { assert LinkOk(link, depth, list, s); }
  }

  /** Linking a slot in front. */
  lemma Push(link: map<nat, Option<nat>>, head: Option<nat>, depth: map<nat, nat>, list: seq<nat>, s: nat)
    requires Threaded(link, head, depth, list) && s !in link
    ensures Threaded(link[s := head], Some(s), depth[s := |list|], list + [s])
  {
    var link', depth', list' := link[s := head], depth[s := |list|], list + [s];
    forall q | q in depth' ensures LinkOk(link', depth', list', q) {
      if q != s { assert LinkOk(link, depth, list, q); }
    }
  }

  /** Following the links from `head` visits `list` backwards and stops. */
  ghost predicate Follows(link: map<nat, Option<nat>>, head: Option<nat>, list: seq<nat>)
    decreases |list|
  {
    if list == [] then head.None?
    else head == Some(Last(list)) && Last(list) in link && Follows(link, link[Last(list)], list[..|list| - 1])
  }

  /** Following the links visits every free slot exactly once and then stops:
   *  the free list is acyclic and complete. */
  lemma {:induction false} Walk(link: map<nat, Option<nat>>, head: Option<nat>, depth: map<nat, nat>, list: seq<nat>)
    requires Threaded(link, head, depth, list)
    ensures Follows(link, head, list) && NoDup(list) && Elems(list) == link.Keys
    decreases |list|
  {
    if list != [] {
      Pop(link, head, depth, list);
      Walk(link - {head.value}, link[head.value], depth - {head.value}, list[..|list| - 1]);
      FollowsMore(link - {head.value}, link, link[head.value], list[..|list| - 1]);
    }
    forall s | s in link ensures s in list { assert LinkOk(link, depth, list, s); }
  }

  lemma {:induction false} FollowsMore(link: map<nat, Option<nat>>, link': map<nat, Option<nat>>, head: Option<nat>, list: seq<nat>)
    requires Follows(link, head, list) && forall s :: s in link ==> s in link' && link'[s] == link[s]
    ensures Follows(link', head, list)
    decreases |list|
  {
    if list != [] { FollowsMore(link, link', link[Last(list)], list[..|list| - 1]); }
  }
}
