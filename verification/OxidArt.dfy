/** The store as the mutable object its callers see. Every method is one
 *  operation of the tree on the object's own slab, and its contract is the same
 *  operation on a plain map from keys to values with expiries. */
module OxidArt {
  import opened Basics
  import opened Forest
  import opened Heap
  import opened Art
  import opened Scan
  import opened Roots
  import opened Reachability

  class OxidArt {
    var heap: Heap
    const root: Idx
    var now: nat
    ghost var trunk: Trunk

    /** No deletion is pending between calls. */
    ghost predicate Valid() reads this {
      ArtOk(heap, root, trunk) && trunk.loose == map[]
    }

    /** What the object stands for. */
    ghost function Store(): map<Key, Entry> reads this {
      trunk.store
    }

    /** The slab may give the root any index. */
    constructor (rootIdx: Idx)
      ensures Valid() && Store() == map[] && now == 0
    {
      var h;
      ghost var t;
      h, t := New(rootIdx);
      heap, root, now, trunk := h, rootIdx, 0, t;
    }

    method SetNow(t: nat)
      requires Valid()
      modifies this`now
      ensures Valid() && now == t && Store() == old(Store())
    {
      hide ArtOk;
      now := t;
    }

    method Set(key: Key, val: Value)
      requires Valid()
      modifies this`heap, this`trunk
      ensures Valid() && Store() == old(Store())[key := Entry(val, 0xFF_FFFF_FFFF_FFFF)]
    {
      hide ArtOk;
      var h;
      ghost var t;
      h, t := SetInternal(heap, root, key, NO_EXPIRY, val, trunk);
      heap, trunk := h, t;
    }

    /** The expiry must fit in 56 bits, as RadixOx asserts. */
    method SetTtl(key: Key, seconds: nat, val: Value)
      requires Valid() && now + seconds < 0x100_0000_0000_0000
      modifies this`heap, this`trunk
      ensures Valid() && Store() == old(Store())[key := Entry(val, now + seconds)]
    {
      hide ArtOk;
      var h;
      ghost var t;
      h, t := SetInternal(heap, root, key, now + seconds, val, trunk);
      heap, trunk := h, t;
    }

    /** An expired entry is gone after the lookup; nothing else changes, and
     *  nobody can tell at this or any later time. Only an expired empty key can
     *  break the object, and exactly when `GetBreaks` says so. */
    method Get(key: Key) returns (res: Option<Value>)
      requires Valid()
      modifies this`heap, this`trunk
      ensures res == if Live(old(Store()), now, key) then Some(old(Store())[key].val) else None
      ensures forall v :: res == Some(v) <==>
                key in old(Store()) && old(Store())[key].val == v && (now <= old(Store())[key].exp || old(Store())[key].exp == 0xFF_FFFF_FFFF_FFFF)
      ensures old(!GetBreaks(heap, root, now, key)) ==>
                && Valid() && SameAnswers(old(Store()), Store(), now)
                && Store() == if key in old(Store()) && !Live(old(Store()), now, key) then old(Store()) - {key} else old(Store())
      ensures old(GetBreaks(heap, root, now, key)) ==> Broken(heap, root)
    {
      hide ArtOk, Broken;
      LiveMeans(Store(), now, key);
      var h;
      ghost var t;
      h, res, t := GetAny(heap, root, now, key, trunk);
      heap, trunk := h, t;
    }

    method GetTtl(key: Key) returns (res: TtlResult)
      requires Valid()
      ensures Live(Store(), now, key) ==>
                res == if Store()[key].exp == 0xFF_FFFF_FFFF_FFFF then KeyWithoutTtl else KeyWithTtl(Store()[key].exp - now)
      ensures key in Store() ==> (res == KeyNotExist <==> Store()[key].exp < now && Store()[key].exp != 0xFF_FFFF_FFFF_FFFF)
      ensures key in Store() && !Live(Store(), now, key) ==> res == KeyNotExist
      ensures key !in Store() ==>
                (res == KeyNotExist <==>
                 forall i :: i in trunk.tree && Full(trunk.tree[i]) == key ==> Expired(trunk.tree[i].exp, now))
    {
      hide ArtOk;
      res := Reachability.GetTtl(heap, root, now, key, trunk);
    }

    method Getn(prefix: Key) returns (out: seq<Pair>)
      requires Valid()
      ensures Reports(out, Store(), Below(Store(), now, prefix))
    {
      hide ArtOk;
      out := Scan.Getn(heap, root, now, prefix, trunk);
    }

    method Del(key: Key) returns (res: Option<Value>)
      requires Valid()
      modifies this`heap, this`trunk
      ensures res == if key in old(Store()) then Some(old(Store())[key].val) else None
      ensures old(!DelBreaks(heap, root, key)) ==> Valid() && Store() == old(Store()) - {key}
      ensures old(DelBreaks(heap, root, key)) ==> Broken(heap, root)
    {
      hide ArtOk, Broken;
      var h;
      ghost var t;
      h, res, t := DelAny(heap, root, key, trunk);
      heap, trunk := h, t;
    }

    method Deln(prefix: Key) returns (count: nat)
      requires Valid()
      modifies this`heap, this`trunk
      ensures count == |Matching(old(Store()), prefix)|
      ensures old(!DelnBreaks(heap, root, prefix)) ==> Valid() && Store() == Outside(old(Store()), prefix)
      ensures old(DelnBreaks(heap, root, prefix)) ==> Broken(heap, root)
    {
      hide ArtOk, Broken;
      var h;
      ghost var t;
      h, count, t := DelnAny(heap, root, prefix, trunk);
      heap, trunk := h, t;
    }

    /** The node of a key, made without a value if there is none yet: what the
     *  typed commands store into. Nobody can tell. */
    method EnsureKey(key: Key) returns (at: Idx)
      requires Valid()
      modifies this`heap, this`trunk
      ensures Valid() && Store() == old(Store()) && at in trunk.tree && Full(trunk.tree[at]) == key
    {
      hide ArtOk;
      var h;
      ghost var t;
      h, at, t := Art.EnsureKey(heap, root, key, trunk);
      heap, trunk := h, t;
    }
  }

  /** Time in numbers: a key stored at `now` for `seconds` lives up to and including
   *  the second `now + seconds`; the all-ones word is for ever. */
  method StoredFor(h: Heap, root: Idx, now: nat, key: Key, seconds: nat, val: Value, m: nat, ghost t: Trunk)
    returns (got: Option<Value>, ttl: TtlResult, listed: seq<Pair>)
    requires ArtOk(h, root, t) && now + seconds < 0x100_0000_0000_0000
    ensures var due := now + seconds; var alive := m <= due || due == 0xFF_FFFF_FFFF_FFFF;
            && got == (if alive then Some(val) else None)
            && ttl == (if !alive then KeyNotExist else if due == 0xFF_FFFF_FFFF_FFFF then KeyWithoutTtl else KeyWithTtl(due - m))
            && (alive <==> exists i :: 0 <= i < |listed| && listed[i] == Pair(key, val))
  {
    hide ArtOk;
    var h';
    ghost var t';
    h', t' := SetInternal(h, root, key, now + seconds, val, t);
    LiveMeans(t'.store, m, key);
    ttl := Reachability.GetTtl(h', root, m, key, t');
    listed := Scan.Getn(h', root, m, [], t');
    ListedMeans(listed, t'.store, m, [], key, val);
    h', got, t' := GetAny(h', root, m, key, t');
  }

  /** A key stored without a duration is there at every later time. */
  method StoredForEver(h: Heap, root: Idx, key: Key, val: Value, m: nat, ghost t: Trunk)
    returns (got: Option<Value>, ttl: TtlResult, listed: seq<Pair>)
    requires ArtOk(h, root, t)
    ensures got == Some(val) && ttl == KeyWithoutTtl && exists i :: 0 <= i < |listed| && listed[i] == Pair(key, val)
  {
    hide ArtOk;
    var h';
    ghost var t';
    h', t' := SetInternal(h, root, key, NO_EXPIRY, val, t);
    LiveMeans(t'.store, m, key);
    ttl := Reachability.GetTtl(h', root, m, key, t');
    listed := Scan.Getn(h', root, m, [], t');
    ListedMeans(listed, t'.store, m, [], key, val);
    h', got, t' := GetAny(h', root, m, key, t');
  }

  /** The same on the object. */
  method SetTtlThenGet(o: OxidArt, key: Key, seconds: nat, val: Value, m: nat) returns (got: Option<Value>, ttl: TtlResult)
    requires o.Valid() && o.now + seconds < 0x100_0000_0000_0000
    modifies o
    ensures var due := old(o.now) + seconds; var alive := m <= due || due == 0xFF_FFFF_FFFF_FFFF;
            && got == (if alive then Some(val) else None)
            && ttl == (if !alive then KeyNotExist else if due == 0xFF_FFFF_FFFF_FFFF then KeyWithoutTtl else KeyWithTtl(due - m))
  {
    hide ArtOk, Broken;
    o.SetTtl(key, seconds, val);
    o.SetNow(m);
    LiveMeans(o.Store(), m, key);
    ttl := o.GetTtl(key);
    got := o.Get(key);
  }

  method SetThenGet(o: OxidArt, key: Key, val: Value, m: nat) returns (got: Option<Value>, ttl: TtlResult)
    requires o.Valid()
    modifies o
    ensures got == Some(val) && ttl == KeyWithoutTtl
  {
    hide ArtOk, Broken;
    o.Set(key, val);
    o.SetNow(m);
    LiveMeans(o.Store(), m, key);
    ttl := o.GetTtl(key);
    got := o.Get(key);
  }
}
