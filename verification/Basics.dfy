/** Vocabulary shared by the whole model: options, key bytes, values, expiry words. */
module Basics {

  datatype Option<+T> = None | Some(value: T)

  /** Stored values are never inspected by the tree, so they stay abstract. */
  type Value(==, !new)

  /** A key byte: ASCII, and not NUL because NUL cannot be a child radix. */
  type Byte = b: int | 1 <= b < 128 witness 1
  type Key = seq<Byte>

  /** Slab indices. */
  type Idx = nat

  /** The 56-bit expiry word; the all-ones word means "never expires". */
  const EXPIRY_LIMIT: nat := 0x100_0000_0000_0000
  const NO_EXPIRY: nat := 0xFF_FFFF_FFFF_FFFF
  type Expiry = e: nat | e < EXPIRY_LIMIT witness 0

  /** What the abstract store remembers about one key. */
  datatype Entry = Entry(val: Value, exp: Expiry)

  predicate Expired(exp: Expiry, now: nat) {
    exp != NO_EXPIRY && exp < now
  }

  function Last<T>(s: seq<T>): T
    requires s != []
  {
    s[|s| - 1]
  }

  predicate NoDup<T(==)>(s: seq<T>) {
    forall i, j :: 0 <= i < j < |s| ==> s[i] != s[j]
  }

  function Elems<T>(s: seq<T>): set<T> {
    set x | x in s
  }

  /** Two prefixes of one sequence are comparable. */
  lemma PrefixesCompare<T>(a: seq<T>, b: seq<T>, k: seq<T>)
    requires a <= k && b <= k && |a| <= |b|
    ensures a <= b
    ensures |a| == |b| ==> a == b
  {
    assert a == k[..|a|] && b == k[..|b|];
    assert k[..|b|][..|a|] == k[..|a|];
  }

  lemma {:induction false} MaxOf(s: set<nat>) returns (m: nat)
    requires s != {}
    ensures m in s && forall x :: x in s ==> x <= m
    decreases |s|
  {
    var x :| x in s;
    if s == {x} {
      m := x;
    } else {
      var rest := s - {x};
      assert s == rest + {x};
      var m' := MaxOf(rest);
      m := if x > m' then x else m';
      assert forall y :: y in s ==> y == x || y in rest;
    }
  }

  lemma FreshIdx(s: set<nat>)
    ensures exists i: nat :: i !in s
  {
    if s == {} {
      assert 0 !in s;
    } else {
      var m := MaxOf(s);
      assert m + 1 !in s;
    }
  }
}
