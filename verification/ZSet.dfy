/** The adaptive sorted set: a sorted vector below a threshold, promoted to an
 *  ordered index plus a score table above it. */
module ZSet {
  import opened Basics
  import opened Resp

  const THRESHOLD: nat := 16

  /** Scores as the total order of OrderedFloat sees them: NaN equals itself and
   *  is the greatest; the two zeros are one. */
  datatype Score = NegInf | Finite(r: real) | PosInf | NaN

  type Member = Bytes

  datatype Pair = Pair(score: Score, member: Member)

  // ---- Order -----------------------------------------------------------------------

  function Rank(s: Score): nat {
    match s case NegInf => 0 case Finite(_) => 1 case PosInf => 2 case NaN => 3
  }

  predicate ScoreLess(a: Score, b: Score) {
    Rank(a) < Rank(b) || (a.Finite? && b.Finite? && a.r < b.r)
  }

  /** Lexicographic order on bytes. */
  predicate LexLess(a: Member, b: Member) {
    b != [] && (a == [] || a[0] < b[0] || (a[0] == b[0] && LexLess(a[1..], b[1..])))
  }

  predicate Less(p: Pair, q: Pair) {
    ScoreLess(p.score, q.score) || (p.score == q.score && LexLess(p.member, q.member))
  }

  lemma {:induction false} LexTotal(a: Member, b: Member)
    ensures a == b || LexLess(a, b) || LexLess(b, a)
    ensures !(LexLess(a, b) && LexLess(b, a)) && !LexLess(a, a)
    decreases |a|
  {
    if a != [] {
      LexTotal(a[1..], a[1..]);
      if b != [] && a[0] == b[0] {
        LexTotal(a[1..], b[1..]);
        assert a == [a[0]] + a[1..] && b == [b[0]] + b[1..];
      }
    }
  }

  lemma {:induction false} LexTransitive(a: Member, b: Member, c: Member)
    requires LexLess(a, b) && LexLess(b, c)
    ensures LexLess(a, c)
    decreases |a|
  {
    if a != [] && a[0] == b[0] == c[0] { LexTransitive(a[1..], b[1..], c[1..]); }
  }

  lemma LessTotal(p: Pair, q: Pair)
    ensures p == q || Less(p, q) || Less(q, p)
    ensures !(Less(p, q) && Less(q, p)) && !Less(p, p)
  {
    LexTotal(p.member, q.member);
    LexTotal(p.member, p.member);
  }

  lemma LessTransitive(p: Pair, q: Pair, r: Pair)
    requires Less(p, q) && Less(q, r)
    ensures Less(p, r)
  {
    if p.score == q.score == r.score { LexTransitive(p.member, q.member, r.member); }
  }

  // ---- Ascending listings ----------------------------------------------------------------

  ghost predicate Ascending(v: seq<Pair>) {
    forall i, j :: 0 <= i < j < |v| ==> Less(v[i], v[j])
  }

  /** Where the lexicographic order decides: at the first difference the smaller
   *  byte, or else the shorter one comes first. */
  lemma {:induction false} LexMeans(a: Member, b: Member) returns (n: nat)
    requires LexLess(a, b)
    ensures n <= |a| && n < |b| && a[..n] == b[..n] && (n < |a| ==> a[n] < b[n])
    decreases |a|
  {
    if a == [] || a[0] < b[0] {
      n := 0;
    } else {
      var k := LexMeans(a[1..], b[1..]);
      n := k + 1;
      assert a == [a[0]] + a[1..] && b == [b[0]] + b[1..];
      assert a[..n] == [a[0]] + a[1..][..k] && b[..n] == [b[0]] + b[1..][..k];
    }
  }

  /** The order in every listing: scores do not fall, minus infinity first, plus
   *  infinity and then NaN last; at equal scores the members first differ at a byte
   *  that is smaller in the earlier one, or the earlier one is a proper prefix. */
  lemma OrderMeans(v: seq<Pair>, m: map<Member, Score>, i: nat, j: nat) returns (n: nat)
    requires Describes(v, m) && i < j < |v|
    ensures v[i].score.NaN? ==> v[j].score.NaN?
    ensures v[i].score.PosInf? ==> v[j].score.PosInf? || v[j].score.NaN?
    ensures v[j].score.NegInf? ==> v[i].score.NegInf?
    ensures v[i].score.Finite? && v[j].score.Finite? ==> v[i].score.r <= v[j].score.r
    ensures v[i].score == v[j].score ==>
              var a, b := v[i].member, v[j].member;
              n <= |a| && n < |b| && a[..n] == b[..n] && (n < |a| ==> a[n] < b[n])
  {
    assert Less(v[i], v[j]);
    n := 0;
    if v[i].score == v[j].score { n := LexMeans(v[i].member, v[j].member); }
  }

  /** `v` lists exactly the pairs of `m`, ascending. */
  ghost predicate Describes(v: seq<Pair>, m: map<Member, Score>) {
    Ascending(v) && forall p :: p in v <==> p.member in m && m[p.member] == p.score
  }

  /** How many leading pairs are less than `p`. */
  function PartitionPoint(v: seq<Pair>, p: Pair): (k: nat)
    ensures k <= |v| && (forall i :: 0 <= i < k ==> Less(v[i], p)) && (k < |v| ==> !Less(v[k], p))
  {
    if v == [] || !Less(v[0], p) then 0 else 1 + PartitionPoint(v[1..], p)
  }

  function Inserted(v: seq<Pair>, p: Pair): seq<Pair> {
    var k := PartitionPoint(v, p);
    v[..k] + [p] + v[k..]
  }

  function Dropped(v: seq<Pair>, k: nat): seq<Pair>
    requires k < |v|
  {
    v[..k] + v[k + 1..]
  }

  /** The partition point separates the smaller pairs from the greater ones. */
  lemma PointSeparates(v: seq<Pair>, p: Pair)
    requires Ascending(v) && p !in v
    ensures var k := PartitionPoint(v, p);
            (forall i :: 0 <= i < k ==> Less(v[i], p)) && (forall i :: k <= i < |v| ==> Less(p, v[i]))
  {
    var k := PartitionPoint(v, p);
    forall i | k <= i < |v| ensures Less(p, v[i]) {
      LessTotal(v[k], p);
      if i > k { LessTransitive(p, v[k], v[i]); }
    }
  }

  lemma InsertedAscending(v: seq<Pair>, p: Pair)
    requires Ascending(v) && p !in v
    ensures Ascending(Inserted(v, p))
  {
    hide Less;
    PointSeparates(v, p);
    var k, w := PartitionPoint(v, p), Inserted(v, p);
    forall i, j | 0 <= i < j < |w| ensures Less(w[i], w[j]) {
      if i < k <= j { PointBetween(v, p, i, j); }
    }
  }

  lemma PointBetween(v: seq<Pair>, p: Pair, i: nat, j: nat)
    requires Ascending(v) && p !in v && i < PartitionPoint(v, p) <= j < |Inserted(v, p)|
    ensures Less(Inserted(v, p)[i], Inserted(v, p)[j])
  {
    PointSeparates(v, p);
  }

  lemma InsertedElems(v: seq<Pair>, p: Pair)
    ensures forall q :: q in Inserted(v, p) <==> q == p || q in v
  {
    var k := PartitionPoint(v, p);
    assert v == v[..k] + v[k..];
  }

  lemma DroppedListing(v: seq<Pair>, k: nat)
    requires Ascending(v) && k < |v|
    ensures Ascending(Dropped(v, k)) && forall q :: q in Dropped(v, k) <==> q in v && q != v[k]
  {
    var w := Dropped(v, k);
    assert v == v[..k] + [v[k]] + v[k + 1..];
    forall i | 0 <= i < |v| && i != k ensures v[i] != v[k] { LessTotal(v[i], v[k]); }
    forall q | q in w ensures q in v && q != v[k] {
      var i :| 0 <= i < |w| && w[i] == q;
      assert q == v[if i < k then i else i + 1];
    }
  }

  /** A new member goes in at the partition point. */
  lemma InsertNew(v: seq<Pair>, m: map<Member, Score>, score: Score, member: Member)
    requires Describes(v, m) && member !in m
    ensures Describes(Inserted(v, Pair(score, member)), m[member := score])
  {
    InsertedAscending(v, Pair(score, member));
    InsertedElems(v, Pair(score, member));
  }

  lemma DropMember(v: seq<Pair>, m: map<Member, Score>, k: nat)
    requires Describes(v, m) && k < |v|
    ensures v[k] in v && Describes(Dropped(v, k), m - {v[k].member})
  {
    DroppedListing(v, k);
  }

  /** A score table has one ascending listing only. */
  lemma {:induction false} ListingUnique(v: seq<Pair>, w: seq<Pair>, m: map<Member, Score>)
    requires Describes(v, m) && Describes(w, m)
    ensures v == w
    decreases |v|
  {
    assert (v != [] ==> v[0] in v) && (w != [] ==> w[0] in w);
    if v != [] && w != [] {
      SameLeast(v, w, m);
      DropMember(v, m, 0);
      DropMember(w, m, 0);
      ListingUnique(Dropped(v, 0), Dropped(w, 0), m - {v[0].member});
      assert v == [v[0]] + Dropped(v, 0) && w == [w[0]] + Dropped(w, 0);
    }
  }

  lemma SameLeast(v: seq<Pair>, w: seq<Pair>, m: map<Member, Score>)
    requires Describes(v, m) && Describes(w, m) && v != [] && w != []
    ensures v[0] == w[0]
  {
    assert v[0] in w && w[0] in v;
    LessTotal(v[0], w[0]);
  }

  lemma {:induction false} ListingSize(v: seq<Pair>, m: map<Member, Score>)
    requires Describes(v, m)
    ensures |v| == |m|
    decreases |v|
  {
    assert forall k :: k in m ==> Pair(m[k], k) in v;
    if v == [] {
      assert m == map[];
    } else {
      DropMember(v, m, 0);
      ListingSize(Dropped(v, 0), m - {v[0].member});
      assert (m - {v[0].member}).Keys == m.Keys - {v[0].member};
    }
  }

  // ---- The two representations -----------------------------------------------------------

  /** The ordered index is given by its in-order listing. */
  datatype Repr = Small(vec: seq<Pair>) | Large(sorted: seq<Pair>, scores: map<Member, Score>)

  /** The set stands for the score table `m`. */
  ghost predicate ZOk(z: Repr, m: map<Member, Score>) {
    match z
    case Small(v) => Describes(v, m) && |v| <= THRESHOLD
    case Large(s, scores) => scores == m && Describes(s, m)
  }

  /** Linear search for a member. */
  method Position(v: seq<Pair>, member: Member) returns (pos: Option<nat>)
    ensures pos.Some? ==> pos.value < |v| && v[pos.value].member == member
    ensures pos.None? ==> forall i :: 0 <= i < |v| ==> v[i].member != member
  {
    for k := 0 to |v|
      invariant forall i :: 0 <= i < k ==> v[i].member != member
    {
      if v[k].member == member {
        return Some(k);
      }
    }
    return None;
  }

  /** Ordered-index insertion: nothing happens if the pair is there. */
  function Indexed(v: seq<Pair>, p: Pair): seq<Pair> {
    if p in v then v else Inserted(v, p)
  }

  /** Ordered-index removal: nothing happens if the pair is not there. */
  function Unindexed(v: seq<Pair>, p: Pair): seq<Pair> {
    var k := PartitionPoint(v, p);
    if k < |v| && v[k] == p then Dropped(v, k) else v
  }

  lemma UnindexedListing(v: seq<Pair>, m: map<Member, Score>, p: Pair)
    requires Describes(v, m) && p in v
    ensures Describes(Unindexed(v, p), m - {p.member})
  {
    var k := PartitionPoint(v, p);
    var i :| 0 <= i < |v| && v[i] == p;
    LessTotal(p, p);
    assert k <= i;
    assert forall j :: 0 <= j < i ==> Less(v[j], p);
    DropMember(v, m, k);
  }

  method InsertLarge(sorted: seq<Pair>, scores: map<Member, Score>, score: Score, member: Member)
    returns (sorted': seq<Pair>, scores': map<Member, Score>, fresh': bool)
    requires Describes(sorted, scores)
    ensures scores' == scores[member := score] && Describes(sorted', scores') && fresh' == (member !in scores)
  {
    sorted' := sorted;
    ghost var m := scores;
    if member in scores {
      if scores[member] == score {
        assert scores[member := score] == scores;
        return sorted, scores, false;
      }
      var was := Pair(scores[member], member);
      UnindexedListing(sorted, scores, was);
      sorted' := Unindexed(sorted, was);
      m := scores - {member};
      assert m[member := score] == scores[member := score];
    }
    InsertNew(sorted', m, score, member);
    assert Pair(score, member) !in sorted';
    sorted' := Indexed(sorted', Pair(score, member));
    scores' := scores[member := score];
    fresh' := member !in scores;
  }

  /** Move a full vector and one new member into the double index. */
  method Promote(vec: seq<Pair>, score: Score, member: Member, ghost m: map<Member, Score>) returns (z: Repr)
    requires Describes(vec, m) && member !in m
    ensures z.Large? && ZOk(z, m[member := score])
  {
    hide Describes, FirstScores, Inserted;
    var scores: map<Member, Score>, sorted: seq<Pair> := map[], [];
    NoScores(vec, m);
    for k := 0 to |vec|
      invariant scores == FirstScores(vec, m, k) && Describes(sorted, scores)
    {
      var p := vec[k];
      NextScores(vec, m, k);
      InsertNew(sorted, scores, p.score, p.member);
      NotListed(sorted, scores, p);
      scores, sorted := scores[p.member := p.score], Indexed(sorted, p);
    }
    AllScores(vec, m);
    InsertNew(sorted, scores, score, member);
    NotListed(sorted, scores, Pair(score, member));
    z := Large(Indexed(sorted, Pair(score, member)), scores[member := score]);
  }

  ghost predicate Among(vec: seq<Pair>, k: nat, x: Member) {
    exists i :: 0 <= i < k && i < |vec| && vec[i].member == x
  }

  /** The scores of the first `k` listed members. */
  ghost function FirstScores(vec: seq<Pair>, m: map<Member, Score>, k: nat): map<Member, Score> {
    map x | x in m && Among(vec, k, x) :: m[x]
  }

  lemma NotListed(v: seq<Pair>, m: map<Member, Score>, p: Pair)
    requires Describes(v, m) && p.member !in m
    ensures p !in v
  {
  }

  lemma NoScores(vec: seq<Pair>, m: map<Member, Score>)
    ensures FirstScores(vec, m, 0) == map[] && Describes([], map[])
  {
  }

  lemma AllScores(vec: seq<Pair>, m: map<Member, Score>)
    requires Describes(vec, m)
    ensures FirstScores(vec, m, |vec|) == m
  {
    forall x | x in m ensures Among(vec, |vec|, x) {
      assert Pair(m[x], x) in vec;
      var i :| 0 <= i < |vec| && vec[i] == Pair(m[x], x);
    }
  }

  lemma NextScores(vec: seq<Pair>, m: map<Member, Score>, k: nat)
    requires Describes(vec, m) && k < |vec|
    ensures vec[k].member !in FirstScores(vec, m, k)
    ensures FirstScores(vec, m, k + 1) == FirstScores(vec, m, k)[vec[k].member := vec[k].score]
  {
    assert vec[k] in vec;
    forall i | 0 <= i < k ensures vec[i].member != vec[k].member {
      assert vec[i] in vec;
      LessTotal(vec[i], vec[k]);
    }
    forall x | x in m ensures Among(vec, k + 1, x) <==> Among(vec, k, x) || x == vec[k].member {
      if x == vec[k].member { assert vec[k].member == x; }
      if Among(vec, k, x) {
        var i :| 0 <= i < k && vec[i].member == x;
        assert i < k + 1;
      }
    }
  }

  /** Insert or update; the answer is true exactly for a new member. */
  method Insert(z: Repr, score: Score, member: Member, ghost m: map<Member, Score>) returns (z': Repr, fresh': bool)
    requires ZOk(z, m)
    ensures ZOk(z', m[member := score]) && fresh' == (member !in m)
    ensures z.Large? ==> z'.Large?
    ensures z.Small? ==> (z'.Large? <==> member !in m && |m| >= 16)
  {
    match z
    case Large(sorted, scores) =>
      var sorted', scores';
      sorted', scores', fresh' := InsertLarge(sorted, scores, score, member);
      z' := Large(sorted', scores');
    case Small(vec) =>
      ListingSize(vec, m);
      var pos := Position(vec, member);
      if pos.Some? {
        assert vec[pos.value] in vec;
        if vec[pos.value].score == score {
          assert m[member := score] == m;
          return z, false;
        }
        DropMember(vec, m, pos.value);
        InsertNew(Dropped(vec, pos.value), m - {member}, score, member);
        assert (m - {member})[member := score] == m[member := score];
        return Small(Inserted(Dropped(vec, pos.value), Pair(score, member))), false;
      }
      Absent(vec, m, member);
      if |vec| >= THRESHOLD {
        z' := Promote(vec, score, member, m);
      } else {
        InsertNew(vec, m, score, member);
        z' := Small(Inserted(vec, Pair(score, member)));
      }
      fresh' := true;
  }

  lemma Absent(vec: seq<Pair>, m: map<Member, Score>, member: Member)
    requires Describes(vec, m) && forall i :: 0 <= i < |vec| ==> vec[i].member != member
    ensures member !in m
  {
    assert forall x :: x in m ==> Pair(m[x], x) in vec;
  }

  method Remove(z: Repr, member: Member, ghost m: map<Member, Score>) returns (z': Repr, existed: bool)
    requires ZOk(z, m)
    ensures ZOk(z', m - {member}) && existed == (member in m) && (z.Large? <==> z'.Large?)
  {
    assert member !in m ==> m - {member} == m;
    match z
    case Large(sorted, scores) =>
      if member !in scores {
        return z, false;
      }
      UnindexedListing(sorted, scores, Pair(scores[member], member));
      return Large(Unindexed(sorted, Pair(scores[member], member)), scores - {member}), true;
    case Small(vec) =>
      var pos := Position(vec, member);
      if pos.None? {
        Absent(vec, m, member);
        return z, false;
      }
      DropMember(vec, m, pos.value);
      return Small(Dropped(vec, pos.value)), true;
  }

  method ScoreOf(z: Repr, member: Member, ghost m: map<Member, Score>) returns (res: Option<Score>)
    requires ZOk(z, m)
    ensures res == if member in m then Some(m[member]) else None
  {
    match z
    case Large(_, scores) => res := if member in scores then Some(scores[member]) else None;
    case Small(vec) =>
      var pos := Position(vec, member);
      if pos.Some? {
        assert vec[pos.value] in vec;
        res := Some(vec[pos.value].score);
      } else {
        Absent(vec, m, member);
        res := None;
      }
  }

  method Len(z: Repr, ghost m: map<Member, Score>) returns (n: nat)
    requires ZOk(z, m)
    ensures n == |m|
  {
    match z
    case Small(vec) =>
      ListingSize(vec, m);
      n := |vec|;
    case Large(_, scores) => n := |scores|;
  }

  /** The pairs in iteration order. */
  function Iter(z: Repr): seq<Pair> {
    match z case Small(v) => v case Large(s, _) => s
  }

  /** Whatever the representation and the history, iteration is the one
   *  strictly ascending listing of the table. */
  lemma IterDetermined(z: Repr, z': Repr, m: map<Member, Score>)
    requires ZOk(z, m) && ZOk(z', m)
    ensures Iter(z) == Iter(z') && Describes(Iter(z), m)
  {
    ListingUnique(Iter(z), Iter(z'), m);
  }

  // ---- Histories -------------------------------------------------------------------------

  datatype Op = Add(score: Score, member: Member) | Rem(member: Member)

  function Table(ops: seq<Op>): map<Member, Score> {
    if ops == [] then map[]
    else match Last(ops)
      case Add(score, member) => Table(ops[..|ops| - 1])[member := score]
      case Rem(member) => Table(ops[..|ops| - 1]) - {member}
  }

  lemma EmptySet()
    ensures ZOk(Small([]), map[])
  {
  }

  lemma UpdateSize(m: map<Member, Score>, member: Member, score: Score)
    ensures |m[member := score]| == |m| + if member in m then 0 else 1
  {
    assert m[member := score].Keys == m.Keys + {member};
  }

  lemma DropSize(m: map<Member, Score>, member: Member)
    ensures |m - {member}| == |m| - if member in m then 1 else 0
  {
    assert (m - {member}).Keys == m.Keys - {member};
  }

  /** Any history, across the promotion, leaves the score table it spells, and
   *  counts the members it added and removed. */
  method Replay(ops: seq<Op>) returns (z: Repr, added: nat, removed: nat)
    ensures ZOk(z, Table(ops)) && |Table(ops)| == added - removed
  {
    hide ZOk;
    z, added, removed := Small([]), 0, 0;
    EmptySet();
    for k := 0 to |ops|
      invariant ZOk(z, Table(ops[..k])) && |Table(ops[..k])| == added - removed
    {
      ghost var m := Table(ops[..k]);
      assert ops[..k + 1][..k] == ops[..k];
      match ops[k]
      case Add(score, member) =>
        var isNew;
        z, isNew := Insert(z, score, member, m);
        UpdateSize(m, member, score);
        if isNew {
          added := added + 1;
        }
      case Rem(member) =>
        var existed;
        z, existed := Remove(z, member, m);
        DropSize(m, member);
        if existed {
          removed := removed + 1;
        }
    }
    assert ops[..|ops|] == ops;
  }

  // ---- Ranges ----------------------------------------------------------------------------

  datatype Field = MemberField(member: Member) | ScoreField(score: Score)

  /** The reply for a slice of pairs. */
  function Report(v: seq<Pair>, withScores: bool): seq<Field> {
    if v == [] then []
    else Report(v[..|v| - 1], withScores) + [MemberField(Last(v).member)]
         + if withScores then [ScoreField(Last(v).score)] else []
  }

  lemma ReportNothing(withScores: bool)
    ensures Report([], withScores) == []
  {
  }

  lemma ReportNext(v: seq<Pair>, first: nat, k: nat, withScores: bool)
    requires first <= k < |v|
    ensures Report(v[first..k + 1], withScores) ==
              Report(v[first..k], withScores) + [MemberField(v[k].member)] + if withScores then [ScoreField(v[k].score)] else []
  {
    assert v[first..k + 1][..k - first] == v[first..k];
  }

  function Max(a: int, b: int): int { if a > b then a else b }
  function Min(a: int, b: int): int { if a < b then a else b }

  /** The first rank Python-style indexing denotes. */
  function From(len: nat, start: int): nat {
    if start < 0 then Max(len + start, 0) else Min(start, len)
  }

  /** One past the last rank it denotes; `stop` is inclusive. */
  function Past(len: nat, stop: int): int {
    if stop < 0 then Max(len + stop + 1, 0) else Min(stop + 1, len)
  }

  function PySlice(v: seq<Pair>, start: int, stop: int): seq<Pair> {
    if From(|v|, start) < Past(|v|, stop) then v[From(|v|, start)..Past(|v|, stop)] else []
  }

  /** The slice spelled out: its ranks are those between start and stop, where a
   *  negative index counts from the end. */
  lemma SliceMeans(v: seq<Pair>, start: int, stop: int, k: nat) returns (lo: nat, hi: nat)
    requires k < |v|
    ensures lo <= hi <= |v| && PySlice(v, start, stop) == v[lo..hi]
    ensures lo <= k < hi <==> (if start < 0 then |v| + start else start) <= k <= (if stop < 0 then |v| + stop else stop)
  {
    if From(|v|, start) < Past(|v|, stop) {
      lo, hi := From(|v|, start), Past(|v|, stop);
    } else {
      lo, hi := 0, 0;
      assert v[0..0] == [];
    }
  }

  /** The reply spelled out: the members in order, each followed by its score if
   *  scores are asked for. */
  lemma {:induction false} ReportMeans(v: seq<Pair>, withScores: bool, k: nat)
    requires k < |v|
    ensures var r := Report(v, withScores);
            if withScores then
              |r| == 2 * |v| && r[2 * k] == MemberField(v[k].member) && r[2 * k + 1] == ScoreField(v[k].score)
            else
              |r| == |v| && r[k] == MemberField(v[k].member)
    decreases |v|
  {
    var init := v[..|v| - 1];
    if init == [] {
      ReportNothing(withScores);
    } else {
      ReportMeans(init, withScores, if k < |init| then k else 0);
    }
  }

  /** A stop before the first element together with a start at it. */
  predicate StopBeforeStart(len: nat, start: int, stop: int) {
    len > 0 && stop + len < 0 && From(len, start) == 0
  }

  /** Exactly the rank slice, except that a stop before the first element is
   *  taken for the first element. No index computation leaves 64 bits. */
  method Zrange(z: Repr, start: Int64, stop: Int64, withScores: bool, ghost m: map<Member, Score>) returns (res: seq<Field>)
    requires ZOk(z, m) && |m| <= I64_MAX
    ensures !StopBeforeStart(|m|, start, stop) ==> res == Report(PySlice(Iter(z), start, stop), withScores)
    ensures StopBeforeStart(|m|, start, stop) ==>
              Iter(z) != [] && PySlice(Iter(z), start, stop) == [] && res == Report(Iter(z)[..1], withScores)
  {
    hide Describes, Report;
    ListingSize(Iter(z), m);
    ReportNothing(withScores);
    var len := Len(z, m);
    res := [];
    if len == 0 {
      return;
    }
    assert start < 0 ==> I64_MIN <= len + start <= I64_MAX;
    assert stop < 0 ==> I64_MIN <= len + stop <= I64_MAX;
    var first: nat := if start < 0 then Max(len + start, 0) else Min(start, len);
    var last: nat := if stop < 0 then Max(len + stop, 0) else Min(stop, len - 1);
    if first > last {
      return;
    }
    var v := Iter(z);
    assert v[first..first] == [];
    for k := first to last + 1
      invariant res == Report(v[first..k], withScores)
    {
      ReportNext(v, first, k, withScores);
      res := res + [MemberField(v[k].member)];
      if withScores {
        res := res + [ScoreField(v[k].score)];
      }
    }
  }

  /** The reply always differs from the slice in the excluded case. */
  lemma StopBeforeStartDiffers(z: Repr, start: Int64, stop: Int64, withScores: bool, m: map<Member, Score>)
    requires ZOk(z, m) && StopBeforeStart(|m|, start, stop)
    ensures Iter(z) != [] && Report(Iter(z)[..1], withScores) != Report(PySlice(Iter(z), start, stop), withScores)
  {
    ListingSize(Iter(z), m);
  }
}
