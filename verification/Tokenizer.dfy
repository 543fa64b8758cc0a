/** The request tokenizer: what it accepts, and with which result. */
module Tokenizer {
  import opened Basics
  import opened Resp

  /** Outcome of reading a request: rejected, an inverted slice range (which
   *  aborts), or the argument list. */
  datatype Outcome = Rejected | Aborted | Tokens(args: seq<Bytes>)

  /** Machine addition. */
  function Wrap(n: nat): nat {
    n % U64
  }

  // ---- Numbers ------------------------------------------------------------------------

  /** The digits from `pos` up to the next CR, with wrapping arithmetic. */
  function UintAt(d: Bytes, pos: nat, acc: nat): Option<(nat, nat)>
    decreases |d| - pos
  {
    if pos >= |d| then None
    else if d[pos] == CR then Some((acc, pos))
    else if IsDigit(d[pos]) then UintAt(d, pos + 1, Wrap(acc * 10 + (d[pos] - ZERO)))
    else None
  }

  /** A possibly empty digit string that stands for `n`, modulo the word size. */
  predicate Announces(head: Bytes, n: nat) {
    Digits(head) && NumberOf(head) % U64 == n
  }

  lemma WrapStep(a: nat, x: nat)
    ensures Wrap(Wrap(a) * 10 + x) == Wrap(a * 10 + x)
  {
    var q, r := a / U64, a % U64;
    assert a * 10 + x == (r * 10 + x) + U64 * (10 * q);
    WrapMore(r * 10 + x, 10 * q);
  }

  lemma {:induction false} WrapMore(a: nat, q: nat)
    ensures (a + U64 * q) % U64 == a % U64
    decreases q
  {
    if q > 0 {
      WrapMore(a, q - 1);
      assert a + U64 * q == (a + U64 * (q - 1)) + U64;
    }
  }

  lemma {:induction false} UintFrom(d: Bytes, start: nat, pos: nat)
    requires start <= pos <= |d| && Digits(d[start..pos])
    ensures match UintAt(d, pos, Wrap(NumberOf(d[start..pos])))
            case Some((n, p)) => pos <= p < |d| && d[p] == CR && Announces(d[start..p], n)
            case None => forall p :: start <= p < |d| && Digits(d[start..p]) ==> d[p] != CR
    decreases |d| - pos
  {
    if pos < |d| && d[pos] != CR && IsDigit(d[pos]) {
      var part := d[start..pos + 1];
      assert part == d[start..pos] + [d[pos]];
      assert part[..|part| - 1] == d[start..pos];
      WrapStep(NumberOf(d[start..pos]), d[pos] - ZERO);
      UintFrom(d, start, pos + 1);
    } else {
      EndOfDigits(d, start, pos);
    }
  }

  /** Digits stop where a byte is not a digit. */
  lemma EndOfDigits(d: Bytes, start: nat, pos: nat)
    requires start <= pos <= |d| && Digits(d[start..pos]) && (pos < |d| ==> !IsDigit(d[pos]))
    ensures forall p :: start <= p < |d| && Digits(d[start..p]) ==> p <= pos
    ensures forall p :: start <= p < pos ==> d[p] != CR
  {
    assert forall p :: start <= p < pos ==> d[p] == d[start..pos][p - start];
    forall p | pos < p < |d| ensures !Digits(d[start..p]) {
      assert d[start..p][pos - start] == d[pos];
    }
  }

  /** Reads the digits from `start` on, if a CR ends them. */
  method ParseUint(d: Bytes, start: nat) returns (res: Option<(nat, nat)>)
    ensures res == UintAt(d, start, 0)
    ensures res.Some? ==> var (n, p) := res.value; start <= p < |d| && d[p] == CR && Announces(d[start..p], n)
    ensures res.None? ==> forall p :: start <= p < |d| && Digits(d[start..p]) ==> d[p] != CR
  {
    var n: nat, pos: nat := 0, start;
    if start <= |d| {
      assert d[start..start] == [];
      UintFrom(d, start, start);
    }
    while true
      invariant UintAt(d, start, 0) == UintAt(d, pos, n)
      decreases |d| - pos
    {
      if pos >= |d| {
        return None;
      }
      if d[pos] == CR {
        break;
      }
      if !IsDigit(d[pos]) {
        return None;
      }
      n := Wrap(n * 10 + (d[pos] - ZERO));
      pos := pos + 1;
    }
    return Some((n, pos));
  }

  predicate CrlfAt(d: Bytes, pos: nat) {
    pos + 1 < |d| && d[pos] == CR && d[pos + 1] == LF
  }

  /** A digit string ended by CR LF is read as a whole. */
  lemma DigitsRead(d: Bytes, pos: nat, head: Bytes, n: nat)
    requires OccursAt(d, pos, head) && CrlfAt(d, pos + |head|) && Announces(head, n)
    ensures UintAt(d, pos, 0) == Some((n, pos + |head|))
  {
    hide UintAt;
    assert d[pos..pos] == [];
    UintFrom(d, pos, pos);
    assert d[pos..pos + |head|] == head;
    EndOfDigits(d, pos, pos + |head|);
  }

  // ---- The loop ------------------------------------------------------------------------

  /** What stands at one position: no bulk string, an inverted range, or the
   *  bounds of its contents. */
  datatype Item = NoBulk | Inverted | Bulk(from: nat, end: nat)

  function BulkAt(d: Bytes, pos: nat): (item: Item)
    ensures item.Bulk? ==> item.from <= item.end <= |d|
  {
    if pos >= |d| || d[pos] != DOLLAR then NoBulk
    else
      var len := UintAt(d, pos + 1, 0);
      if len.None? || !CrlfAt(d, len.value.1) then NoBulk
      else
        var from := len.value.1 + 2;
        var end := Wrap(from + len.value.0);
        if end > |d| then NoBulk
        else if end < from then Inverted
        else if !CrlfAt(d, end) then NoBulk
        else Bulk(from, end)
  }

  /** The tokens of `n` bulk strings starting at `pos`, after those in `raw`. */
  function BulksAt(d: Bytes, pos: nat, n: nat, raw: seq<Bytes>): Outcome
    decreases n
  {
    if n == 0 then Tokens(raw)
    else match BulkAt(d, pos)
      case NoBulk => Rejected
      case Inverted => Aborted
      case Bulk(from, end) => BulksAt(d, end + 2, n - 1, raw + [d[from..end]])
  }

  function Request(d: Bytes): Outcome {
    if d == [] || d[0] != STAR then Rejected
    else
      var n := UintAt(d, 1, 0);
      if n.None? || !CrlfAt(d, n.value.1) || n.value.0 == 0 then Rejected
      else BulksAt(d, n.value.1 + 2, n.value.0, [])
  }

  method ReadBulk(d: Bytes, start: nat) returns (item: Item)
    ensures item == BulkAt(d, start)
  {
    hide UintAt;
    if start >= |d| || d[start] != DOLLAR {
      return NoBulk;
    }
    var len := ParseUint(d, start + 1);
    if len.None? || !CrlfAt(d, len.value.1) {
      return NoBulk;
    }
    var pos := len.value.1 + 2;
    var end := Wrap(pos + len.value.0);
    if end > |d| {
      return NoBulk;
    }
    if end < pos {
      return Inverted;
    }
    if !CrlfAt(d, end) {
      return NoBulk;
    }
    return Bulk(pos, end);
  }

  method FromSlice(d: Bytes) returns (res: Outcome)
    ensures res == Request(d)
  {
    hide UintAt, CrlfAt, BulkAt;
    if d == [] || d[0] != STAR {
      return Rejected;
    }
    var n := ParseUint(d, 1);
    if n.None? || !CrlfAt(d, n.value.1) {
      return Rejected;
    }
    if n.value.0 == 0 {
      return Rejected;
    }
    var pos: nat, raw := n.value.1 + 2, [];
    for k := 0 to n.value.0
      invariant Request(d) == BulksAt(d, pos, n.value.0 - k, raw)
    {
      var item := ReadBulk(d, pos);
      match item
      case NoBulk => return Rejected;
      case Inverted => return Aborted;
      case Bulk(from, end) =>
        raw := raw + [d[from..end]];
        pos := end + 2;
    }
    return Tokens(raw);
  }

  // ---- What is accepted ------------------------------------------------------------------

  /** `part` occurs in `d` at `pos`. */
  predicate OccursAt(d: Bytes, pos: nat, part: Bytes) {
    pos + |part| <= |d| && d[pos..pos + |part|] == part
  }

  lemma OccursSplit(d: Bytes, pos: nat, a: Bytes, b: Bytes)
    requires OccursAt(d, pos, a + b)
    ensures OccursAt(d, pos, a) && OccursAt(d, pos + |a|, b)
  {
    assert d[pos..pos + |a|] == (a + b)[..|a|];
    assert d[pos + |a|..pos + |a| + |b|] == (a + b)[|a|..];
  }

  lemma OccursCrlf(d: Bytes, pos: nat)
    requires OccursAt(d, pos, CRLF)
    ensures CrlfAt(d, pos)
  {
    assert d[pos] == d[pos..pos + 2][0] && d[pos + 1] == d[pos..pos + 2][1];
  }

  lemma OccursAs(d: Bytes, pos: nat, part: Bytes)
    requires OccursAt(d, pos, part)
    ensures pos + |part| <= |d| && d[pos..pos + |part|] == part
    ensures part != [] ==> d[pos] == part[0]
  {
    if part != [] { assert d[pos] == d[pos..pos + |part|][0]; }
  }

  lemma OccursJoin(d: Bytes, pos: nat, a: Bytes, b: Bytes)
    requires OccursAt(d, pos, a) && OccursAt(d, pos + |a|, b)
    ensures OccursAt(d, pos, a + b)
  {
    assert d[pos..pos + |a| + |b|] == d[pos..pos + |a|] + d[pos + |a|..pos + |a| + |b|];
  }

  lemma CrlfOccurs(d: Bytes, pos: nat)
    requires CrlfAt(d, pos)
    ensures OccursAt(d, pos, CRLF)
  {
  }

  /** A bulk string as a client may write it: any digits that stand for the
   *  length. */
  function LooseBulk(head: Bytes, b: Bytes): Bytes {
    [DOLLAR] + (head + (CRLF + (b + CRLF)))
  }

  function Loose(heads: seq<Bytes>, args: seq<Bytes>): Bytes
    requires |heads| == |args|
  {
    if args == [] then [] else LooseBulk(heads[0], args[0]) + Loose(heads[1..], args[1..])
  }

  predicate AllAnnounce(heads: seq<Bytes>, args: seq<Bytes>) {
    |heads| == |args| && forall k :: 0 <= k < |args| ==> Announces(heads[k], |args[k]|)
  }

  /** Where the parts of a bulk string stand. */
  lemma BulkParts(d: Bytes, pos: nat, head: Bytes, b: Bytes)
    ensures OccursAt(d, pos, LooseBulk(head, b)) <==>
              OccursAt(d, pos, [DOLLAR]) && OccursAt(d, pos + 1, head) && OccursAt(d, pos + 1 + |head|, CRLF)
              && OccursAt(d, pos + 1 + |head| + 2, b) && OccursAt(d, pos + 1 + |head| + 2 + |b|, CRLF)
  {
    hide OccursAt;
    var p := pos + 1 + |head|;
    if OccursAt(d, pos, LooseBulk(head, b)) {
      OccursSplit(d, pos, [DOLLAR], head + (CRLF + (b + CRLF)));
      OccursSplit(d, pos + 1, head, CRLF + (b + CRLF));
      OccursSplit(d, p, CRLF, b + CRLF);
      OccursSplit(d, p + 2, b, CRLF);
    }
    if OccursAt(d, pos, [DOLLAR]) && OccursAt(d, pos + 1, head) && OccursAt(d, p, CRLF) && OccursAt(d, p + 2, b) && OccursAt(d, p + 2 + |b|, CRLF) {
      OccursJoin(d, p + 2, b, CRLF);
      OccursJoin(d, p, CRLF, b + CRLF);
      OccursJoin(d, pos + 1, head, CRLF + (b + CRLF));
      OccursJoin(d, pos, [DOLLAR], head + (CRLF + (b + CRLF)));
    }
  }

  /** A bulk string in any spelling is read as such. */
  lemma BulkReads(d: Bytes, pos: nat, head: Bytes, b: Bytes)
    requires |d| < U64 && OccursAt(d, pos, LooseBulk(head, b)) && Announces(head, |b|)
    ensures BulkAt(d, pos).Bulk? && d[BulkAt(d, pos).from..BulkAt(d, pos).end] == b
    ensures BulkAt(d, pos).end + 2 == pos + |LooseBulk(head, b)|
  {
    hide UintAt, OccursAt, CrlfAt;
    BulkParts(d, pos, head, b);
    var from := pos + 1 + |head| + 2;
    OccursAs(d, pos, [DOLLAR]);
    OccursAs(d, from, b);
    OccursCrlf(d, from - 2);
    OccursCrlf(d, from + |b|);
    DigitsRead(d, pos + 1, head, |b|);
  }

  /** What is read as a bulk string is spelled so. */
  lemma BulkSound(d: Bytes, pos: nat) returns (head: Bytes)
    requires |d| < U64 && BulkAt(d, pos).Bulk?
    ensures var item := BulkAt(d, pos); var b := d[item.from..item.end];
            && OccursAt(d, pos, LooseBulk(head, b)) && Announces(head, |b|)
            && item.end + 2 == pos + |LooseBulk(head, b)|
  {
    hide UintAt, OccursAt, CrlfAt;
    var item := BulkAt(d, pos);
    var (n, p) := UintAt(d, pos + 1, 0).value;
    assert d[pos + 1..pos + 1] == [];
    UintFrom(d, pos + 1, pos + 1);
    head := d[pos + 1..p];
    var b := d[item.from..item.end];
    NoWrap(item.from, n, item.end);
    Standing(d, pos, head, b, p);
    BulkParts(d, pos, head, b);
  }

  lemma NoWrap(from: nat, n: nat, end: nat)
    requires from < U64 && n < U64 && end == Wrap(from + n) && end >= from
    ensures end == from + n
  {
  }

  lemma Standing(d: Bytes, pos: nat, head: Bytes, b: Bytes, p: nat)
    requires pos < p <= p + 2 + |b| <= |d| && d[pos] == DOLLAR && head == d[pos + 1..p] && b == d[p + 2..p + 2 + |b|]
    requires CrlfAt(d, p) && CrlfAt(d, p + 2 + |b|)
    ensures OccursAt(d, pos, [DOLLAR]) && OccursAt(d, pos + 1, head) && OccursAt(d, pos + 1 + |head|, CRLF)
    ensures OccursAt(d, pos + 1 + |head| + 2, b) && OccursAt(d, pos + 1 + |head| + 2 + |b|, CRLF)
  {
    CrlfOccurs(d, p);
    CrlfOccurs(d, p + 2 + |b|);
  }

  lemma {:induction false} BulksRead(d: Bytes, pos: nat, heads: seq<Bytes>, args: seq<Bytes>, raw: seq<Bytes>)
    requires |d| < U64 && AllAnnounce(heads, args) && OccursAt(d, pos, Loose(heads, args))
    ensures BulksAt(d, pos, |args|, raw) == Tokens(raw + args)
    decreases |args|
  {
    hide OccursAt, BulkAt, LooseBulk, Announces;
    if args == [] {
      assert raw + args == raw;
    } else {
      var b, rest := args[0], Loose(heads[1..], args[1..]);
      OccursSplit(d, pos, LooseBulk(heads[0], b), rest);
      BulkReads(d, pos, heads[0], b);
      BulksRead(d, pos + |LooseBulk(heads[0], b)|, heads[1..], args[1..], raw + [b]);
      assert raw + [b] + args[1..] == raw + args;
    }
  }

  lemma {:induction false} BulksSound(d: Bytes, pos: nat, n: nat, raw: seq<Bytes>) returns (heads: seq<Bytes>, args: seq<Bytes>)
    requires |d| < U64 && pos <= |d| && BulksAt(d, pos, n, raw).Tokens?
    ensures |args| == n && AllAnnounce(heads, args) && OccursAt(d, pos, Loose(heads, args))
    ensures BulksAt(d, pos, n, raw) == Tokens(raw + args)
    decreases n
  {
    hide BulkAt, LooseBulk, Announces;
    if n == 0 {
      heads, args := [], [];
      assert raw + args == raw && d[pos..pos] == [];
    } else {
      var item := BulkAt(d, pos);
      var b := d[item.from..item.end];
      var head := BulkSound(d, pos);
      var heads', args' := BulksSound(d, item.end + 2, n - 1, raw + [b]);
      heads, args := [head] + heads', [b] + args';
      assert heads[1..] == heads' && args[1..] == args';
      OccursJoin(d, pos, LooseBulk(head, b), Loose(heads', args'));
      assert raw + [b] + args' == raw + args;
    }
  }

  /** A request for `args`: a count, the bulk strings, and anything after them. */
  ghost predicate Spelled(d: Bytes, args: seq<Bytes>, count: Bytes, heads: seq<Bytes>, tail: Bytes) {
    && Announces(count, |args|) && AllAnnounce(heads, args)
    && d == [STAR] + count + CRLF + Loose(heads, args) + tail
  }

  /** Requests in any spelling are tokenized. */
  lemma RequestComplete(d: Bytes, args: seq<Bytes>, count: Bytes, heads: seq<Bytes>, tail: Bytes)
    requires |d| < U64 && args != [] && Spelled(d, args, count, heads, tail)
    ensures Request(d) == Tokens(args)
  {
    hide UintAt, Announces, BulksAt, Loose;
    var items := Loose(heads, args);
    HeaderOccurs(d, count, items, tail);
    OccursCrlf(d, 1 + |count|);
    DigitsRead(d, 1, count, |args|);
    BulksRead(d, 1 + |count| + 2, heads, args, []);
    assert [] + args == args;
  }

  lemma HeaderOccurs(d: Bytes, count: Bytes, items: Bytes, tail: Bytes)
    requires d == [STAR] + count + CRLF + items + tail
    ensures OccursAt(d, 1, count) && OccursAt(d, 1 + |count|, CRLF) && OccursAt(d, 1 + |count| + 2, items) && d[0] == STAR
  {
  }

  /** What is tokenized is a request in some spelling. */
  lemma RequestSound(d: Bytes, args: seq<Bytes>) returns (count: Bytes, heads: seq<Bytes>, tail: Bytes)
    requires |d| < U64 && Request(d) == Tokens(args)
    ensures args != [] && Spelled(d, args, count, heads, tail)
  {
    hide UintAt, BulksAt, Loose;
    var (n, p) := UintAt(d, 1, 0).value;
    assert d[1..1] == [];
    UintFrom(d, 1, 1);
    count := d[1..p];
    var args';
    heads, args' := BulksSound(d, p + 2, n, []);
    assert [] + args' == args';
    var items := Loose(heads, args);
    tail := d[p + 2 + |items|..];
    OccursAs(d, p + 2, items);
    Reassemble(d, p, items);
  }

  lemma Reassemble(d: Bytes, p: nat, items: Bytes)
    requires 1 <= p && p + 2 + |items| <= |d| && d[0] == STAR && CrlfAt(d, p) && d[p + 2..p + 2 + |items|] == items
    ensures d == [STAR] + d[1..p] + CRLF + items + d[p + 2 + |items|..]
  {
    assert d == d[..1] + d[1..p] + d[p..p + 2] + d[p + 2..p + 2 + |items|] + d[p + 2 + |items|..];
  }

  /** The tokenizer accepts exactly the requests, in whatever spelling of their
   *  lengths, and returns exactly their arguments. */
  lemma RequestExact(d: Bytes, args: seq<Bytes>)
    requires |d| < U64
    ensures Request(d) == Tokens(args) <==> args != [] && exists count, heads, tail :: Spelled(d, args, count, heads, tail)
  {
    hide Spelled, Request;
    if Request(d) == Tokens(args) { var count, heads, tail := RequestSound(d, args); }
    if args != [] {
      if count, heads, tail :| Spelled(d, args, count, heads, tail) { RequestComplete(d, args, count, heads, tail); }
    }
  }

  // ---- What the encoder writes -------------------------------------------------------------

  function Bulks(args: seq<Bytes>): seq<Frame> {
    seq(|args|, k requires 0 <= k < |args| => BulkString(args[k]))
  }

  function Lengths(args: seq<Bytes>): seq<Bytes> {
    seq(|args|, k requires 0 <= k < |args| => Decimal(|args[k]|))
  }

  lemma Group5<T>(a: seq<T>, b: seq<T>, c: seq<T>, d: seq<T>, e: seq<T>)
    ensures a + b + c + d + e == a + (b + (c + (d + e)))
  {
    Group(c, d, e);
    Group(b, c, d + e);
    Group(a, b, c + (d + e));
    Group(a + b, c, d + e);
    Group(a + b + c, d, e);
  }

  lemma BulkShape(b: Bytes)
    ensures Encode(BulkString(b)) == LooseBulk(Decimal(|b|), b)
  {
    hide Decimal;
    Group5([DOLLAR], Decimal(|b|), CRLF, b, CRLF);
  }

  lemma {:induction false} EncodedLoose(args: seq<Bytes>)
    ensures EncodeAll(Bulks(args)) == Loose(Lengths(args), args)
    decreases |args|
  {
    hide Encode, LooseBulk;
    if args != [] {
      BulkShape(args[0]);
      EncodedLoose(args[1..]);
      assert Bulks(args)[0] == BulkString(args[0]) && Bulks(args)[1..] == Bulks(args[1..]);
      assert Lengths(args)[0] == Decimal(|args[0]|) && Lengths(args)[1..] == Lengths(args[1..]);
    }
  }

  /** The tokenizer inverts the encoder on every non-empty list of byte
   *  strings, whatever bytes they contain and whatever follows. */
  lemma RequestRoundTrip(args: seq<Bytes>, tail: Bytes)
    requires args != [] && |Encode(Array(Bulks(args))) + tail| < U64
    ensures Request(Encode(Array(Bulks(args))) + tail) == Tokens(args)
  {
    hide Decimal, Request, Announces;
    var items := EncodeAll(Bulks(args));
    EncodedLoose(args);
    EncodedSizes(args);
    ValueDecimal(|args|);
    Announced(|args|);
    forall k | 0 <= k < |args| ensures Announces(Lengths(args)[k], |args[k]|) { Announced(|args[k]|); }
    var d := Encode(Array(Bulks(args))) + tail;
    assert d == [STAR] + Decimal(|args|) + CRLF + items + tail;
    RequestComplete(d, args, Decimal(|args|), Lengths(args), tail);
  }

  lemma Announced(n: nat)
    requires n < U64
    ensures Announces(Decimal(n), n)
  {
    ValueDecimal(n);
  }

  lemma {:induction false} EncodedSizes(args: seq<Bytes>)
    ensures |args| <= |EncodeAll(Bulks(args))| && forall k :: 0 <= k < |args| ==> |args[k]| <= |EncodeAll(Bulks(args))|
    decreases |args|
  {
    if args != [] {
      EncodedSizes(args[1..]);
      assert Bulks(args)[0] == BulkString(args[0]) && Bulks(args)[1..] == Bulks(args[1..]);
      forall k | 0 < k < |args| ensures |args[k]| <= |EncodeAll(Bulks(args))| { assert args[k] == args[1..][k - 1]; }
    }
  }

  /** One request, byte for byte: `PING` as an array of one bulk string. */
  lemma PingExample(tail: Bytes)
    requires |tail| < 0x1_0000_0000_0000_0000 - 14
    ensures Request([42, 49, 13, 10, 36, 52, 13, 10, 80, 73, 78, 71, 13, 10] + tail) == Tokens([[80, 73, 78, 71]])
  {
    hide Request;
    var ping: Bytes := [80, 73, 78, 71];
    assert Decimal(1) == [49] && Decimal(4) == [52];
    assert Bulks([ping]) == [BulkString(ping)];
    assert Encode(BulkString(ping)) == [36, 52, 13, 10, 80, 73, 78, 71, 13, 10];
    assert EncodeAll([BulkString(ping)]) == Encode(BulkString(ping)) by {
      assert [BulkString(ping)][1..] == [] && EncodeAll([]) == [];
      assert Encode(BulkString(ping)) + [] == Encode(BulkString(ping));
    }
    assert Encode(Array(Bulks([ping]))) == [42, 49, 13, 10, 36, 52, 13, 10, 80, 73, 78, 71, 13, 10];
    RequestRoundTrip([ping], tail);
  }

  // ---- When it aborts ----------------------------------------------------------------------

  /** A length whose end would not fit a machine word. */
  ghost predicate TooLong(d: Bytes, p: nat) {
    p < |d| && d[p] == DOLLAR && UintAt(d, p + 1, 0).Some?
    && var (n, q) := UintAt(d, p + 1, 0).value; CrlfAt(d, q) && q + 2 + n >= U64
  }

  lemma {:induction false} UintWord(d: Bytes, pos: nat, acc: nat)
    requires acc < U64
    ensures UintAt(d, pos, acc).Some? ==> UintAt(d, pos, acc).value.0 < U64 && pos <= UintAt(d, pos, acc).value.1 < |d|
    decreases |d| - pos
  {
    if pos < |d| && d[pos] != CR && IsDigit(d[pos]) { UintWord(d, pos + 1, Wrap(acc * 10 + (d[pos] - ZERO))); }
  }

  lemma InvertedIff(d: Bytes, p: nat)
    requires |d| < U64
    ensures BulkAt(d, p).Inverted? <==> TooLong(d, p)
  {
    hide UintAt;
    UintWord(d, p + 1, 0);
  }

  /** After `k` well-formed bulk strings comes such a length. */
  ghost predicate Trips(d: Bytes, pos: nat, k: nat)
    decreases k
  {
    if k == 0 then TooLong(d, pos) else BulkAt(d, pos).Bulk? && Trips(d, BulkAt(d, pos).end + 2, k - 1)
  }

  ghost predicate TripsBelow(d: Bytes, pos: nat, n: nat) {
    exists k: nat :: k < n && Trips(d, pos, k)
  }

  lemma TripsNext(d: Bytes, pos: nat, n: nat)
    ensures TripsBelow(d, pos, n + 1) <==> TooLong(d, pos) || (BulkAt(d, pos).Bulk? && TripsBelow(d, BulkAt(d, pos).end + 2, n))
  {
    hide BulkAt, TooLong;
    var item := BulkAt(d, pos);
    if TooLong(d, pos) { assert Trips(d, pos, 0); }
    if item.Bulk? {
      var next := item.end + 2;
      if TripsBelow(d, next, n) {
        var k: nat :| k < n && Trips(d, next, k);
        assert Trips(d, pos, k + 1);
      }
    }
    if TripsBelow(d, pos, n + 1) {
      var k: nat :| k < n + 1 && Trips(d, pos, k);
      if k > 0 { assert Trips(d, item.end + 2, k - 1); }
    }
  }

  lemma {:induction false} BulksAbort(d: Bytes, pos: nat, n: nat, raw: seq<Bytes>)
    requires |d| < U64
    ensures BulksAt(d, pos, n, raw).Aborted? <==> TripsBelow(d, pos, n)
    decreases n
  {
    hide BulkAt, TooLong;
    InvertedIff(d, pos);
    if n > 0 {
      TripsNext(d, pos, n - 1);
      var item := BulkAt(d, pos);
      if item.Bulk? { BulksAbort(d, item.end + 2, n - 1, raw + [d[item.from..item.end]]); }
    }
  }

  /** Reading aborts exactly when, after a good count and some good bulk strings,
   *  a length is announced whose end exceeds a machine word. */
  lemma AbortsIff(d: Bytes)
    requires |d| < U64
    ensures Request(d).Aborted? <==>
              && d != [] && d[0] == STAR && UintAt(d, 1, 0).Some?
              && var (n, q) := UintAt(d, 1, 0).value; CrlfAt(d, q) && TripsBelow(d, q + 2, n)
  {
    hide UintAt, TripsBelow;
    if d != [] && d[0] == STAR && UintAt(d, 1, 0).Some? {
      var (n, q) := UintAt(d, 1, 0).value;
      BulksAbort(d, q + 2, n, []);
    }
  }

  /** `$`, a length and a line end, in the first place of a request. */
  lemma FirstLength(d: Bytes, one: Bytes, head: Bytes)
    requires d == [STAR] + one + CRLF + ([DOLLAR] + head + CRLF)
    ensures var p := 1 + |one| + 2;
            && d[0] == STAR && OccursAt(d, 1, one) && CrlfAt(d, 1 + |one|)
            && p < |d| && d[p] == DOLLAR && OccursAt(d, p + 1, head) && CrlfAt(d, p + 1 + |head|) && |d| == p + 1 + |head| + 2
  {
  }

  /** A request that aborts: one bulk string of length 2^64 - 1. */
  lemma AbortingRequest()
    ensures Request([STAR] + Decimal(1) + CRLF + ([DOLLAR] + Decimal(U64 - 1) + CRLF)).Aborted?
  {
    hide Decimal, UintAt, Announces, CrlfAt, OccursAt;
    var one, max := Decimal(1), Decimal(U64 - 1);
    var d := [STAR] + one + CRLF + ([DOLLAR] + max + CRLF);
    U64Digits(1);
    U64Digits(U64 - 1);
    Announced(1);
    Announced(U64 - 1);
    FirstLength(d, one, max);
    DigitsRead(d, 1, one, 1);
    DigitsRead(d, 1 + |one| + 3, max, U64 - 1);
    TripsNext(d, 1 + |one| + 2, 0);
    AbortsIff(d);
  }
}
