/** The RESP2 codec: reply encoder and decimal conversions, per the "Integers",
 *  "Bulk strings" and "Arrays" sections of the Redis serialization protocol
 *  specification. */
module Resp {
  import opened Basics

  type Octet = b: int | 0 <= b < 256 witness 0
  type Bytes = seq<Octet>

  const CR: Octet := 13
  const LF: Octet := 10
  const CRLF: Bytes := [CR, LF]
  const ZERO: Octet := 48
  const MINUS: Octet := 45
  const PLUS: Octet := 43
  const COLON: Octet := 58
  const DOLLAR: Octet := 36
  const STAR: Octet := 42

  const U64: nat := 0x1_0000_0000_0000_0000
  const I64_MAX: int := 0x7FFF_FFFF_FFFF_FFFF
  const I64_MIN: int := -0x8000_0000_0000_0000
  type Int64 = i: int | -0x8000_0000_0000_0000 <= i <= 0x7FFF_FFFF_FFFF_FFFF witness 0

  datatype Frame =
    | SimpleString(text: Bytes)
    | Error(text: Bytes)
    | Integer(i: Int64)
    | BulkString(text: Bytes)
    | Array(frames: seq<Frame>)
    | Null

  // ---- Decimal digits --------------------------------------------------------------

  predicate IsDigit(b: Octet) {
    ZERO <= b < ZERO + 10
  }

  function Decimal(n: nat): (r: Bytes)
    ensures r != [] && forall k :: 0 <= k < |r| ==> IsDigit(r[k])
  {
    if n < 10 then [ZERO + n] else Decimal(n / 10) + [ZERO + n % 10]
  }

  predicate Digits(s: Bytes) {
    forall k :: 0 <= k < |s| ==> IsDigit(s[k])
  }

  /** The number a digit string denotes. */
  function NumberOf(s: Bytes): nat
    requires Digits(s)
  {
    if s == [] then 0 else NumberOf(s[..|s| - 1]) * 10 + (Last(s) - ZERO)
  }

  lemma {:induction false} ValueDecimal(n: nat)
    ensures NumberOf(Decimal(n)) == n
  {
    if n >= 10 {
      ValueDecimal(n / 10);
      assert Decimal(n)[..|Decimal(n)| - 1] == Decimal(n / 10);
    } else {
      assert Decimal(n)[..0] == [];
    }
  }

  lemma {:induction false} ValuePrefix(s: Bytes, k: nat)
    requires Digits(s) && k <= |s|
    ensures NumberOf(s[..k]) <= NumberOf(s)
    decreases |s|
  {
    if k < |s| {
      ValuePrefix(s[..|s| - 1], k);
      assert s[..|s| - 1][..k] == s[..k];
    } else {
      assert s[..k] == s;
    }
  }

  lemma ValueStep(s: Bytes, k: nat)
    requires Digits(s) && k < |s|
    ensures NumberOf(s[..k + 1]) == NumberOf(s[..k]) * 10 + (s[k] - ZERO)
  {
    assert s[..k + 1][..k] == s[..k];
  }

  /** Numbers below 10^d need at most d digits. */
  lemma {:induction false} DecimalLength(n: nat, d: nat)
    requires n < Pow10(d) && d > 0
    ensures |Decimal(n)| <= d
    decreases d
  {
    if n >= 10 { DecimalLength(n / 10, d - 1); }
  }

  function Pow10(d: nat): nat {
    if d == 0 then 1 else 10 * Pow10(d - 1)
  }

  lemma U64Digits(n: nat)
    requires n < U64
    ensures |Decimal(n)| <= 20
  {
    assert Pow10(5) == 100_000;
    assert Pow10(10) == 100_000 * Pow10(5);
    assert Pow10(15) == 100_000 * Pow10(10);
    assert Pow10(20) == 100_000 * Pow10(15);
    DecimalLength(n, 20);
  }

  /** The digit loop fills a 20-byte buffer from the end; the cursor cannot
   *  underflow because a 64-bit number has at most 20 digits. */
  method WriteUsize(dst: Bytes, n: nat) returns (dst': Bytes)
    requires n < U64
    ensures dst' == dst + Decimal(n)
  {
    if n == 0 {
      assert Decimal(0) == [ZERO];
      return dst + [ZERO];
    }
    var buf := new Octet[20];
    var i, m := 20, n;
    U64Digits(n);
    while m > 0
      invariant i <= 20 && 0 <= m <= n
      invariant m == 0 ==> i >= 0
      invariant m > 0 ==> i >= |Decimal(m)| && Decimal(m) + buf[i..] == Decimal(n)
      invariant m == 0 ==> buf[i..] == Decimal(n)
    {
      ghost var rest := buf[i..];
      i := i - 1;
      buf[i] := ZERO + m % 10;
      assert buf[i..] == [ZERO + m % 10] + rest;
      m := m / 10;
    }
    dst' := dst + buf[i..];
  }

  function Abs(n: int): nat {
    if n < 0 then -n else n
  }

  /** What `write_i64` prints. */
  function Signed(n: int): Bytes {
    if n < 0 then [MINUS] + Decimal(Abs(n)) else Decimal(n)
  }

  method WriteI64(dst: Bytes, n: Int64) returns (dst': Bytes)
    ensures dst' == dst + Signed(n)
  {
    if n < 0 {
      dst' := WriteUsize(dst + [MINUS], Abs(n));
      assert dst + [MINUS] + Decimal(Abs(n)) == dst + ([MINUS] + Decimal(Abs(n)));
    } else {
      dst' := WriteUsize(dst, n);
    }
  }

  /** Accepts exactly the non-empty digit strings below 2^64. A checked step
   *  fails only when the whole number is out of range. */
  method ArgU64(s: Bytes) returns (res: Option<nat>)
    ensures res == if s != [] && Digits(s) && NumberOf(s) < 0x1_0000_0000_0000_0000 then Some(NumberOf(s)) else None
  {
    if s == [] {
      return None;
    }
    var n := 0;
    for k := 0 to |s|
      invariant Digits(s[..k]) && n == NumberOf(s[..k]) && n < U64
    {
      if !IsDigit(s[k]) {
        return None;
      }
      assert s[..k + 1] == s[..k] + [s[k]];
      ValueStep(s[..k + 1], k);
      assert s[..k + 1][..k] == s[..k];
      n := n * 10 + (s[k] - ZERO);
      if n >= U64 {
        if Digits(s) { ValuePrefix(s, k + 1); }
        return None;
      }
    }
    assert s[..|s|] == s;
    return Some(n);
  }

  predicate IsSigned(s: Bytes) {
    s != [] && if s[0] == MINUS then s[1..] != [] && Digits(s[1..]) else Digits(s)
  }

  function SignedValue(s: Bytes): int
    requires IsSigned(s)
  {
    if s[0] == MINUS then 0 - (NumberOf(s[1..]) as int) else NumberOf(s)
  }

  /** Accepts exactly the signed digit strings within +-(2^63 - 1); the final
   *  negation cannot fail, and the most negative number is rejected. */
  method ArgI64(s: Bytes) returns (res: Option<Int64>)
    ensures res == if IsSigned(s) && -0x7FFF_FFFF_FFFF_FFFF <= SignedValue(s) <= 0x7FFF_FFFF_FFFF_FFFF then Some(SignedValue(s)) else None
  {
    if s == [] {
      return None;
    }
    var neg := s[0] == MINUS;
    var digits := if neg then s[1..] else s;
    if digits == [] {
      return None;
    }
    var n := 0;
    for k := 0 to |digits|
      invariant Digits(digits[..k]) && n == NumberOf(digits[..k]) && n <= I64_MAX
    {
      if !IsDigit(digits[k]) {
        return None;
      }
      assert digits[..k + 1] == digits[..k] + [digits[k]];
      ValueStep(digits[..k + 1], k);
      assert digits[..k + 1][..k] == digits[..k];
      n := n * 10 + (digits[k] - ZERO);
      if n > I64_MAX {
        if Digits(digits) { ValuePrefix(digits, k + 1); }
        return None;
      }
    }
    assert digits[..|digits|] == digits;
    return Some(if neg then -n else n);
  }

  /** Every printed u64 is read back. */
  method PrintThenReadU64(n: nat) returns (res: Option<nat>)
    requires n < U64
    ensures res == Some(n)
  {
    var text := WriteUsize([], n);
    assert text == Decimal(n);
    ValueDecimal(n);
    res := ArgU64(text);
  }

  /** Every printed i64 is read back, except the most negative one. */
  method PrintThenReadI64(n: Int64) returns (res: Option<Int64>)
    ensures res == if n == I64_MIN then None else Some(n)
  {
    var text := WriteI64([], n);
    assert text == Signed(n);
    ValueDecimal(Abs(n));
    SignedHead(n);
    res := ArgI64(text);
  }

  // ---- Encoding ----------------------------------------------------------------------

  function Encode(f: Frame): Bytes
    decreases f, 0
  {
    match f
    case SimpleString(s) => [PLUS] + s + CRLF
    case Error(s) => [MINUS] + s + CRLF
    case Integer(i) => [COLON] + Signed(i) + CRLF
    case BulkString(b) => [DOLLAR] + Decimal(|b|) + CRLF + b + CRLF
    case Array(fs) => [STAR] + Decimal(|fs|) + CRLF + EncodeAll(fs)
    case Null => [DOLLAR, MINUS, ZERO + 1] + CRLF
  }

  /** A pipelined concatenation. */
  function EncodeAll(fs: seq<Frame>): Bytes
    decreases fs, 1
  {
    if fs == [] then [] else Encode(fs[0]) + EncodeAll(fs[1..])
  }

  /** Every length fits a machine word. */
  predicate Fits(f: Frame) {
    match f
    case BulkString(b) => |b| < U64
    case Array(fs) => |fs| < U64 && forall k :: 0 <= k < |fs| ==> Fits(fs[k])
    case _ => true
  }

  lemma {:induction false} EncodeAllConcat(fs: seq<Frame>, gs: seq<Frame>)
    ensures EncodeAll(fs + gs) == EncodeAll(fs) + EncodeAll(gs)
    decreases |fs|
  {
    hide Encode;
    if fs == [] {
      assert fs + gs == gs;
    } else {
      EncodeAllConcat(fs[1..], gs);
      assert (fs + gs)[1..] == fs[1..] + gs;
    }
  }

  lemma Join3(d: Bytes, a: Bytes, b: Bytes, c: Bytes)
    ensures d + a + b + c == d + (a + b + c)
  {
  }

  lemma Join5(d: Bytes, a: Bytes, b: Bytes, c: Bytes, e: Bytes, g: Bytes)
    ensures d + a + b + c + e + g == d + (a + b + c + e + g)
  {
    Join3(d, a, b, c);
    Join3(d, a + b + c, e, g);
  }

  method EncodeFrame(dst: Bytes, f: Frame) returns (dst': Bytes)
    requires Fits(f)
    ensures dst' == dst + Encode(f)
    decreases f, 1
  {
    hide Decimal, Signed, EncodeAll;
    match f
    case SimpleString(s) =>
      Join3(dst, [PLUS], s, CRLF);
      dst' := dst + [PLUS] + s + CRLF;
    case Error(s) =>
      Join3(dst, [MINUS], s, CRLF);
      dst' := dst + [MINUS] + s + CRLF;
    case Integer(i) =>
      dst' := WriteI64(dst + [COLON], i);
      Join3(dst, [COLON], Signed(i), CRLF);
      dst' := dst' + CRLF;
    case BulkString(b) =>
      dst' := WriteUsize(dst + [DOLLAR], |b|);
      Join5(dst, [DOLLAR], Decimal(|b|), CRLF, b, CRLF);
      dst' := dst' + CRLF + b + CRLF;
    case Array(fs) =>
      dst' := WriteUsize(dst + [STAR], |fs|);
      dst' := EncodeEach(dst' + CRLF, fs);
      Join5(dst, [STAR], Decimal(|fs|), CRLF, EncodeAll(fs), []);
    case Null =>
      dst' := dst + ([DOLLAR, MINUS, ZERO + 1] + CRLF);
  }

  method EncodeEach(dst: Bytes, fs: seq<Frame>) returns (dst': Bytes)
    requires forall k :: 0 <= k < |fs| ==> Fits(fs[k])
    ensures dst' == dst + EncodeAll(fs)
    decreases fs, 0
  {
    hide Encode, Fits;
    dst' := dst;
    for k := 0 to |fs|
      invariant dst' == dst + EncodeAll(fs[..k])
    {
      dst' := EncodeFrame(dst', fs[k]);
      EncodeAllNext(fs, k);
      Join3(dst, EncodeAll(fs[..k]), Encode(fs[k]), []);
    }
    assert fs[..|fs|] == fs;
  }

  lemma EncodeAllNext(fs: seq<Frame>, k: nat)
    requires k < |fs|
    ensures EncodeAll(fs[..k + 1]) == EncodeAll(fs[..k]) + Encode(fs[k])
  {
    assert fs[..k + 1] == fs[..k] + [fs[k]];
    EncodeAllConcat(fs[..k], [fs[k]]);
    assert [fs[k]][1..] == [];
    assert EncodeAll([fs[k]]) == Encode(fs[k]) + [];
  }

  // ---- The bytes on the wire -----------------------------------------------------------

  /** Printed numbers are ASCII digits without leading zeros. */
  lemma {:induction false} DecimalShape(n: nat)
    ensures forall k :: 0 <= k < |Decimal(n)| ==> 48 <= Decimal(n)[k] <= 57
    ensures n > 0 ==> Decimal(n)[0] != 48
  {
    if n >= 10 { DecimalShape(n / 10); }
  }

  /** What a digit string stands for, one more digit at a time. */
  lemma NumberStep(s: Bytes, d: Octet)
    requires Digits(s + [d])
    ensures 48 <= d <= 57 && Digits(s) && NumberOf(s + [d]) == 10 * NumberOf(s) + (d - 48)
  {
    assert (s + [d])[|s|] == d && (s + [d])[..|s|] == s;
    assert forall k :: 0 <= k < |s| ==> s[k] == (s + [d])[k];
  }

  /** Every encoding begins with the byte of its kind and ends with CR LF. */
  lemma {:induction false} WireShape(f: Frame)
    ensures |Encode(f)| >= 3 && Encode(f)[|Encode(f)| - 2..] == [13, 10]
    ensures Encode(f)[0] == match f { case SimpleString(_) => 43 case Error(_) => 45 case Integer(_) => 58 case Array(_) => 42 case _ => 36 }
    decreases f, 0
  {
    hide Decimal, Signed;
    match f
    case Array(fs) => if fs != [] { WireEnds(fs); }
    case _ =>
  }

  lemma {:induction false} WireEnds(fs: seq<Frame>)
    requires fs != []
    ensures var e := EncodeAll(fs); |e| >= 2 && e[|e| - 2..] == [13, 10]
    decreases fs, 1
  {
    hide Encode;
    WireShape(fs[0]);
    if |fs| > 1 { WireEnds(fs[1..]); } else { assert Encode(fs[0]) + EncodeAll([]) == Encode(fs[0]); }
  }

  lemma SmallDecimals()
    ensures Decimal(2) == [50] && Decimal(4) == [52] && Decimal(70) == [55, 48]
  {
    assert Decimal(7) == [55] && 70 / 10 == 7 && 70 % 10 == 0;
  }

  lemma WireParts()
    ensures Encode(BulkString([104, 105])) == [36, 50, 13, 10, 104, 105, 13, 10]
    ensures Encode(Integer(-70)) == [58, 45, 55, 48, 13, 10]
    ensures Encode(SimpleString([79, 75])) == [43, 79, 75, 13, 10] && Encode(Null) == [36, 45, 49, 13, 10]
  {
    hide Decimal;
    SmallDecimals();
  }

  lemma EncodeFirst(f: Frame, fs: seq<Frame>)
    ensures EncodeAll([f] + fs) == Encode(f) + EncodeAll(fs) && EncodeAll([]) == []
  {
    hide Encode;
    assert ([f] + fs)[1..] == fs;
  }

  /** One reply of every kind but errors, byte for byte. */
  lemma WireExample()
    ensures Encode(Array([BulkString([104, 105]), Integer(-70), SimpleString([79, 75]), Null])) ==
              [42, 52, 13, 10] + [36, 50, 13, 10, 104, 105, 13, 10] + [58, 45, 55, 48, 13, 10] + [43, 79, 75, 13, 10]
              + [36, 45, 49, 13, 10]
  {
    hide Decimal, EncodeAll;
    var a, b, c, d := BulkString([104, 105]), Integer(-70), SimpleString([79, 75]), Null;
    SmallDecimals();
    assert [a, b, c, d] == [a] + [b, c, d] && [b, c, d] == [b] + [c, d] && [c, d] == [c] + [d] && [d] == [d] + [];
    EncodeFirst(a, [b, c, d]);
    EncodeFirst(b, [c, d]);
    EncodeFirst(c, [d]);
    EncodeFirst(d, []);
    WireTail(a, b, c, d, EncodeAll([a, b, c, d]));
  }

  lemma WireTail(a: Frame, b: Frame, c: Frame, d: Frame, all: Bytes)
    requires a == BulkString([104, 105]) && b == Integer(-70) && c == SimpleString([79, 75]) && d == Null
    requires all == Encode(a) + (Encode(b) + (Encode(c) + (Encode(d) + [])))
    ensures [42] + [52] + CRLF + all ==
              [42, 52, 13, 10] + [36, 50, 13, 10, 104, 105, 13, 10] + [58, 45, 55, 48, 13, 10] + [43, 79, 75, 13, 10]
              + [36, 45, 49, 13, 10]
  {
    hide Encode;
    WireParts();
  }

  // ---- Length ------------------------------------------------------------------------

  function DigitCount(n: nat): nat {
    if n < 10 then 1 else 1 + DigitCount(n / 10)
  }

  function EncodeLen(f: Frame): nat
    decreases f, 0
  {
    match f
    case BulkString(b) => 1 + DigitCount(|b|) + 2 + |b| + 2
    case Array(fs) => LenFold(1 + DigitCount(|fs|) + 2, fs)
    case Null => 5
    case SimpleString(s) => 1 + |s| + 2
    case Error(s) => 1 + |s| + 2
    case Integer(i) => 1 + DigitCount(Abs(i)) + 2 + if i < 0 then 1 else 0
  }

  function LenFold(m: nat, fs: seq<Frame>): nat
    decreases fs, 1
  {
    if fs == [] then m else LenFold(m + EncodeLen(fs[0]), fs[1..])
  }

  lemma {:induction false} DigitCountExact(n: nat)
    ensures DigitCount(n) == |Decimal(n)|
  {
    if n >= 10 { DigitCountExact(n / 10); }
  }

  /** The computed length is the number of bytes the encoder appends. */
  lemma {:induction false} EncodeLenExact(f: Frame)
    ensures EncodeLen(f) == |Encode(f)|
    decreases f, 0
  {
    match f
    case BulkString(b) => DigitCountExact(|b|);
    case Array(fs) =>
      DigitCountExact(|fs|);
      LenFoldExact(1 + DigitCount(|fs|) + 2, fs);
    case Integer(i) => DigitCountExact(Abs(i));
    case _ =>
  }

  lemma {:induction false} LenFoldExact(m: nat, fs: seq<Frame>)
    ensures LenFold(m, fs) == m + |EncodeAll(fs)|
    decreases fs, 1
  {
    if fs != [] {
      EncodeLenExact(fs[0]);
      LenFoldExact(m + EncodeLen(fs[0]), fs[1..]);
    }
  }

  // ---- Unique decoding -----------------------------------------------------------------

  /** No CR LF pair inside. */
  predicate OneLine(s: Bytes) {
    forall k :: 0 <= k < |s| - 1 ==> !(s[k] == CR && s[k + 1] == LF)
  }

  /** Simple strings and errors stay on one line. Bulk strings are free. */
  predicate Clean(f: Frame) {
    match f
    case SimpleString(s) => OneLine(s)
    case Error(s) => OneLine(s)
    case Array(fs) => forall k :: 0 <= k < |fs| ==> Clean(fs[k])
    case _ => true
  }

  /** A line ends at its first CR LF. */
  lemma LineUnique(a: Bytes, x: Bytes, b: Bytes, y: Bytes)
    requires OneLine(a) && OneLine(b) && a + CRLF + x == b + CRLF + y
    ensures a == b && x == y
  {
    if |a| < |b| {
      LineShorter(a, x, b, y);
    } else if |b| < |a| {
      LineShorter(b, y, a, x);
    }
    var w := a + CRLF + x;
    assert a == w[..|a|] && b == w[..|b|] && x == w[|a| + 2..] && y == w[|b| + 2..];
  }

  lemma LineShorter(a: Bytes, x: Bytes, b: Bytes, y: Bytes)
    requires OneLine(a) && a + CRLF + x == b + CRLF + y && |a| < |b|
    ensures !OneLine(b)
  {
    var v, w := a + CRLF + x, b + CRLF + y;
    assert v[|a|] == CR && v[|a| + 1] == LF && w[|b|] == CR;
    assert b[|a|] == w[|a|] && b[|a| + 1] == w[|a| + 1];
  }

  lemma DigitsOneLine(s: Bytes)
    requires Digits(s)
    ensures OneLine(s) && OneLine([MINUS] + s)
  {
    var m := [MINUS] + s;
    assert forall k :: 0 <= k < |m| ==> m[k] == MINUS || IsDigit(m[k]);
  }

  /** Two printed numbers followed by CR LF agree only if the numbers do. */
  lemma NumberUnique(m: nat, x: Bytes, n: nat, y: Bytes)
    requires Decimal(m) + CRLF + x == Decimal(n) + CRLF + y
    ensures m == n && x == y
  {
    DigitsOneLine(Decimal(m));
    DigitsOneLine(Decimal(n));
    LineUnique(Decimal(m), x, Decimal(n), y);
    ValueDecimal(m);
    ValueDecimal(n);
  }

  lemma SignedUnique(m: int, x: Bytes, n: int, y: Bytes)
    requires Signed(m) + CRLF + x == Signed(n) + CRLF + y
    ensures m == n && x == y
  {
    DigitsOneLine(Decimal(Abs(m)));
    DigitsOneLine(Decimal(Abs(n)));
    LineUnique(Signed(m), x, Signed(n), y);
    SignedHead(m);
    SignedHead(n);
    ValueDecimal(Abs(m));
    ValueDecimal(Abs(n));
  }

  lemma SignedHead(n: int)
    ensures Signed(n) != [] && (Signed(n)[0] == MINUS <==> n < 0)
    ensures n < 0 ==> Signed(n)[1..] == Decimal(Abs(n))
  {
    if n >= 0 { assert IsDigit(Decimal(n)[0]); }
  }

  /** The first byte of an encoding, and what follows it. */
  function Tag(f: Frame): Octet {
    match f
    case SimpleString(_) => PLUS
    case Error(_) => MINUS
    case Integer(_) => COLON
    case BulkString(_) => DOLLAR
    case Array(_) => STAR
    case Null => DOLLAR
  }

  function Body(f: Frame): Bytes {
    Encode(f)[1..]
  }

  lemma TagFirst(f: Frame)
    ensures Encode(f) == [Tag(f)] + Body(f)
    ensures f.SimpleString? || f.Error? ==> Body(f) == f.text + CRLF
    ensures f.Integer? ==> Body(f) == Signed(f.i) + CRLF
    ensures f.BulkString? ==> Body(f) == Decimal(|f.text|) + CRLF + f.text + CRLF
    ensures f.Array? ==> Body(f) == Decimal(|f.frames|) + CRLF + EncodeAll(f.frames)
    ensures f.Null? ==> Body(f) == [MINUS, ZERO + 1] + CRLF
  {
    hide Decimal, Signed, EncodeAll;
    match f
    case SimpleString(s) => TagOff(PLUS, s, CRLF, [], []);
    case Error(s) => TagOff(MINUS, s, CRLF, [], []);
    case Integer(i) => TagOff(COLON, Signed(i), CRLF, [], []);
    case BulkString(b) => TagOff(DOLLAR, Decimal(|b|), CRLF, b, CRLF);
    case Array(fs) => TagOff(STAR, Decimal(|fs|), CRLF, EncodeAll(fs), []);
    case Null => TagOff(DOLLAR, [MINUS, ZERO + 1], CRLF, [], []);
  }

  /** What follows the first byte of a concatenation. */
  lemma TagOff(tag: Octet, a: Bytes, b: Bytes, c: Bytes, d: Bytes)
    ensures ([tag] + a + b + c + d)[1..] == a + b + c + d
    ensures a + b + [] + [] == a + b && [tag] + a + b + [] + [] == [tag] + a + b
    ensures a + b + c + [] == a + b + c && [tag] + a + b + c + [] == [tag] + a + b + c
  {
    Join3([tag], a, b, c);
    Group([tag], a + b + c, d);
  }

  /** The encoding is prefix-free: whatever follows, the first frame and the
   *  rest are determined. */
  lemma {:induction false} PrefixFree(f: Frame, x: Bytes, g: Frame, y: Bytes)
    requires Clean(f) && Clean(g) && Encode(f) + x == Encode(g) + y
    ensures f == g && x == y
    decreases f, 0
  {
    hide Encode, Clean, OneLine, Decimal, Signed;
    TagFirst(f);
    TagFirst(g);
    SameTag(f, x, g, y);
    if f.Array? && g.Array? {
      var fs, gs := f.frames, g.frames;
      CleanParts(f);
      CleanParts(g);
      Regroup(Decimal(|fs|), EncodeAll(fs), x);
      Regroup(Decimal(|gs|), EncodeAll(gs), y);
      NumberUnique(|fs|, EncodeAll(fs) + x, |gs|, EncodeAll(gs) + y);
      PrefixFreeAll(fs, x, gs, y);
    } else {
      LeafUnique(f, x, g, y);
    }
  }

  lemma Group<T>(a: seq<T>, b: seq<T>, c: seq<T>)
    ensures a + b + c == a + (b + c)
  {
  }

  lemma SameHeads<T>(a: seq<T>, x: seq<T>, b: seq<T>, y: seq<T>)
    requires |a| == |b| && a + x == b + y
    ensures a == b && x == y
  {
    assert a == (a + x)[..|a|] && b == (b + y)[..|b|] && x == (a + x)[|a|..] && y == (b + y)[|b|..];
  }

  lemma Regroup(a: Bytes, b: Bytes, c: Bytes)
    ensures a + CRLF + b + c == a + CRLF + (b + c)
  {
  }

  lemma CleanParts(f: Frame)
    requires Clean(f) && f.Array?
    ensures forall k :: 0 <= k < |f.frames| ==> Clean(f.frames[k])
  {
  }

  /** The same first byte, up to the null bulk string, and the same bodies. */
  lemma SameTag(f: Frame, x: Bytes, g: Frame, y: Bytes)
    requires Encode(f) + x == Encode(g) + y
    ensures Tag(f) == Tag(g) && Body(f) + x == Body(g) + y
  {
    hide Encode, Decimal, Signed, Body, Tag;
    TagFirst(f);
    TagFirst(g);
    Group([Tag(f)], Body(f), x);
    Group([Tag(g)], Body(g), y);
    SameHeads([Tag(f)], Body(f) + x, [Tag(g)], Body(g) + y);
    assert [Tag(f)][0] == [Tag(g)][0];
  }

  lemma LeafUnique(f: Frame, x: Bytes, g: Frame, y: Bytes)
    requires Clean(f) && Clean(g) && Tag(f) == Tag(g) && Body(f) + x == Body(g) + y && !f.Array?
    ensures f == g && x == y
  {
    hide Encode, Decimal, Signed, Body;
    TagFirst(f);
    TagFirst(g);
    if f.SimpleString? || f.Error? {
      Regroup(f.text, [], x);
      Regroup(g.text, [], y);
      LineUnique(f.text, x, g.text, y);
    } else if f.Integer? {
      SignedUnique(f.i, x, g.i, y);
    } else if f.BulkString? && g.BulkString? {
      BulkUnique(f.text, x, g.text, y);
    } else {
      NullFirst(f, x);
      NullFirst(g, y);
    }
  }

  lemma NullFirst(f: Frame, x: Bytes)
    requires f.BulkString? || f.Null?
    ensures |Body(f)| > 0 && ((Body(f) + x)[0] == MINUS <==> f.Null?)
    ensures f.Null? ==> (Body(f) + x)[4..] == x
  {
    TagFirst(f);
    if f.BulkString? { assert IsDigit(Decimal(|f.text|)[0]); }
  }

  lemma BulkUnique(s: Bytes, x: Bytes, t: Bytes, y: Bytes)
    requires Decimal(|s|) + CRLF + s + CRLF + x == Decimal(|t|) + CRLF + t + CRLF + y
    ensures s == t && x == y
  {
    hide Decimal;
    var u, v := s + CRLF + x, t + CRLF + y;
    Join3(Decimal(|s|) + CRLF, s, CRLF, x);
    Join3(Decimal(|t|) + CRLF, t, CRLF, y);
    NumberUnique(|s|, u, |t|, v);
    Group(s, CRLF, x);
    Group(t, CRLF, y);
    SameHeads(s, CRLF + x, t, CRLF + y);
    SameHeads(CRLF, x, CRLF, y);
  }

  lemma {:induction false} PrefixFreeAll(fs: seq<Frame>, x: Bytes, gs: seq<Frame>, y: Bytes)
    requires |fs| == |gs| && EncodeAll(fs) + x == EncodeAll(gs) + y
    requires (forall k :: 0 <= k < |fs| ==> Clean(fs[k])) && (forall k :: 0 <= k < |gs| ==> Clean(gs[k]))
    ensures fs == gs && x == y
    decreases fs, 1
  {
    hide Encode, Clean;
    if fs != [] {
      assert EncodeAll(fs) + x == Encode(fs[0]) + (EncodeAll(fs[1..]) + x);
      assert EncodeAll(gs) + y == Encode(gs[0]) + (EncodeAll(gs[1..]) + y);
      PrefixFree(fs[0], EncodeAll(fs[1..]) + x, gs[0], EncodeAll(gs[1..]) + y);
      PrefixFreeAll(fs[1..], x, gs[1..], y);
    } else {
      assert EncodeAll(fs) + x == x && EncodeAll(gs) + y == y;
    }
  }

  /** A pipelined concatenation decodes to one frame list only. */
  lemma {:induction false} PipelineUnique(fs: seq<Frame>, gs: seq<Frame>)
    requires (forall k :: 0 <= k < |fs| ==> Clean(fs[k])) && (forall k :: 0 <= k < |gs| ==> Clean(gs[k]))
    requires EncodeAll(fs) == EncodeAll(gs)
    ensures fs == gs
    decreases |fs|
  {
    if fs == [] || gs == [] {
      if fs != [] { TagFirst(fs[0]); }
      if gs != [] { TagFirst(gs[0]); }
    } else {
      PrefixFree(fs[0], EncodeAll(fs[1..]), gs[0], EncodeAll(gs[1..]));
      PipelineUnique(fs[1..], gs[1..]);
    }
  }

  /** Cleanness is needed: a line break inside a simple string ends the frame
   *  early, and the rest can pass for another frame. */
  lemma LineBreakForges(a: Bytes, b: Bytes)
    ensures Encode(SimpleString(a + CRLF + [PLUS] + b)) == EncodeAll([SimpleString(a), SimpleString(b)])
  {
    var f, g := SimpleString(a), SimpleString(b);
    assert [f, g][1..] == [g] && [g][1..] == [];
    assert EncodeAll([g]) == Encode(g) + [];
    assert EncodeAll([f, g]) == Encode(f) + Encode(g);
    Join3([PLUS], a, CRLF, [PLUS] + b + CRLF);
  }
}
