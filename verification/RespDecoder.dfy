/** A reference decoder for RESP2 replies: lines end at their first CR LF, bulk
 *  strings have their announced length. It is the partner of the encoder. */
module RespDecoder {
  import opened Basics
  import opened Resp

  /** The text before the first CR LF, and what follows it. */
  function Line(d: Bytes): (r: Option<(Bytes, Bytes)>)
    ensures r.Some? ==> |r.value.1| < |d|
  {
    if |d| < 2 then None
    else if d[0] == CR && d[1] == LF then Some(([], d[2..]))
    else
      var rest := Line(d[1..]);
      if rest.None? then None else Some(([d[0]] + rest.value.0, rest.value.1))
  }

  function IntegerOf(text: Bytes): Option<Frame> {
    if IsSigned(text) && I64_MIN <= SignedValue(text) <= I64_MAX then Some(Integer(SignedValue(text))) else None
  }

  /** The bulk string of length `n` at the front of `d`. */
  function BulkOf(d: Bytes, n: nat): (r: Option<(Frame, Bytes)>)
    ensures r.Some? ==> |r.value.1| <= |d|
  {
    if n + 2 <= |d| && d[n..n + 2] == CRLF then Some((BulkString(d[..n]), d[n + 2..])) else None
  }

  function Decode(d: Bytes): (r: Option<(Frame, Bytes)>)
    ensures r.Some? ==> |r.value.1| < |d|
    decreases |d|, 0, 0
  {
    if d == [] then None
    else
      var line := Line(d[1..]);
      if line.None? then None
      else
        var (text, rest) := line.value;
        if d[0] == PLUS then Some((SimpleString(text), rest))
        else if d[0] == MINUS then Some((Error(text), rest))
        else if d[0] == COLON then
          (if IntegerOf(text).Some? then Some((IntegerOf(text).value, rest)) else None)
        else if d[0] == DOLLAR && text == [MINUS, ZERO + 1] then Some((Null, rest))
        else if d[0] == DOLLAR && text != [] && Digits(text) then BulkOf(rest, NumberOf(text))
        else if d[0] == STAR && text != [] && Digits(text) then
          var items := DecodeAll(rest, NumberOf(text));
          if items.None? then None else Some((Array(items.value.0), items.value.1))
        else None
  }

  /** `n` frames in a row. */
  function DecodeAll(d: Bytes, n: nat): (r: Option<(seq<Frame>, Bytes)>)
    ensures r.Some? ==> |r.value.1| <= |d|
    decreases |d|, 1, n
  {
    if n == 0 then Some(([], d))
    else
      var first := Decode(d);
      if first.None? then None
      else
        var more := DecodeAll(first.value.1, n - 1);
        if more.None? then None else Some(([first.value.0] + more.value.0, more.value.1))
  }

  // ---- Lines -------------------------------------------------------------------------

  lemma {:induction false} LineSound(d: Bytes)
    requires Line(d).Some?
    ensures var (a, x) := Line(d).value; OneLine(a) && d == a + CRLF + x
    decreases |d|
  {
    if !(d[0] == CR && d[1] == LF) {
      LineSound(d[1..]);
      var (a, x) := Line(d[1..]).value;
      assert d == [d[0]] + d[1..] == [d[0]] + (a + CRLF + x);
      assert d[1..][0] == d[1] == (a + CRLF + x)[0];
      Longer(d[0], a);
    } else {
      assert d == [] + CRLF + d[2..];
    }
  }

  lemma Longer(b: Octet, a: Bytes)
    requires OneLine(a) && !(b == CR && (a + CRLF)[0] == LF)
    ensures OneLine([b] + a)
  {
    var s := [b] + a;
    forall k | 0 <= k < |s| - 1 ensures !(s[k] == CR && s[k + 1] == LF) {
      if k > 0 { assert s[k] == a[k - 1] && s[k + 1] == a[k]; } else { assert s[1] == a[0] == (a + CRLF)[0]; }
    }
  }

  lemma {:induction false} LineFound(a: Bytes, x: Bytes)
    requires OneLine(a)
    ensures Line(a + CRLF + x) == Some((a, x))
    decreases |a|
  {
    var d := a + CRLF + x;
    if a == [] {
      assert d == CRLF + x && d[2..] == x;
    } else {
      assert d[1..] == a[1..] + CRLF + x;
      assert OneLine(a[1..]);
      LineFound(a[1..], x);
      assert d[0] == a[0] && d[1] == if |a| > 1 then a[1] else CR;
      assert [a[0]] + a[1..] == a;
    }
  }

  // ---- Decoding inverts encoding ---------------------------------------------------------

  /** Clean frames survive, whatever follows. */
  lemma {:induction false} DecodeEncode(f: Frame, x: Bytes)
    requires Clean(f)
    ensures Decode(Encode(f) + x) == Some((f, x))
    decreases f, 0
  {
    hide Encode, Clean, OneLine, Decimal, Signed, Line, DecodeAll;
    TagFirst(f);
    var d := Encode(f) + x;
    assert d[0] == Tag(f) && d[1..] == Body(f) + x;
    match f
    case SimpleString(s) => CleanLine(f); LineFound(s, x);
    case Error(s) => CleanLine(f); LineFound(s, x);
    case Integer(i) => IntegerLine(i, x);
    case BulkString(b) => BulkLine(b, x);
    case Array(fs) =>
      CleanParts(f);
      Regroup(Decimal(|fs|), EncodeAll(fs), x);
      LengthLine(|fs|, EncodeAll(fs) + x);
      DecodeEncodeAll(fs, x);
    case Null => LineFoundNull(x);
  }

  lemma CleanLine(f: Frame)
    requires Clean(f) && (f.SimpleString? || f.Error?)
    ensures OneLine(f.text)
  {
  }

  lemma IntegerLine(i: Int64, x: Bytes)
    ensures Line(Signed(i) + CRLF + x) == Some((Signed(i), x)) && IntegerOf(Signed(i)) == Some(Integer(i))
  {
    hide Decimal, Line;
    DigitsOneLine(Decimal(Abs(i)));
    LineFound(Signed(i), x);
    ValueDecimal(Abs(i));
    SignedHead(i);
  }

  lemma LengthLine(n: nat, x: Bytes)
    ensures Line(Decimal(n) + CRLF + x) == Some((Decimal(n), x)) && NumberOf(Decimal(n)) == n
    ensures Decimal(n) != [] && Digits(Decimal(n)) && Decimal(n) != [MINUS, ZERO + 1]
  {
    hide Line;
    DigitsOneLine(Decimal(n));
    LineFound(Decimal(n), x);
    ValueDecimal(n);
    assert IsDigit(Decimal(n)[0]);
  }

  lemma BulkLine(b: Bytes, x: Bytes)
    ensures var r := b + CRLF + x; var d := Decimal(|b|) + CRLF + b + CRLF + x;
            && Line(d) == Some((Decimal(|b|), r)) && BulkOf(r, |b|) == Some((BulkString(b), x))
            && NumberOf(Decimal(|b|)) == |b| && Decimal(|b|) != [] && Digits(Decimal(|b|)) && Decimal(|b|) != [MINUS, ZERO + 1]
  {
    hide Line, Decimal, BulkOf;
    var r := b + CRLF + x;
    Join3(Decimal(|b|) + CRLF, b, CRLF, x);
    LengthLine(|b|, r);
    BulkTail(b, x);
  }

  lemma BulkTail(b: Bytes, x: Bytes)
    ensures BulkOf(b + CRLF + x, |b|) == Some((BulkString(b), x))
  {
    var r := b + CRLF + x;
    assert r[|b|..|b| + 2] == CRLF && r[..|b|] == b && r[|b| + 2..] == x;
  }

  lemma LineFoundNull(x: Bytes)
    ensures Line([MINUS, ZERO + 1] + CRLF + x) == Some(([MINUS, ZERO + 1], x))
  {
    LineFound([MINUS, ZERO + 1], x);
  }

  lemma {:induction false} DecodeEncodeAll(fs: seq<Frame>, x: Bytes)
    requires forall k :: 0 <= k < |fs| ==> Clean(fs[k])
    ensures DecodeAll(EncodeAll(fs) + x, |fs|) == Some((fs, x))
    decreases fs, 1
  {
    hide Encode, Clean, Decode;
    if fs == [] {
      assert EncodeAll(fs) + x == x;
    } else {
      Group(Encode(fs[0]), EncodeAll(fs[1..]), x);
      DecodeEncode(fs[0], EncodeAll(fs[1..]) + x);
      DecodeEncodeAll(fs[1..], x);
      assert [fs[0]] + fs[1..] == fs;
    }
  }

  // ---- Decoded frames are clean ------------------------------------------------------------

  lemma {:induction false} DecodeClean(d: Bytes)
    ensures Decode(d).Some? ==> Clean(Decode(d).value.0)
    decreases |d|, 0, 0
  {
    hide Line, OneLine, DecodeAll;
    if d != [] && Line(d[1..]).Some? {
      LineSound(d[1..]);
      var (text, rest) := Line(d[1..]).value;
      if d[0] == STAR && Digits(text) { DecodeAllClean(rest, NumberOf(text)); }
    }
  }

  lemma {:induction false} DecodeAllClean(d: Bytes, n: nat)
    ensures DecodeAll(d, n).Some? ==> forall k :: 0 <= k < |DecodeAll(d, n).value.0| ==> Clean(DecodeAll(d, n).value.0[k])
    decreases |d|, 1, n
  {
    hide Clean;
    if n > 0 && Decode(d).Some? {
      DecodeClean(d);
      DecodeAllClean(Decode(d).value.1, n - 1);
    }
  }

  /** The exact condition: the decoder recovers a frame and what follows it if
   *  and only if no simple string or error inside holds a CR LF. */
  lemma DecodesIff(f: Frame, x: Bytes)
    ensures Decode(Encode(f) + x) == Some((f, x)) <==> Clean(f)
  {
    hide Decode, Encode, Clean;
    if Clean(f) { DecodeEncode(f, x); }
    DecodeClean(Encode(f) + x);
  }

  /** The same for a pipelined list. */
  lemma PipelineDecodesIff(fs: seq<Frame>, x: Bytes)
    ensures DecodeAll(EncodeAll(fs) + x, |fs|) == Some((fs, x)) <==> forall k :: 0 <= k < |fs| ==> Clean(fs[k])
  {
    hide DecodeAll, EncodeAll, Clean;
    if forall k :: 0 <= k < |fs| ==> Clean(fs[k]) { DecodeEncodeAll(fs, x); }
    DecodeAllClean(EncodeAll(fs) + x, |fs|);
  }

  /** A text with a line break never stands alone: its encoding begins with that
   *  of a shorter, clean text. */
  lemma LineBreakShortens(s: Bytes) returns (a: Bytes, y: Bytes)
    requires !OneLine(s)
    ensures OneLine(a) && a != s && Encode(SimpleString(s)) == Encode(SimpleString(a)) + y
  {
    LineEnds(s + CRLF);
    LineSound(s + CRLF);
    var (b, rest) := Line(s + CRLF).value;
    a, y := b, rest;
    assert [PLUS] + s + CRLF == [PLUS] + (a + CRLF + y) == [PLUS] + a + CRLF + y;
  }

  lemma {:induction false} LineEnds(d: Bytes)
    requires |d| >= 2 && d[|d| - 2] == CR && d[|d| - 1] == LF
    ensures Line(d).Some?
    decreases |d|
  {
    if |d| > 2 { LineEnds(d[1..]); }
  }
}
