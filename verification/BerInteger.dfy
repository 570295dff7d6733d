/** Contents octets of a BER INTEGER (section 8.3 of ISO/IEC 8825-1).

    The encoder strips redundant leading octets from a fixed-width layout in a
    loop, once for `u32`, once for `i64` and once for `u64`. All three are
    proved to produce `IntegerContent`, the one shortest two's-complement form. */
module BerInteger {
  import opened Bytes

  /** The two's-complement value of contents octets (section 8.3.3). */
  function SignedValue(c: seq<Byte>): (i: int)
    requires |c| > 0
  {
    if |c| == 1 then
      if c[0] >= 0x80 then c[0] - 0x100 else c[0]
    else
      SignedValue(c[..|c| - 1]) * 256 + c[|c| - 1]
  }

  /** The first nine bits are neither all zero nor all one (section 8.3.2). */
  predicate Minimal(c: seq<Byte>) {
    && |c| > 0
    && (|c| > 1 ==> !(c[0] == 0x00 && c[1] < 0x80) && !(c[0] == 0xFF && c[1] >= 0x80))
  }

  /** The shortest contents octets of `i`. */
  function IntegerContent(i: int): (c: seq<Byte>)
    ensures |c| > 0
    decreases if i < 0 then -i else i
  {
    if -0x80 <= i < 0x80 then [i % 256] else IntegerContent(i / 256) + [i % 256]
  }

  lemma {:induction false} IntegerContentIsMinimal(i: int)
    ensures Minimal(IntegerContent(i))
    ensures SignedValue(IntegerContent(i)) == i
    decreases if i < 0 then -i else i
  {
    if !(-0x80 <= i < 0x80) {
      IntegerContentIsMinimal(i / 256);
      var c := IntegerContent(i);
      assert c[..|c| - 1] == IntegerContent(i / 256);
      if -0x80 <= i / 256 < 0x80 {
        assert IntegerContent(i / 256) == [(i / 256) % 256];
      }
    }
  }

  lemma {:induction false} LongMinimalIsWide(c: seq<Byte>)
    requires Minimal(c) && |c| > 1
    ensures !(-0x80 <= SignedValue(c) < 0x80)
  {
    var front := c[..|c| - 1];
    assert front[0] == c[0];
    if |c| > 2 {
      assert front[1] == c[1];
      LongMinimalIsWide(front);
    }
  }

  /** A value has only one minimal form. */
  lemma {:induction false} MinimalIsUnique(c: seq<Byte>)
    requires Minimal(c)
    ensures IntegerContent(SignedValue(c)) == c
  {
    if |c| == 1 {
      assert SignedValue(c) % 256 == c[0];
      assert c == [c[0]];
    } else {
      var front, last := c[..|c| - 1], c[|c| - 1];
      assert Minimal(front) by {
        assert front[0] == c[0];
        if |front| > 1 { assert front[1] == c[1]; }
      }
      LongMinimalIsWide(c);
      MinimalIsUnique(front);
      assert SignedValue(c) / 256 == SignedValue(front) && SignedValue(c) % 256 == last;
      assert c == front + [last];
    }
  }

  /** The first octet alone decides the sign. */
  lemma {:induction false} SignOfValue(c: seq<Byte>)
    requires |c| > 0
    ensures SignedValue(c) < 0 <==> c[0] >= 0x80
    ensures c[0] < 0x80 ==> SignedValue(c) == FromBigEndian(c)
  {
    var front := c[..|c| - 1];
    if |c| > 1 {
      assert front[0] == c[0];
      SignOfValue(front);
    } else {
      assert front == [];
    }
  }

  /** A leading octet that only repeats the sign carries no value. */
  lemma {:induction false} DropSignOctet(c: seq<Byte>)
    requires |c| > 1
    requires (c[0] == 0x00 && c[1] < 0x80) || (c[0] == 0xFF && c[1] >= 0x80)
    ensures SignedValue(c[1..]) == SignedValue(c)
  {
    var front := c[..|c| - 1];
    assert front[0] == c[0];
    if |c| == 2 {
      assert c[1..] == [c[1]];
      assert front == [c[0]];
    } else {
      assert front[1] == c[1];
      DropSignOctet(front);
      var tail := c[1..];
      assert tail[..|tail| - 1] == front[1..];
    }
  }

  /** Half the number of values of `k` octets: the two's-complement range. */
  function HalfRange(k: nat): (h: int)
    requires k > 0
  {
    if k == 1 then 0x80 else 256 * HalfRange(k - 1)
  }

  lemma {:induction false} SignedValueRange(c: seq<Byte>)
    requires |c| > 0
    ensures -HalfRange(|c|) <= SignedValue(c) < HalfRange(|c|)
  {
    if |c| > 1 {
      SignedValueRange(c[..|c| - 1]);
    }
  }

  lemma HalfRangeMonotone(j: nat, k: nat)
    requires 0 < j <= k
    ensures HalfRange(j) <= HalfRange(k)
  {
  }

  lemma HalfRangeOfEight()
    ensures HalfRange(8) == 0x8000_0000_0000_0000
  {
    assert HalfRange(3) == 0x80_0000;
    assert HalfRange(6) == 0x8000_0000_0000;
  }

  /** Up to eight octets denote an `i64`. */
  lemma EightOctetsFitI64(c: seq<Byte>)
    requires 0 < |c| <= 8
    ensures -0x8000_0000_0000_0000 <= SignedValue(c) < 0x8000_0000_0000_0000
  {
    SignedValueRange(c);
    HalfRangeMonotone(|c|, 8);
    HalfRangeOfEight();
  }

  /** An octet in front that extends a non-negative value. */
  lemma {:induction false} PrependZero(c: seq<Byte>)
    ensures SignedValue([0] + c) == FromBigEndian(c)
  {
    var z := [0] + c;
    if |c| > 0 {
      PrependZero(c[..|c| - 1]);
      assert z[..|z| - 1] == [0] + c[..|c| - 1];
    }
  }

  lemma {:induction false} SignedContentLength(i: int, k: nat)
    requires k > 0 && -HalfRange(k) <= i < HalfRange(k)
    ensures |IntegerContent(i)| <= k
    decreases k
  {
    if k > 1 && !(-0x80 <= i < 0x80) {
      SignedContentLength(i / 256, k - 1);
    }
  }

  /** Lays a `u32` out behind a sign octet and drops leading zero octets while
      one octet and a clear sign bit remain. */
  method EncodeU32(v: U32) returns (c: seq<Byte>)
    ensures c == IntegerContent(v)
  {
    var raw: seq<Byte> := [0x00] + ToBigEndian(v, 4);
    PrependZero(ToBigEndian(v, 4));
    BigEndianRoundTrip(v, 4);
    Pow256Values();
    var start := 0;
    while start < 4 && raw[start] == 0x00 && raw[start + 1] < 0x80
      invariant 0 <= start <= 4
      invariant SignedValue(raw[start..]) == v
    {
      DropSignOctet(raw[start..]);
      assert raw[start..][1..] == raw[start + 1..];
      start := start + 1;
    }
    c := raw[start..];
    SignOfValue(c);
    MinimalIsUnique(c);
  }

  /** The big-endian `u64` layout of an `i64`. */
  function I64Octets(i: I64): (s: seq<Byte>)
    ensures |s| == 8
  {
    ToBigEndian(if i >= 0 then i else i + 0x1_0000_0000_0000_0000, 8)
  }

  lemma {:induction false} SignedVersusUnsigned(c: seq<Byte>)
    requires |c| > 0
    ensures SignedValue(c) == if c[0] >= 0x80 then FromBigEndian(c) - Pow256(|c|) else FromBigEndian(c)
  {
    var front := c[..|c| - 1];
    if |c| > 1 {
      assert front[0] == c[0];
      SignedVersusUnsigned(front);
    } else {
      assert front == [];
      assert Pow256(1) == 256;
    }
  }

  lemma I64OctetsValue(i: I64)
    ensures SignedValue(I64Octets(i)) == i
  {
    var c := I64Octets(i);
    Pow256Values();
    BigEndianRoundTrip(if i >= 0 then i else i + 0x1_0000_0000_0000_0000, 8);
    SignedVersusUnsigned(c);
    EightOctetsFitI64(c);
  }

  /** Drops the octets of an `i64` that only repeat its sign. */
  method EncodeI64(i: I64) returns (c: seq<Byte>)
    ensures c == IntegerContent(i)
  {
    var be := I64Octets(i);
    I64OctetsValue(i);
    var start := 0;
    if i >= 0 {
      while start < 7 && be[start] == 0x00 && be[start + 1] < 0x80
        invariant 0 <= start <= 7
        invariant SignedValue(be[start..]) == i
      {
        DropSignOctet(be[start..]);
        assert be[start..][1..] == be[start + 1..];
        start := start + 1;
      }
    } else {
      while start < 7 && be[start] == 0xFF && be[start + 1] >= 0x80
        invariant 0 <= start <= 7
        invariant SignedValue(be[start..]) == i
      {
        DropSignOctet(be[start..]);
        assert be[start..][1..] == be[start + 1..];
        start := start + 1;
      }
    }
    c := be[start..];
    SignOfValue(c);
    MinimalIsUnique(c);
  }

  /** Lays a `u64` out behind a sign octet, so a value of 2^63 or more takes
      nine octets. */
  method EncodeU64(u: U64) returns (c: seq<Byte>)
    ensures c == IntegerContent(u)
  {
    var raw: seq<Byte> := [0x00] + ToBigEndian(u, 8);
    PrependZero(ToBigEndian(u, 8));
    BigEndianRoundTrip(u, 8);
    Pow256Values();
    var start := 0;
    while start < 8 && raw[start] == 0x00 && raw[start + 1] < 0x80
      invariant 0 <= start <= 8
      invariant SignedValue(raw[start..]) == u
    {
      DropSignOctet(raw[start..]);
      assert raw[start..][1..] == raw[start + 1..];
      start := start + 1;
    }
    c := raw[start..];
    SignOfValue(c);
    MinimalIsUnique(c);
  }
}
