/** Hexadecimal digits and the octets they spell. */
module Hex {
  import opened Bytes

  predicate IsHex(c: char) {
    '0' <= c <= '9' || 'A' <= c <= 'F' || 'a' <= c <= 'f'
  }

  predicate IsUpper(c: char) {
    '0' <= c <= '9' || 'A' <= c <= 'F'
  }

  predicate AllHex(s: string) {
    forall i :: 0 <= i < |s| ==> IsHex(s[i])
  }

  predicate AllUpper(s: string) {
    forall i :: 0 <= i < |s| ==> IsUpper(s[i])
  }

  function HexDigit(c: char): (d: nat)
    requires IsHex(c)
    ensures d < 16
  {
    if c <= '9' then c as int - '0' as int
    else if c <= 'F' then c as int - 'A' as int + 10
    else c as int - 'a' as int + 10
  }

  function UpperDigit(d: nat): (c: char)
    requires d < 16
    ensures IsUpper(c) && HexDigit(c) == d
  {
    if d < 10 then '0' + d as char else 'A' + (d - 10) as char
  }

  function HexValue(s: string): nat
    requires AllHex(s)
  {
    if |s| == 0 then 0 else HexValue(s[..|s| - 1]) * 16 + HexDigit(s[|s| - 1])
  }

  /** The lowest `width` digits of a number, in upper case. */
  function HexFixed(v: nat, width: nat): (s: string)
    ensures |s| == width && AllUpper(s)
  {
    if width == 0 then "" else HexFixed(v / 16, width - 1) + [UpperDigit(v % 16)]
  }

  function Pow16(n: nat): (p: nat)
    ensures p > 0
  {
    if n == 0 then 1 else 16 * Pow16(n - 1)
  }

  lemma Pow16Values()
    ensures Pow16(1) == 0x10 && Pow16(2) == 0x100 && Pow16(3) == 0x1000 && Pow16(4) == 0x1_0000
  {
  }

  lemma {:induction false} HexValueBound(s: string)
    requires AllHex(s)
    ensures HexValue(s) < Pow16(|s|)
  {
    if |s| > 0 {
      HexValueBound(s[..|s| - 1]);
    }
  }

  lemma {:induction false} HexOfFixed(v: nat, width: nat)
    requires v < Pow16(width)
    ensures HexValue(HexFixed(v, width)) == v
    decreases width
  {
    if width > 0 {
      HexOfFixed(v / 16, width - 1);
      var s := HexFixed(v, width);
      assert s[..|s| - 1] == HexFixed(v / 16, width - 1);
    }
  }

  lemma UpperUnique(c: char)
    requires IsUpper(c)
    ensures UpperDigit(HexDigit(c)) == c
  {
  }

  lemma {:induction false} FixedOfHex(s: string)
    requires AllUpper(s)
    ensures HexFixed(HexValue(s), |s|) == s
  {
    if |s| > 0 {
      var front, c := s[..|s| - 1], s[|s| - 1];
      FixedOfHex(front);
      UpperUnique(c);
      var v, d := HexValue(front), HexDigit(c);
      assert (v * 16 + d) / 16 == v && (v * 16 + d) % 16 == d;
      assert s == front + [c];
    }
  }

  // ----- Octets -----

  function OctetText(octet: Byte): (s: string)
    ensures |s| == 2 && AllUpper(s)
  {
    HexFixed(octet, 2)
  }

  function OctetOf(pair: string): (octet: Byte)
    requires |pair| <= 2 && AllHex(pair)
  {
    HexValueBound(pair);
    Pow16Values();
    HexValue(pair)
  }

  lemma OctetRoundTrip(octet: Byte)
    ensures OctetOf(OctetText(octet)) == octet
  {
    Pow16Values();
    HexOfFixed(octet, 2);
  }

  lemma PairRoundTrip(pair: string)
    requires |pair| == 2 && AllUpper(pair)
    ensures OctetText(OctetOf(pair)) == pair
  {
    FixedOfHex(pair);
  }

  /** The octets of a run of digit pairs. */
  function HexOctets(s: string): (octets: seq<Byte>)
    requires |s| % 2 == 0 && AllHex(s)
    ensures |octets| * 2 == |s|
  {
    if |s| == 0 then [] else [OctetOf(s[..2])] + HexOctets(s[2..])
  }

  function OctetsText(octets: seq<Byte>): (s: string)
    ensures |s| == |octets| * 2 && AllUpper(s)
  {
    if |octets| == 0 then "" else OctetText(octets[0]) + OctetsText(octets[1..])
  }

  lemma {:induction false} OctetsRoundTrip(octets: seq<Byte>)
    ensures HexOctets(OctetsText(octets)) == octets
  {
    if |octets| > 0 {
      var s := OctetsText(octets);
      assert s[..2] == OctetText(octets[0]) && s[2..] == OctetsText(octets[1..]);
      OctetRoundTrip(octets[0]);
      OctetsRoundTrip(octets[1..]);
    }
  }

  lemma {:induction false} RunRoundTrip(s: string)
    requires |s| % 2 == 0 && AllUpper(s)
    ensures OctetsText(HexOctets(s)) == s
  {
    if |s| > 0 {
      PairRoundTrip(s[..2]);
      RunRoundTrip(s[2..]);
      assert s == s[..2] + s[2..];
      assert HexOctets(s)[1..] == HexOctets(s[2..]);
    }
  }
}
