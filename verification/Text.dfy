/** Splitting text at a separator, joining it again, and decimal numbers. Text
    holds one character for each octet of its UTF-8 form. */
module Text {
  import opened Wrappers
  import opened Bytes

  // ----- Separators -----

  predicate Lacks(s: string, c: char) {
    forall i :: 0 <= i < |s| ==> s[i] != c
  }

  lemma LacksConcat(a: string, b: string, c: char)
    ensures Lacks(a + b, c) <==> Lacks(a, c) && Lacks(b, c)
  {
    if Lacks(a + b, c) {
      assert forall i :: 0 <= i < |a| ==> a[i] == (a + b)[i];
      assert forall i :: 0 <= i < |b| ==> b[i] == (a + b)[|a| + i];
    }
  }

  /** The tokens between the occurrences of a separator; at least one. */
  function Split(s: string, c: char): (tokens: seq<string>)
    ensures |tokens| > 0
  {
    if |s| == 0 then [""]
    else
      var rest := Split(s[1..], c);
      if s[0] == c then [""] + rest else [[s[0]] + rest[0]] + rest[1..]
  }

  function Join(tokens: seq<string>, c: char): string
    requires |tokens| > 0
  {
    if |tokens| == 1 then tokens[0] else tokens[0] + [c] + Join(tokens[1..], c)
  }

  /** Where the first separator is; the length of the text when it has none. */
  function Position(s: string, c: char): (p: nat)
    ensures p <= |s| && Lacks(s[..p], c) && (p < |s| ==> s[p] == c)
  {
    if |s| == 0 || s[0] == c then 0
    else
      var p := Position(s[1..], c) + 1;
      assert s[..p] == [s[0]] + s[1..][..p - 1];
      p
  }

  predicate AllLack(tokens: seq<string>, c: char) {
    forall i :: 0 <= i < |tokens| ==> Lacks(tokens[i], c)
  }

  lemma {:induction false} SplitPlain(s: string, c: char)
    requires Lacks(s, c)
    ensures Split(s, c) == [s]
  {
    if |s| > 0 {
      SplitPlain(s[1..], c);
      assert [s[0]] + s[1..] == s;
    }
  }

  lemma {:induction false} SplitFirst(token: string, rest: string, c: char)
    requires Lacks(token, c)
    ensures Split(token + [c] + rest, c) == [token] + Split(rest, c)
  {
    var s := token + [c] + rest;
    if |token| == 0 {
      assert s[1..] == rest;
    } else {
      SplitFirst(token[1..], rest, c);
      assert s[1..] == token[1..] + [c] + rest;
      assert [token[0]] + token[1..] == token;
    }
  }

  lemma {:induction false} SplitOfJoin(tokens: seq<string>, c: char)
    requires |tokens| > 0 && AllLack(tokens, c)
    ensures Split(Join(tokens, c), c) == tokens
  {
    if |tokens| == 1 {
      SplitPlain(tokens[0], c);
    } else {
      SplitOfJoin(tokens[1..], c);
      SplitFirst(tokens[0], Join(tokens[1..], c), c);
    }
  }

  lemma {:induction false} JoinOfSplit(s: string, c: char)
    ensures AllLack(Split(s, c), c) && Join(Split(s, c), c) == s
  {
    if |s| > 0 {
      JoinOfSplit(s[1..], c);
      var rest := Split(s[1..], c);
      var tokens := Split(s, c);
      if s[0] == c {
        assert tokens[1..] == rest;
        assert "" + [c] + s[1..] == s;
      } else {
        assert tokens[1..] == rest[1..];
        assert [s[0]] + s[1..] == s;
        if |rest| > 1 {
          assert [s[0]] + rest[0] + [c] + Join(rest[1..], c) == [s[0]] + (rest[0] + [c] + Join(rest[1..], c));
        }
      }
    }
  }

  /** Text without one separator has tokens without it. */
  lemma {:induction false} SplitLacks(s: string, c: char, d: char)
    requires Lacks(s, d)
    ensures AllLack(Split(s, c), d)
  {
    if |s| > 0 {
      SplitLacks(s[1..], c, d);
    }
  }

  lemma {:induction false} JoinLacks(tokens: seq<string>, c: char, d: char)
    requires |tokens| > 0 && AllLack(tokens, d) && c != d
    ensures Lacks(Join(tokens, c), d)
  {
    if |tokens| > 1 {
      JoinLacks(tokens[1..], c, d);
    }
  }

  lemma JoinFirst(first: string, rest: seq<string>, c: char)
    requires |rest| > 0
    ensures Join([first] + rest, c) == first + [c] + Join(rest, c)
  {
    assert ([first] + rest)[1..] == rest;
  }

  lemma {:induction false} PositionOf(head: string, c: char, rest: string)
    requires Lacks(head, c)
    ensures Position(head + [c] + rest, c) == |head|
  {
    if |head| > 0 {
      PositionOf(head[1..], c, rest);
      assert (head + [c] + rest)[1..] == head[1..] + [c] + rest;
    }
  }

  // ----- Decimal numbers -----

  function Digit(d: nat): char
    requires d < 10
  {
    '0' + d as char
  }

  predicate IsDigit(c: char) {
    '0' <= c <= '9'
  }

  function DigitValue(c: char): (d: nat)
    requires IsDigit(c)
    ensures d < 10
  {
    c as int - '0' as int
  }

  predicate AllDigits(s: string) {
    forall i :: 0 <= i < |s| ==> IsDigit(s[i])
  }

  function Decimal(n: nat): (s: string)
    ensures |s| > 0
  {
    if n < 10 then [Digit(n)] else Decimal(n / 10) + [Digit(n % 10)]
  }

  function DecimalValue(s: string): nat
    requires AllDigits(s)
  {
    if |s| == 0 then 0 else DecimalValue(s[..|s| - 1]) * 10 + DigitValue(s[|s| - 1])
  }

  /** Reads an unsigned number of 32 bits: digits, a leading plus sign and
      leading zeros allowed. */
  function ParseU32(s: string): Option<U32> {
    var digits := if |s| > 0 && s[0] == '+' then s[1..] else s;
    if |digits| > 0 && AllDigits(digits) && DecimalValue(digits) <= U32_MAX then Some(DecimalValue(digits)) else None
  }

  lemma {:induction false} DecimalIsDigits(n: nat)
    ensures AllDigits(Decimal(n)) && DecimalValue(Decimal(n)) == n
  {
    if n >= 10 {
      DecimalIsDigits(n / 10);
      var s := Decimal(n);
      assert s[..|s| - 1] == Decimal(n / 10);
    } else {
      assert [Digit(n)][..0] == [];
    }
  }

  lemma DecimalRoundTrip(n: U32)
    ensures ParseU32(Decimal(n)) == Some(n)
  {
    DecimalIsDigits(n);
  }

  /** The printed form is the shortest. */
  lemma {:induction false} DecimalIsShortest(s: string)
    requires |s| > 0 && AllDigits(s)
    ensures |Decimal(DecimalValue(s))| <= |s|
  {
    var front, d := s[..|s| - 1], DigitValue(s[|s| - 1]);
    if |s| > 1 {
      DecimalIsShortest(front);
      var v := DecimalValue(front);
      assert (v * 10 + d) / 10 == v;
    } else {
      assert DecimalValue(front) == 0;
    }
  }

  lemma ParsedIsShortest(s: string)
    requires ParseU32(s).Some?
    ensures |Decimal(ParseU32(s).value)| <= |s|
  {
    DecimalIsShortest(if s[0] == '+' then s[1..] else s);
  }

  lemma DigitsLack(s: string, c: char)
    requires AllDigits(s) && !IsDigit(c)
    ensures Lacks(s, c)
  {
  }
}
