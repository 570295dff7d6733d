/** The reader, the check and the writer of address parameters agree. */
module AddressNormalForm {
  import opened Wrappers
  import opened Bytes
  import opened Text
  import opened Hex
  import opened AddressForm

  // ----- Text without white space -----

  /** Nothing to trim at either end. */
  predicate Tight(s: string) {
    |s| > 0 && !IsXmlSpace(s[0]) && !IsXmlSpace(s[|s| - 1])
  }

  lemma TightTrim(s: string)
    requires Tight(s)
    ensures Trim(s) == s
  {
  }

  // ----- Decimal numbers -----

  /** No leading zero, unless the number is a single digit. */
  predicate NoLeadingZero(s: string) {
    |s| > 1 ==> s[0] != '0'
  }

  lemma {:induction false} DecimalHasNoLeadingZero(n: nat)
    ensures NoLeadingZero(Decimal(n)) && (n > 0 ==> Decimal(n)[0] != '0')
  {
    if n >= 10 {
      DecimalHasNoLeadingZero(n / 10);
      assert Decimal(n)[0] == Decimal(n / 10)[0];
    }
  }

  lemma {:induction false} DecimalUnique(s: string)
    requires IsDecimal(s) && NoLeadingZero(s)
    ensures Decimal(DecimalValue(s)) == s
    ensures s[0] != '0' ==> DecimalValue(s) > 0
  {
    var front, c := s[..|s| - 1], s[|s| - 1];
    assert s == front + [c];
    if |s| > 1 {
      DecimalUnique(front);
      var v, d := DecimalValue(front), DigitValue(c);
      assert v > 0 && (v * 10 + d) / 10 == v && (v * 10 + d) % 10 == d;
    } else {
      assert DecimalValue(front) == 0;
    }
  }

  function Pow10(n: nat): (p: nat)
    ensures p > 0
  {
    if n == 0 then 1 else 10 * Pow10(n - 1)
  }

  lemma {:induction false} DecimalShort(n: nat, width: nat)
    requires width > 0 && n < Pow10(width)
    ensures |Decimal(n)| <= width
    decreases width
  {
    if n >= 10 {
      DecimalShort(n / 10, width - 1);
    }
  }

  lemma {:induction false} DecimalLong(s: string)
    requires IsDecimal(s) && s[0] != '0'
    ensures DecimalValue(s) >= Pow10(|s| - 1)
  {
    var front := s[..|s| - 1];
    if |s| > 1 {
      DecimalLong(front);
    } else {
      assert DecimalValue(front) == 0;
    }
  }

  lemma {:induction false} Pow10Monotone(a: nat, b: nat)
    requires a <= b
    ensures Pow10(a) <= Pow10(b)
    decreases b
  {
    if a < b {
      Pow10Monotone(a, b - 1);
    }
  }

  lemma Pow10Values()
    ensures Pow10(3) == 1000 && Pow10(5) == 100000 && Pow10(10) == 10_000_000_000
  {
    assert Pow10(5) == 10 * Pow10(4) && Pow10(4) == 10 * Pow10(3) && Pow10(3) == 10 * Pow10(2);
    assert Pow10(10) == 10 * Pow10(9) && Pow10(9) == 10 * Pow10(8) && Pow10(8) == 10 * Pow10(7);
    assert Pow10(7) == 10 * Pow10(6) && Pow10(6) == 10 * Pow10(5);
  }

  lemma {:induction false} DecimalValueTail(s: string)
    requires AllDigits(s) && |s| > 0 && s[0] == '0'
    ensures DecimalValue(s) == DecimalValue(s[1..])
  {
    if |s| > 1 {
      var front := s[..|s| - 1];
      DecimalValueTail(front);
      assert s[1..][..|s| - 2] == front[1..];
    } else {
      assert s[..0] == "" && s[1..] == "";
    }
  }

  lemma {:induction false} TrimZerosValue(s: string)
    requires AllDigits(s)
    ensures AllDigits(TrimZeros(s)) && DecimalValue(TrimZeros(s)) == DecimalValue(s)
    ensures |TrimZeros(s)| > 0 ==> TrimZeros(s)[0] != '0'
  {
    if |s| > 0 && s[0] == '0' {
      DecimalValueTail(s);
      TrimZerosValue(s[1..]);
    }
  }

  /** Reading a decimal number is reading its value, whatever its zeros. */
  lemma ReadDecimalMeans(s: string, max: U32)
    ensures ReadDecimal(s, max)
            == if IsDecimal(s) && DecimalValue(s) <= max then Some(DecimalValue(s)) else None
  {
    if IsDecimal(s) {
      TrimZerosValue(s);
      var digits := TrimZeros(s);
      if |digits| > 10 {
        DecimalLong(digits);
        Pow10Monotone(10, |digits| - 1);
        Pow10Values();
      }
    }
  }

  lemma NumberWritten(kind: Kind, n: nat)
    requires IsDecimalKind(kind) && Valid(kind, Number(n))
    ensures Check(kind, Decimal(n)) && Read(kind, Decimal(n)) == Some(Number(n)) && Tight(Decimal(n))
  {
    DecimalIsDigits(n);
    DecimalHasNoLeadingZero(n);
    ReadDecimalMeans(Decimal(n), MaxNumber(kind));
    Pow10Values();
    DecimalShort(n, 5);
    DigitsLack(Decimal(n), '\r');
    DigitsLack(Decimal(n), '\n');
    DigitsLack(Decimal(n), '\t');
  }

  // ----- Hexadecimal numbers -----

  lemma UpperIsTight(s: string)
    requires IsUpperHex(s)
    ensures Tight(s) && Lacks(s, '\r') && Lacks(s, '\n') && Lacks(s, '\t') && !HasWhitespace(s) && AllHex(s)
  {
  }

  lemma HexWritten(kind: Kind, n: nat)
    requires (kind.AppId? || kind.VlanId?) && Valid(kind, Number(n))
    ensures var s := Format(kind, Number(n));
            Check(kind, s) && Read(kind, s) == Some(Number(n)) && Tight(s)
  {
    Pow16Values();
    var width := if kind.AppId? then 4 else 3;
    HexOfFixed(n, width);
    UpperIsTight(HexFixed(n, width));
  }

  // ----- OSI selectors -----

  lemma OsiWritten(kind: Kind, o: seq<Byte>)
    requires IsOsi(kind) && Valid(kind, Octets(o))
    ensures Check(kind, OctetsText(o)) && Read(kind, OctetsText(o)) == Some(Octets(o)) && Tight(OctetsText(o))
  {
    UpperIsTight(OctetsText(o));
    OctetsRoundTrip(o);
  }

  // ----- Separated octets -----

  /** Text made of digits and one separator has no white space. */
  lemma JoinedIsTight(parts: seq<string>, c: char)
    requires |parts| > 0 && !IsXmlSpace(c)
    requires forall i :: 0 <= i < |parts| ==> |parts[i]| > 0 && AllUpper(parts[i])
    ensures var s := Join(parts, c); Tight(s) && Lacks(s, '\r') && Lacks(s, '\n') && Lacks(s, '\t')
  {
    JoinLacks(parts, c, '\r');
    JoinLacks(parts, c, '\n');
    JoinLacks(parts, c, '\t');
    JoinLacks(parts, c, ' ');
    JoinNotEmpty(parts, c);
  }

  lemma JoinNotEmpty(parts: seq<string>, c: char)
    requires |parts| > 0 && |parts[0]| > 0
    ensures |Join(parts, c)| > 0
  {
  }

  lemma {:induction false} JoinPairsLength(parts: seq<string>, c: char)
    requires |parts| > 0 && forall i :: 0 <= i < |parts| ==> |parts[i]| == 2
    ensures |Join(parts, c)| == 3 * |parts| - 1
  {
    if |parts| > 1 {
      JoinPairsLength(parts[1..], c);
    }
  }

  lemma {:induction false} JoinHas(parts: seq<string>, c: char)
    requires |parts| > 1
    ensures !Lacks(Join(parts, c), c)
  {
    assert Join(parts, c)[|parts[0]|] == c;
  }

  lemma HexTextsRoundTrip(o: seq<Byte>)
    ensures AllOctetHex(HexTexts(o)) && OctetsOf(HexTexts(o)) == o
  {
    forall i | 0 <= i < |o|
      ensures OctetOf(HexTexts(o)[i]) == o[i]
    {
      OctetRoundTrip(o[i]);
    }
  }

  lemma MacWritten(o: seq<Byte>)
    requires |o| == 6
    ensures var s := Join(HexTexts(o), '-');
            Check(Mac, s) && Read(Mac, s) == Some(Octets(o)) && Tight(s)
  {
    var parts := HexTexts(o);
    SplitOfJoin(parts, '-');
    JoinPairsLength(parts, '-');
    JoinedIsTight(parts, '-');
    JoinHas(parts, '-');
    HexTextsRoundTrip(o);
  }

  lemma DecimalOctet(octet: Byte)
    ensures var s := Decimal(octet);
            IsSchemaOctet(s) && NoLeadingZero(s) && ReadDecimal(s, 255) == Some(octet as nat) && AllUpper(s)
  {
    DecimalIsDigits(octet);
    DecimalHasNoLeadingZero(octet);
    ReadDecimalMeans(Decimal(octet), 255);
    Pow10Values();
    DecimalShort(octet, 3);
  }

  lemma DecimalTextsRoundTrip(o: seq<Byte>)
    ensures AllOctetDecimal(DecimalTexts(o)) && DecimalOctets(DecimalTexts(o)) == o
    ensures forall i :: 0 <= i < |o| ==> AllUpper(DecimalTexts(o)[i]) && IsSchemaOctet(DecimalTexts(o)[i])
    ensures AllLack(DecimalTexts(o), '.')
  {
    forall i | 0 <= i < |o|
      ensures var s := DecimalTexts(o)[i];
              IsOctetDecimal(s) && ReadDecimal(s, 255) == Some(o[i] as nat) && AllUpper(s) && IsSchemaOctet(s)
    {
      DecimalOctet(o[i]);
    }
  }

  lemma Ipv4Written(o: seq<Byte>)
    requires |o| == 4
    ensures var s := Join(DecimalTexts(o), '.');
            Check(Ipv4, s) && Read(Ipv4, s) == Some(Octets(o)) && Tight(s)
  {
    var parts := DecimalTexts(o);
    DecimalTextsRoundTrip(o);
    SplitOfJoin(parts, '.');
    JoinedIsTight(parts, '.');
  }

  // ----- The normal form -----

  /** Every value of a kind is written in the schema form and reads back. */
  lemma Written(kind: Kind, v: Value)
    requires Valid(kind, v)
    ensures var s := Format(kind, v); Check(kind, s) && Read(kind, s) == Some(v) && Trim(s) == s && |s| > 0
  {
    match v {
      case Octets(o) =>
        if kind.Ipv4? {
          Ipv4Written(o);
        } else if kind.Mac? {
          MacWritten(o);
        } else {
          OsiWritten(kind, o);
        }
      case Number(n) =>
        if IsDecimalKind(kind) {
          NumberWritten(kind, n);
        } else {
          HexWritten(kind, n);
        }
    }
    TightTrim(Format(kind, v));
  }

  /** Whatever is rewritten has the schema form, reads as the same value and is
      rewritten to itself. */
  lemma NormalForm(kind: Kind, value: string)
    requires SchemaValue(kind, value).Some?
    ensures var s := SchemaValue(kind, value).value;
            && Check(kind, s)
            && Read(kind, Trim(s)) == Read(kind, Trim(value))
            && SchemaValue(kind, s) == Some(s)
  {
    ReadIsValid(kind, Trim(value));
    Written(kind, Read(kind, Trim(value)).value);
  }

  lemma UpperRead(kind: Kind, s: string)
    requires IsUpperHex(s)
    ensures kind.AppId? && |s| == 4 ==> Read(kind, s) == Some(Number(HexValue(s)))
    ensures kind.VlanId? && |s| == 3 ==> Read(kind, s) == Some(Number(HexValue(s)))
    ensures IsOsi(kind) && |s| % 2 == 0 && |s| <= 2 * MaxOctets(kind) ==> Read(kind, s) == Some(Octets(HexOctets(s)))
  {
    UpperIsTight(s);
    HexValueBound(s);
    Pow16Values();
  }

  lemma MacRead(s: string)
    requires Check(Mac, s)
    ensures Tight(s) && ReadMac(s).Some? && Join(HexTexts(ReadMac(s).value), '-') == s
  {
    var parts := Split(s, '-');
    JoinOfSplit(s, '-');
    if Lacks(s, '-') {
      SplitPlain(s, '-');
    }
    JoinedIsTight(parts, '-');
    forall i | 0 <= i < |parts|
      ensures OctetText(OctetOf(parts[i])) == parts[i]
    {
      PairRoundTrip(parts[i]);
    }
    assert HexTexts(OctetsOf(parts)) == parts;
  }

  lemma Ipv4Read(s: string)
    requires Check(Ipv4, s)
    ensures Tight(s) && ReadIpv4(s).Some?
    ensures AllNoLeadingZero(s) ==> Join(DecimalTexts(ReadIpv4(s).value), '.') == s
  {
    var parts := Split(s, '.');
    JoinOfSplit(s, '.');
    forall i | 0 <= i < |parts|
      ensures IsOctetDecimal(parts[i]) && AllUpper(parts[i])
      ensures NoLeadingZero(parts[i]) ==> Decimal(ReadDecimal(parts[i], 255).value) == parts[i]
    {
      ReadDecimalMeans(parts[i], 255);
      if NoLeadingZero(parts[i]) {
        DecimalUnique(parts[i]);
      }
    }
    JoinedIsTight(parts, '.');
    if AllNoLeadingZero(s) {
      assert DecimalTexts(DecimalOctets(parts)) == parts;
    }
  }

  /** No octet of a dotted address has a leading zero. */
  predicate AllNoLeadingZero(s: string) {
    var parts := Split(s, '.');
    forall i :: 0 <= i < |parts| ==> NoLeadingZero(parts[i])
  }

  lemma DecimalRead(kind: Kind, s: string)
    requires IsDecimalKind(kind) && Check(kind, s)
    ensures Tight(s) && Read(kind, s) == Some(Number(DecimalValue(s))) && Decimal(DecimalValue(s)) == s
  {
    assert kind.VlanPriority? ==> s[..0] == "";
    ReadDecimalMeans(s, MaxNumber(kind));
    DecimalUnique(s);
  }

  lemma UpperChecked(kind: Kind, s: string)
    requires (kind.AppId? || kind.VlanId? || IsOsi(kind)) && Check(kind, s)
    ensures Tight(s) && Read(kind, s).Some? && Valid(kind, Read(kind, s).value)
    ensures Format(kind, Read(kind, s).value) == s
  {
    UpperIsTight(s);
    UpperRead(kind, s);
    ReadIsValid(kind, s);
    FixedOfHex(s);
    if IsOsi(kind) {
      RunRoundTrip(s);
    }
  }

  /** A value in the schema form can be read. It is the form it is rewritten to,
      except that the schema lets a dotted octet of two digits begin with a
      zero. */
  lemma CheckedIsReadable(kind: Kind, value: string)
    requires Check(kind, value)
    ensures Read(kind, Trim(value)).Some?
    ensures (kind.Ipv4? ==> AllNoLeadingZero(value)) ==> SchemaValue(kind, value) == Some(value)
  {
    if kind.Ipv4? {
      Ipv4Read(value);
    } else if kind.Mac? {
      MacRead(value);
    } else if IsDecimalKind(kind) {
      DecimalRead(kind, value);
    } else {
      UpperChecked(kind, value);
    }
    TightTrim(value);
  }

  /** The fixed points of the rewriting, exactly. */
  lemma FixedPoints(kind: Kind, value: string)
    ensures SchemaValue(kind, value) == Some(value) <==>
              Check(kind, value) && (kind.Ipv4? ==> AllNoLeadingZero(value))
  {
    if SchemaValue(kind, value) == Some(value) {
      NormalForm(kind, value);
      if kind.Ipv4? {
        var o := Read(kind, Trim(value)).value.o;
        DecimalTextsRoundTrip(o);
        SplitOfJoin(DecimalTexts(o), '.');
        forall i | 0 <= i < |o|
          ensures NoLeadingZero(DecimalTexts(o)[i])
        {
          DecimalOctet(o[i]);
        }
      }
    }
    if Check(kind, value) {
      CheckedIsReadable(kind, value);
    }
  }

  datatype ValueForm = Canonical | Readable | Unreadable

  function FormOf(kind: Kind, value: string): ValueForm {
    if Check(kind, value) then Canonical
    else if SchemaValue(kind, value).Some? then Readable
    else Unreadable
  }

  /** A value is unreadable exactly when its accessor finds nothing. */
  lemma UnreadableExactly(kind: Kind, value: string)
    ensures FormOf(kind, value).Unreadable? <==> Read(kind, Trim(value)).None?
  {
    if Check(kind, value) {
      CheckedIsReadable(kind, value);
    } else if |Trim(value)| == 0 {
      EmptyIsUnreadable(kind);
    }
  }

  lemma EmptyIsUnreadable(kind: Kind)
    ensures Read(kind, "").None?
  {
    assert Split("", '.') == [""] && Split("", ':') == [""];
  }

  // ----- The octet loops -----

  /** Reads a MAC address part by part. */
  method ReadMacOctets(text: string) returns (r: Option<seq<Byte>>)
    ensures r == ReadMac(text)
    ensures r.Some? ==> |r.value| == 6
  {
    var separator := if '-' in text then '-' else ':';
    var parts := Split(text, separator);
    var mac: seq<Byte> := [];
    var i := 0;
    while i < 6
      invariant 0 <= i <= 6 && i <= |parts|
      invariant AllOctetHex(parts[..i]) && mac == OctetsOf(parts[..i])
    {
      if i == |parts| {
        return None;
      }
      var part := parts[i];
      if !(1 <= |part| <= 2) || !AllHex(part) {
        return None;
      }
      assert parts[..i + 1] == parts[..i] + [part];
      mac := mac + [OctetOf(part)];
      i := i + 1;
    }
    if |parts| > 6 {
      return None;
    }
    assert parts[..6] == parts;
    return Some(mac);
  }

  /** Reads a dotted address octet by octet. */
  method ReadIpv4Octets(text: string) returns (r: Option<seq<Byte>>)
    ensures r == ReadIpv4(text)
    ensures r.Some? ==> |r.value| == 4
  {
    var parts := Split(text, '.');
    var octets: seq<Byte> := [];
    var i := 0;
    while i < 4
      invariant 0 <= i <= 4 && i <= |parts|
      invariant AllOctetDecimal(parts[..i]) && octets == DecimalOctets(parts[..i])
    {
      if i == |parts| || |parts[i]| > 3 {
        return None;
      }
      var octet := ReadDecimal(parts[i], 255);
      if octet.None? {
        return None;
      }
      assert parts[..i + 1] == parts[..i] + [parts[i]];
      octets := octets + [octet.value];
      i := i + 1;
    }
    if |parts| > 4 {
      return None;
    }
    assert parts[..4] == parts;
    return Some(octets);
  }
}
