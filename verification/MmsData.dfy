/** The Data values of allData: their BER encoding and its strict decoder. */
module MmsData {
  import opened Wrappers
  import opened Bytes
  import opened Utf8
  import opened GooseErrors
  import opened BerLength
  import opened BerInteger

  const TAG_ARRAY: Byte := 0xA1
  const TAG_STRUCTURE: Byte := 0xA2
  const TAG_BOOLEAN: Byte := 0x83
  const TAG_BIT_STRING: Byte := 0x84
  const TAG_INTEGER: Byte := 0x85
  const TAG_UNSIGNED: Byte := 0x86
  const TAG_FLOAT: Byte := 0x87
  const TAG_OCTET_STRING: Byte := 0x89
  const TAG_VISIBLE_STRING: Byte := 0x8A
  const TAG_BINARY_TIME: Byte := 0x8C
  const TAG_MMS_STRING: Byte := 0x90
  const TAG_UTC_TIME: Byte := 0x91
  /** Reserved AccessResult member, surfaced as an octet string. */
  const TAG_RESERVED: Byte := 0x80

  /** GOOSE_DATA_MAX_DEPTH, the nesting both directions accept. */
  const MAX_DEPTH := 8

  type Octets8 = s: seq<Byte> | |s| == 8 witness [0, 0, 0, 0, 0, 0, 0, 0]

  /** An MMS value; a float is its IEEE 754 bit pattern. */
  datatype MmsValue =
    | Boolean(b: bool)
    | Integer(i: I64)
    | Unsigned(u: U64)
    | Float32(bits32: U32)
    | Float64(bits64: U64)
    | BitString(padding: Byte, bits: seq<Byte>)
    | OctetString(octets: seq<Byte>)
    | VisibleString(visible: Utf8String)
    | MmsString(text: Utf8String)
    | UtcTime(utc: Octets8)
    | BinaryTime(binaryTime: seq<Byte>)
    | Array(items: seq<MmsValue>)
    | Structure(members: seq<MmsValue>)

  // ----- Encoding -----

  function Tag(v: MmsValue): Byte {
    match v
    case Boolean(_) => TAG_BOOLEAN
    case Integer(_) => TAG_INTEGER
    case Unsigned(_) => TAG_UNSIGNED
    case Float32(_) => TAG_FLOAT
    case Float64(_) => TAG_FLOAT
    case BitString(_, _) => TAG_BIT_STRING
    case OctetString(_) => TAG_OCTET_STRING
    case VisibleString(_) => TAG_VISIBLE_STRING
    case MmsString(_) => TAG_MMS_STRING
    case UtcTime(_) => TAG_UTC_TIME
    case BinaryTime(_) => TAG_BINARY_TIME
    case Array(_) => TAG_ARRAY
    case Structure(_) => TAG_STRUCTURE
  }

  predicate Constructed(v: MmsValue) {
    v.Array? || v.Structure?
  }

  /** Contents octets of a value that is no array or structure. */
  function PrimitiveContent(v: MmsValue): seq<Byte>
    requires !Constructed(v)
  {
    match v
    case Boolean(b) => [if b then 0x01 else 0x00]
    case Integer(i) => IntegerContent(i)
    case Unsigned(u) => IntegerContent(u)
    case Float32(bits) => [0x08] + ToBigEndian(bits, 4)
    case Float64(bits) => [0x0B] + ToBigEndian(bits, 8)
    case BitString(padding, bits) => [padding] + bits
    case OctetString(octets) => octets
    case VisibleString(text) => text
    case MmsString(text) => text
    case UtcTime(utc) => utc
    case BinaryTime(bt) => bt
  }

  function Content(v: MmsValue): seq<Byte>
    decreases v, 0
  {
    match v
    case Array(items) => EncodeAll(items)
    case Structure(members) => EncodeAll(members)
    case _ => PrimitiveContent(v)
  }

  /** The encoding of one value, leaving its nesting out of account. */
  function Encode(v: MmsValue): seq<Byte>
    decreases v, 1
  {
    Tlv(Tag(v), Content(v))
  }

  /** The encodings of the values one after the other. */
  function EncodeAll(vs: seq<MmsValue>): seq<Byte>
    decreases vs, 2
  {
    if |vs| == 0 then [] else Encode(vs[0]) + EncodeAll(vs[1..])
  }

  /** Levels of elements below a value. */
  function Nesting(v: MmsValue): nat
    decreases v, 1
  {
    match v
    case Array(items) => NestingBelow(items)
    case Structure(members) => NestingBelow(members)
    case _ => 0
  }

  /** One level more than the deepest of the values, 0 for none. */
  function NestingBelow(vs: seq<MmsValue>): (n: nat)
    decreases vs, 0
  {
    if |vs| == 0 then 0
    else
      var head, tail := 1 + Nesting(vs[0]), NestingBelow(vs[1..]);
      if head >= tail then head else tail
  }

  // ----- Decoding -----

  /** Decodes the content of an element that is no array or structure. */
  function DecodePrimitive(tag: Byte, value: seq<Byte>): (r: Result<MmsValue, GooseError>)
    ensures r.Ok? ==> !Constructed(r.value)
  {
    var n := |value|;
    if tag == TAG_BOOLEAN then
      Ok(Boolean(n > 0 && value[0] != 0))
    else if tag == TAG_BIT_STRING then
      if n < 2 then Err(LengthMismatch)
      else if value[0] > 7 then Err(InvalidPadding(value[0]))
      else Ok(BitString(value[0], value[1..]))
    else if tag == TAG_INTEGER then
      if n > 8 || n == 0 then Err(LengthMismatch)
      else
        EightOctetsFitI64(value);
        Ok(Integer(SignedValue(value)))
    else if tag == TAG_UNSIGNED then
      if n == 0 || n > 9 || (n == 9 && value[0] != 0) then Err(LengthMismatch)
      else
        var payload := if n == 9 then value[1..] else value;
        OctetsFit(payload, 8);
        Ok(Unsigned(FromBigEndian(payload)))
    else if tag == TAG_FLOAT then
      if n == 5 then
        OctetsFit(value[1..], 4);
        Ok(Float32(FromBigEndian(value[1..])))
      else if n == 9 then
        OctetsFit(value[1..], 8);
        Ok(Float64(FromBigEndian(value[1..])))
      else Err(LengthMismatch)
    else if tag == TAG_OCTET_STRING || tag == TAG_RESERVED then
      Ok(OctetString(value))
    else if tag == TAG_VISIBLE_STRING then
      if IsUtf8(value) then Ok(VisibleString(value)) else Err(UnknownTag(tag))
    else if tag == TAG_MMS_STRING then
      if IsUtf8(value) then Ok(MmsString(value)) else Err(UnknownTag(tag))
    else if tag == TAG_BINARY_TIME then
      if n != 4 && n != 6 then Err(LengthMismatch) else Ok(BinaryTime(value))
    else if tag == TAG_UTC_TIME then
      if n != 8 then Err(LengthMismatch) else Ok(UtcTime(value))
    else Err(UnknownTag(tag))
  }

  lemma OctetsFit(s: seq<Byte>, k: nat)
    requires |s| <= k && (k == 4 || k == 8)
    ensures k == 4 ==> FromBigEndian(s) < 0x1_0000_0000
    ensures k == 8 ==> FromBigEndian(s) < 0x1_0000_0000_0000_0000
  {
    FromBigEndianBound(s);
    Pow256Monotone(|s|, k);
    Pow256Values();
  }

  lemma Pow256Monotone(j: nat, k: nat)
    requires j <= k
    ensures Pow256(j) <= Pow256(k)
  {
  }

  /** Decodes the content of an element, recursing into arrays and structures. */
  function DecodeValue(tag: Byte, value: seq<Byte>, depth: nat): (r: Result<MmsValue, GooseError>)
    decreases |value|, 2
  {
    if tag == TAG_ARRAY then
      var items :- DecodeItems(value, depth + 1);
      Ok(Array(items))
    else if tag == TAG_STRUCTURE then
      var members :- DecodeItems(value, depth + 1);
      Ok(Structure(members))
    else
      DecodePrimitive(tag, value)
  }

  /** Decodes the element `d` starts with: its value and the octets it takes. */
  function DecodeElement(d: seq<Byte>, depth: nat): (r: Result<(MmsValue, nat), GooseError>)
    ensures r.Ok? ==> 0 < r.value.1 <= |d|
    decreases |d|, 0
  {
    if depth > MAX_DEPTH then Err(SubLevel(Overflow))
    else
      var (tag, start, end) :- ReadTlv(d);
      var v :- DecodeValue(tag, d[start..end], depth);
      Ok((v, end))
  }

  /** Decodes elements up to the end of `d`. */
  function DecodeItems(d: seq<Byte>, depth: nat): (r: Result<seq<MmsValue>, GooseError>)
    decreases |d|, 1
  {
    if |d| == 0 then Ok([])
    else
      var (v, n) :- DecodeElement(d, depth);
      var rest :- DecodeItems(d[n..], depth);
      Ok([v] + rest)
  }

  // ----- What survives the wire -----

  /** The values the decoder has a form for: a bit string with content and at
      most seven padding bits, a binary time of four or six octets. */
  predicate Storable(v: MmsValue)
    decreases v, 1
  {
    match v
    case BitString(padding, bits) => |bits| >= 1 && padding <= 7
    case BinaryTime(bt) => |bt| == 4 || |bt| == 6
    case Array(items) => AllStorable(items)
    case Structure(members) => AllStorable(members)
    case _ => true
  }

  predicate AllStorable(vs: seq<MmsValue>)
    decreases vs, 0
  {
    |vs| == 0 || (Storable(vs[0]) && AllStorable(vs[1..]))
  }

  /** A primitive survives exactly when the decoder has a form for it. */
  lemma PrimitiveRoundTrip(v: MmsValue)
    requires !Constructed(v)
    ensures DecodePrimitive(Tag(v), PrimitiveContent(v)) == Ok(v) <==> Storable(v)
  {
    Pow256Values();
    match v
    case Integer(i) =>
      IntegerContentIsMinimal(i);
      HalfRangeOfEight();
      SignedContentLength(i, 8);
    case Unsigned(u) =>
      UnsignedContent(u);
    case Float32(bits) =>
      BigEndianRoundTrip(bits, 4);
      assert PrimitiveContent(v)[1..] == ToBigEndian(bits, 4);
    case Float64(bits) =>
      BigEndianRoundTrip(bits, 8);
      assert PrimitiveContent(v)[1..] == ToBigEndian(bits, 8);
    case BitString(padding, bits) =>
      assert PrimitiveContent(v)[1..] == bits;
    case _ =>
  }

  /** An unsigned value takes at most eight octets behind its sign octet, and
      reads back as an unsigned run of octets. */
  lemma UnsignedContent(u: U64)
    ensures var c := IntegerContent(u);
            && |c| <= 9 && (|c| == 9 ==> c[0] == 0)
            && FromBigEndian(if |c| == 9 then c[1..] else c) == u
  {
    var c := IntegerContent(u);
    IntegerContentIsMinimal(u);
    SignOfValue(c);
    assert HalfRange(9) == 0x80_0000_0000_0000_0000 by { HalfRangeOfEight(); }
    SignedContentLength(u, 9);
    if |c| == 9 {
      NineOctets(c);
    }
  }

  lemma NineOctets(c: seq<Byte>)
    requires |c| == 9 && c[0] < 0x80 && FromBigEndian(c) < 0x1_0000_0000_0000_0000
    ensures c[0] == 0 && FromBigEndian(c[1..]) == FromBigEndian(c)
  {
    SplitHead(c);
    Pow256Values();
  }

  lemma {:induction false} SplitHead(c: seq<Byte>)
    requires |c| > 0
    ensures FromBigEndian(c) == c[0] * Pow256(|c| - 1) + FromBigEndian(c[1..])
  {
    var front := c[..|c| - 1];
    if |c| > 1 {
      SplitHead(front);
      assert c[1..][..|c| - 2] == front[1..];
      assert front[0] == c[0];
      assert FromBigEndian(c[1..]) == FromBigEndian(front[1..]) * 256 + c[|c| - 1];
      assert c[0] * Pow256(|c| - 1) == 256 * (c[0] * Pow256(|c| - 2));
    } else {
      assert front == [] && c[1..] == [];
    }
  }

  lemma {:induction false} ElementWithinAll(vs: seq<MmsValue>, k: nat)
    requires k < |vs|
    ensures |Content(vs[k])| < |Encode(vs[k])| <= |EncodeAll(vs)|
  {
    if k > 0 {
      ElementWithinAll(vs[1..], k - 1);
    }
  }

  /** A storable value whose content fits a length field comes back unchanged,
      whatever follows it. */
  lemma {:induction false} ElementRoundTrip(v: MmsValue, depth: nat, rest: seq<Byte>)
    requires Storable(v) && |Content(v)| <= MAX_LENGTH && depth + Nesting(v) <= MAX_DEPTH
    ensures DecodeElement(Encode(v) + rest, depth) == Ok((v, |Encode(v)|))
    decreases v, 2
  {
    ReadTlvOfTlv(Tag(v), Content(v), rest);
    ContentRoundTrip(v, depth);
  }

  lemma {:induction false} ContentRoundTrip(v: MmsValue, depth: nat)
    requires Storable(v) && |Content(v)| <= MAX_LENGTH && depth + Nesting(v) <= MAX_DEPTH
    ensures DecodeValue(Tag(v), Content(v), depth) == Ok(v)
    decreases v, 1
  {
    match v
    case Array(items) => ItemsRoundTrip(items, depth + 1);
    case Structure(members) => ItemsRoundTrip(members, depth + 1);
    case _ => PrimitiveRoundTrip(v);
  }

  lemma {:induction false} ItemsRoundTrip(vs: seq<MmsValue>, depth: nat)
    requires AllStorable(vs) && |EncodeAll(vs)| <= MAX_LENGTH
    requires depth + NestingBelow(vs) <= MAX_DEPTH + 1
    ensures DecodeItems(EncodeAll(vs), depth) == Ok(vs)
    decreases vs, 0
  {
    if |vs| > 0 {
      ElementWithinAll(vs, 0);
      ElementRoundTrip(vs[0], depth, EncodeAll(vs[1..]));
      assert EncodeAll(vs)[|Encode(vs[0])|..] == EncodeAll(vs[1..]);
      ItemsRoundTrip(vs[1..], depth);
      assert vs == [vs[0]] + vs[1..];
    }
  }

  /** Cut short of its content, no primitive decodes to itself. */
  lemma TruncatedPrimitive(v: MmsValue, seen: nat)
    requires !Constructed(v) && seen < |PrimitiveContent(v)| && |PrimitiveContent(v)| > MAX_LENGTH
    ensures DecodePrimitive(Tag(v), PrimitiveContent(v)[..seen]) != Ok(v)
  {
    HalfRangeOfEight();
    match v
    case Integer(i) => SignedContentLength(i, 8);
    case Unsigned(u) => UnsignedContent(u);
    case _ =>
  }

  lemma PrimitiveFaithful(v: MmsValue)
    requires !Constructed(v)
    requires DecodePrimitive(Tag(v), PrimitiveContent(v)[..Stated(|PrimitiveContent(v)|)]) == Ok(v)
    ensures Storable(v) && |PrimitiveContent(v)| <= MAX_LENGTH
  {
    var content := PrimitiveContent(v);
    if |content| > MAX_LENGTH {
      TruncatedPrimitive(v, Stated(|content|));
    } else {
      assert content[..|content|] == content;
      PrimitiveRoundTrip(v);
    }
  }

  /** What decoding any part `d` of a value and its successors looked at. */
  lemma ElementSeen(v: MmsValue, depth: nat, rest: seq<Byte>, d: seq<Byte>)
    requires d <= Encode(v) + rest
    requires DecodeElement(d, depth).Ok? && DecodeElement(d, depth).value.0 == v
    ensures DecodeValue(Tag(v), Content(v)[..Stated(|Content(v)|)], depth) == Ok(v)
    ensures DecodeElement(d, depth).value.1 == |Encode(v)| - |Content(v)| + Stated(|Content(v)|)
  {
    ReadTlvOfPrefix(Tag(v), Content(v), rest, d);
    var (tag, start, end) := ReadTlv(d).value;
    assert tag == Tag(v) && end == start + Stated(|Content(v)|);
    assert d[start..end] == Content(v)[..Stated(|Content(v)|)];
  }

  /** The converse of `ElementRoundTrip`: a value that comes back from any part
      of its own encoding was storable and fitted its length field. */
  lemma {:induction false} ElementFaithful(v: MmsValue, depth: nat, rest: seq<Byte>, d: seq<Byte>)
    requires d <= Encode(v) + rest
    requires DecodeElement(d, depth).Ok? && DecodeElement(d, depth).value.0 == v
    ensures Storable(v) && |Content(v)| <= MAX_LENGTH
    ensures DecodeElement(d, depth).value.1 == |Encode(v)|
    decreases v, 1
  {
    var seen := Stated(|Content(v)|);
    ElementSeen(v, depth, rest, d);
    match v
    case Array(items) => ItemsFaithful(items, depth + 1, Content(v)[..seen]);
    case Structure(members) => ItemsFaithful(members, depth + 1, Content(v)[..seen]);
    case _ => PrimitiveFaithful(v);
  }

  lemma {:induction false} ItemsFaithful(vs: seq<MmsValue>, depth: nat, d: seq<Byte>)
    requires d <= EncodeAll(vs)
    requires DecodeItems(d, depth) == Ok(vs)
    ensures AllStorable(vs) && d == EncodeAll(vs)
    decreases vs, 0
  {
    if |d| > 0 {
      var n := DecodeElement(d, depth).value.1;
      var tail := DecodeItems(d[n..], depth).value;
      assert vs[1..] == tail;
      ElementFaithful(vs[0], depth, EncodeAll(vs[1..]), d);
      assert d[n..] <= EncodeAll(vs)[n..] == EncodeAll(vs[1..]);
      ItemsFaithful(vs[1..], depth, d[n..]);
      assert d == d[..n] + d[n..];
      assert d[..n] == EncodeAll(vs)[..n] == Encode(vs[0]);
    }
  }

  /** Whatever the decoder accepts, from any octets, is storable and within the
      nesting the encoder accepts. */
  lemma {:induction false} DecodedElementIsStorable(d: seq<Byte>, depth: nat)
    requires DecodeElement(d, depth).Ok?
    ensures Storable(DecodeElement(d, depth).value.0)
    ensures depth + Nesting(DecodeElement(d, depth).value.0) <= MAX_DEPTH
    decreases |d|, 0
  {
    var (tag, start, end) := ReadTlv(d).value;
    if tag == TAG_ARRAY || tag == TAG_STRUCTURE {
      DecodedItemsAreStorable(d[start..end], depth + 1);
    }
  }

  lemma {:induction false} DecodedItemsAreStorable(d: seq<Byte>, depth: nat)
    requires depth <= MAX_DEPTH + 1 && DecodeItems(d, depth).Ok?
    ensures AllStorable(DecodeItems(d, depth).value)
    ensures depth + NestingBelow(DecodeItems(d, depth).value) <= MAX_DEPTH + 1
    decreases |d|, 1
  {
    if |d| > 0 {
      var n := DecodeElement(d, depth).value.1;
      DecodedElementIsStorable(d, depth);
      DecodedItemsAreStorable(d[n..], depth);
      assert DecodeItems(d, depth).value[1..] == DecodeItems(d[n..], depth).value;
    }
  }
}
