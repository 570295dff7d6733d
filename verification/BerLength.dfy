/** BER definite lengths (section 8.1.3 of ISO/IEC 8825-1) and the
    tag-length-value framing built on them. */
module BerLength {
  import opened Wrappers
  import opened Bytes
  import opened GooseErrors

  /** The longest length the two-octet long form can state. */
  const MAX_LENGTH := 0xFFFF

  /** A definite length. A length above `MAX_LENGTH` keeps its low 16 bits, as
      a release build of the encoder does. */
  function EncodeLength(len: nat): (s: seq<Byte>)
    ensures 1 <= |s| <= 3
  {
    if len < 128 then [len]
    else if len <= 0xFF then [0x81, len]
    else [0x82, len / 256 % 256, len % 256]
  }

  /** Reads a definite length: its value and the octets it takes. */
  function DecodeLength(data: seq<Byte>): (r: Result<(nat, nat), Asn1Error>)
    ensures r.Ok? ==> 1 <= r.value.1 <= |data| && r.value.1 <= 3 && r.value.0 <= MAX_LENGTH
  {
    if |data| == 0 then Err(TruncatedLength)
    else if data[0] < 0x80 then Ok((data[0], 1))
    else if data[0] == 0x81 then
      if |data| < 2 then Err(TruncatedLength) else Ok((data[1], 2))
    else if data[0] == 0x82 then
      if |data| < 3 then Err(TruncatedLength) else Ok((data[1] as int * 256 + data[2], 3))
    else Err(LengthTooLong(data[0]))
  }

  /** What a length field states of a length: its low 16 bits. */
  function Stated(len: nat): (n: nat)
    ensures n <= len && n <= MAX_LENGTH
    ensures n == len <==> len <= MAX_LENGTH
  {
    if len <= MAX_LENGTH then len else len % 0x1_0000
  }

  /** What the receiver reads back is the length modulo 2^16 when the long form
      overflows, so the length survives exactly up to `MAX_LENGTH`. */
  lemma LengthRoundTrip(len: nat, rest: seq<Byte>)
    ensures DecodeLength(EncodeLength(len) + rest) == Ok((Stated(len), |EncodeLength(len)|))
    ensures DecodeLength(EncodeLength(len) + rest) == Ok((len, |EncodeLength(len)|)) <==> len <= MAX_LENGTH
  {
    var e := EncodeLength(len);
    assert forall i :: 0 <= i < |e| ==> (e + rest)[i] == e[i];
    assert len % 0x1_0000 == len / 256 % 256 * 256 + len % 256;
  }

  /** No length field is shorter than the encoder's. */
  lemma EncodedLengthIsShortest(data: seq<Byte>)
    requires DecodeLength(data).Ok?
    ensures |EncodeLength(DecodeLength(data).value.0)| <= DecodeLength(data).value.1
  {
  }

  /** One tag-length-value element. */
  function Tlv(tag: Byte, content: seq<Byte>): (s: seq<Byte>)
    ensures |s| == 1 + |EncodeLength(|content|)| + |content|
  {
    [tag] + EncodeLength(|content|) + content
  }

  /** Reads an element header at `data[pos..end]`: the tag and the bounds of
      the value, whose end is the next element's start. */
  function ReadTlvHeader(data: seq<Byte>, pos: nat, end: nat): (r: Result<(Byte, nat, nat), GooseError>)
    requires end <= |data|
    ensures r.Ok? ==> pos + 2 <= r.value.1 <= r.value.2 <= end
  {
    if pos >= end then Err(TruncatedInput)
    else
      match DecodeLength(data[pos + 1..end])
      case Err(e) => Err(Asn1(e))
      case Ok((valueLen, lenBytes)) =>
        var valueStart := pos + 1 + lenBytes;
        var valueEnd := valueStart + valueLen;
        if valueEnd > end then Err(TruncatedInput)
        else Ok((data[pos], valueStart, valueEnd))
  }

  /** The header of the element `d` starts with. */
  function ReadTlv(d: seq<Byte>): (r: Result<(Byte, nat, nat), GooseError>)
    ensures r.Ok? ==> 2 <= r.value.1 <= r.value.2 <= |d|
  {
    ReadTlvHeader(d, 0, |d|)
  }

  /** Reading inside a window is reading the window on its own. */
  lemma ReadTlvShift(data: seq<Byte>, pos: nat, end: nat)
    requires pos <= end <= |data|
    ensures var r := ReadTlv(data[pos..end]);
            ReadTlvHeader(data, pos, end)
            == if r.Ok? then Ok((r.value.0, pos + r.value.1, pos + r.value.2)) else r
  {
    if pos < end {
      assert data[pos..end][1..] == data[pos + 1..end];
    }
  }

  /** An element that fits its length field is read back whole, whatever
      follows it. */
  lemma ReadTlvOfTlv(tag: Byte, content: seq<Byte>, rest: seq<Byte>)
    requires |content| <= MAX_LENGTH
    ensures var d := Tlv(tag, content) + rest;
            var start := 1 + |EncodeLength(|content|)|;
            && ReadTlv(d) == Ok((tag, start, start + |content|))
            && d[start..start + |content|] == content
            && d[start + |content|..] == rest
  {
    var d := Tlv(tag, content) + rest;
    assert d[1..] == EncodeLength(|content|) + (content + rest);
    LengthRoundTrip(|content|, content + rest);
  }

  /** What is read from any prefix `d` of an element and its successors: the
      length field decides, and it holds the content length modulo 2^16. */
  lemma ReadTlvOfPrefix(tag: Byte, content: seq<Byte>, rest: seq<Byte>, d: seq<Byte>)
    requires d <= Tlv(tag, content) + rest
    requires ReadTlv(d).Ok?
    ensures var start := 1 + |EncodeLength(|content|)|;
            var seen := Stated(|content|);
            && ReadTlv(d) == Ok((tag, start, start + seen))
            && d[start..start + seen] == content[..seen]
  {
    var e := EncodeLength(|content|);
    var whole := Tlv(tag, content) + rest;
    assert whole[1..] == e + (content + rest);
    LengthRoundTrip(|content|, content + rest);
    assert d[1..] <= whole[1..];
    assert forall i :: 0 <= i < |d| ==> d[i] == whole[i];
    var seen := Stated(|content|);
    assert DecodeLength(d[1..]) == DecodeLength(whole[1..]);
    var start := 1 + |e|;
    assert d[start..start + seen] == whole[start..start + seen];
  }
}
