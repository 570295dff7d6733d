/** The PDU encoder and decoder as they run: a member buffer filled in order,
    and a loop that steps over the members and records what it has seen. */
module GoosePduCodec {
  import opened Wrappers
  import opened Bytes
  import opened Sequences
  import opened Buffers
  import opened GooseErrors
  import opened BerLength
  import opened BerInteger
  import opened MmsData
  import opened MmsDataCodec
  import opened GoosePdu

  /** Shifts the contents octets into a `u32`. */
  method DecodeU32FromBytes(bytes: seq<Byte>) returns (r: Result<U32, GooseError>)
    ensures r == DecodeU32(bytes)
  {
    if |bytes| == 0 {
      return Err(LengthMismatch);
    }
    var payload := bytes;
    if |bytes| == 5 && bytes[0] == 0 {
      payload := bytes[1..];
    } else if |bytes| > 4 {
      return Err(LengthMismatch);
    }
    var result: U32 := 0;
    var k := 0;
    while k < |payload|
      invariant 0 <= k <= |payload|
      invariant result == FromBigEndian(payload[..k])
    {
      assert payload[..k + 1][..k] == payload[..k];
      OctetsFit(payload[..k + 1], 4);
      result := (result as int * 256 + payload[k]) % 0x1_0000_0000;
      k := k + 1;
    }
    assert payload[..k] == payload;
    return Ok(result);
  }

  /** Builds the contents octets of the members in front of allData. */
  method BuildHead(p: GoosePdu) returns (ms: seq<Member>)
    ensures ms == HeadMembers(p)
  {
    var timeAllowed := EncodeU32(p.timeAllowedToLive);
    var stNum := EncodeU32(p.stNum);
    var sqNum := EncodeU32(p.sqNum);
    var confRev := EncodeU32(p.confRev);
    var numEntries := EncodeU32(p.numDatSetEntries);
    ms := [ (TAG_GOCB_REF, p.gocbRef),
            (TAG_TIME_ALLOWED, timeAllowed),
            (TAG_DAT_SET, p.datSet),
            (TAG_GO_ID, p.goId),
            (TAG_T, p.t),
            (TAG_ST_NUM, stNum),
            (TAG_SQ_NUM, sqNum),
            (TAG_SIMULATION, BoolContent(p.simulation)),
            (TAG_CONF_REV, confRev),
            (TAG_NDS_COM, BoolContent(p.ndsCom)),
            (TAG_NUM_ENTRIES, numEntries) ];
  }

  /** Appends members in the order they are sent. */
  method WriteMembers(ms: seq<Member>, buf: Buffer)
    modifies buf
    ensures buf.bytes == old(buf.bytes) + EncodeMembers(ms, 0)
  {
    ghost var goal := buf.bytes + EncodeMembers(ms, 0);
    var k := 0;
    while k < |ms|
      invariant 0 <= k <= |ms|
      invariant buf.bytes + EncodeMembers(ms, k) == goal
    {
      ghost var before := buf.bytes;
      var (tag, value) := ms[k];
      WriteTlv(buf, tag, value);
      Associative(before, Tlv(tag, value), EncodeMembers(ms, k + 1));
      k := k + 1;
    }
  }

  /** Builds the content of the PDU, the members first and allData last. */
  method BuildBody(p: GoosePdu) returns (r: Result<seq<Byte>, GooseError>)
    ensures r == if Encodable(p) then Ok(Body(p)) else Err(SubLevel(Overflow))
  {
    var head := BuildHead(p);
    var pdu := new Buffer();
    WriteMembers(head, pdu);
    assert pdu.bytes == EncodeMembers(head, 0);
    var allData := new Buffer();
    var done := EncodeMmsValues(p.allData, allData, 0);
    if done.Err? {
      return Err(done.error);
    }
    assert allData.bytes == EncodeAll(p.allData);
    WriteTlv(pdu, TAG_ALL_DATA, allData.bytes);
    return Ok(pdu.bytes);
  }

  /** Appends the PDU to `buf` and returns the number of octets written; a
      refused value leaves `buf` as it was. */
  method EncodeBer(p: GoosePdu, buf: Buffer) returns (r: Result<nat, GooseError>)
    modifies buf
    ensures EncodePdu(p).Ok? ==> r == Ok(|EncodePdu(p).value|) && buf.bytes == old(buf.bytes) + EncodePdu(p).value
    ensures EncodePdu(p).Err? ==> r == Err(EncodePdu(p).error) && buf.bytes == old(buf.bytes)
  {
    var start := |buf.bytes|;
    var body := BuildBody(p);
    if body.Err? {
      return Err(body.error);
    }
    WriteTlv(buf, TAG_PDU, body.value);
    return Ok(|buf.bytes| - start);
  }

  /** The outcome of decoding the members from a position on. */
  function Rest(data: seq<Byte>, pos: nat, end: nat, seen: Partial): Result<Partial, GooseError>
    requires pos <= end <= |data|
  {
    DecodeMembers(data[pos..end], seen)
  }

  lemma RestStep(data: seq<Byte>, pos: nat, end: nat, seen: Partial)
    requires pos < end <= |data|
    ensures match ReadTlvHeader(data, pos, end)
            case Err(e) => Rest(data, pos, end, seen) == Err(e)
            case Ok((tag, start, next)) =>
              match Apply(tag, data[start..next], seen)
              case Err(e) => Rest(data, pos, end, seen) == Err(e)
              case Ok(seen') => Rest(data, pos, end, seen) == Rest(data, next, end, seen')
  {
    ReadTlvShift(data, pos, end);
    var d := data[pos..end];
    var r := ReadTlv(d);
    if r.Ok? {
      var (tag, start, next) := r.value;
      assert d[start..next] == data[pos + start..pos + next];
      assert d[next..] == data[pos + next..end];
    }
  }

  /** Applies one member, decoding integers and data values in place. */
  method ApplyMember(data: seq<Byte>, tag: Byte, valueStart: nat, valueEnd: nat, seen: Partial)
    returns (r: Result<Partial, GooseError>)
    requires valueStart <= valueEnd <= |data|
    ensures r == Apply(tag, data[valueStart..valueEnd], seen)
  {
    var value := data[valueStart..valueEnd];
    if IsNumberTag(tag) {
      var n := DecodeU32FromBytes(value);
      if n.Err? {
        return Err(n.error);
      }
      if tag == TAG_ST_NUM && n.value == 0 {
        return Err(InvalidStateNumber);
      }
      return Ok(WithNumber(tag, n.value, seen));
    } else if tag == TAG_ALL_DATA {
      var items := DecodeElements(data, valueStart, valueEnd, 0);
      return if items.Ok? then Ok(seen.(allData := Some(items.value))) else Err(items.error);
    } else {
      return Apply(tag, value, seen);
    }
  }

  /** Steps over the members of `data[start..end]` and records them. */
  method ReadMembers(data: seq<Byte>, start: nat, end: nat) returns (r: Result<Partial, GooseError>)
    requires start <= end <= |data|
    ensures r == DecodeMembers(data[start..end], NothingSeen)
  {
    var seen := NothingSeen;
    var pos := start;
    while pos < end
      invariant start <= pos <= end
      invariant Rest(data, pos, end, seen) == Rest(data, start, end, NothingSeen)
    {
      RestStep(data, pos, end, seen);
      var header := ReadTlvHeader(data, pos, end);
      if header.Err? {
        return Err(header.error);
      }
      var (tag, valueStart, valueEnd) := header.value;
      var applied := ApplyMember(data, tag, valueStart, valueEnd, seen);
      if applied.Err? {
        return applied;
      }
      seen := applied.value;
      pos := valueEnd;
    }
    assert data[pos..end] == [];
    return Ok(seen);
  }

  /** Decodes the PDU `data` starts with. */
  method DecodeBer(data: seq<Byte>) returns (r: Result<GoosePdu, GooseError>)
    ensures r == DecodePdu(data)
  {
    if |data| < 2 {
      return Err(EthernetFrameTooShort);
    }
    if data[0] != TAG_PDU {
      return Err(TagDecode);
    }
    var length := DecodeLength(data[1..]);
    if length.Err? {
      return Err(Asn1(length.error));
    }
    var (pduLen, lenBytes) := length.value;
    var start := 1 + lenBytes;
    var end := start + pduLen;
    if end > |data| {
      return Err(TruncatedInput);
    }
    var seen := ReadMembers(data, start, end);
    if seen.Err? {
      return Err(seen.error);
    }
    return Complete(seen.value);
  }
}
