/** The Ethernet frame of a GOOSE publication (Annex C.2 of IEC 61850-8-1): MAC
    addresses, the optional 802.1Q tag, the GOOSE header and the PDU. */
module GooseFrame {
  import opened Wrappers
  import opened Bytes
  import opened Buffers
  import opened GooseErrors

  const ETHER_TYPE: U16 := 0x88B8

  const TPID: U16 := 0x8100

  const ETHERNET_HEADER := 14

  const TAGGED_ETHERNET_HEADER := 18

  /** APPID, Length, Reserved1 and Reserved2. */
  const GOOSE_HEADER := 8

  type Mac = s: seq<Byte> | |s| == 6 witness [0, 0, 0, 0, 0, 0]

  /** A priority code point, three bits. */
  type Priority = p: int | 0 <= p <= 7

  function NewPriority(p: Byte): Result<Priority, GooseError> {
    if p > 7 then Err(VlanPriorityOutOfRange(p)) else Ok(p)
  }

  datatype VlanTag = VlanTag(priority: Priority, vlanId: U16)

  datatype Header = Header(
    dstMac: Mac,
    srcMac: Mac,
    vlan: Option<VlanTag>,
    appId: U16,
    length: U16,
    simulation: bool)

  datatype Frame = Frame(header: Header, pdu: seq<Byte>)

  function U16Bytes(n: U16): (s: seq<Byte>)
    ensures |s| == 2
  {
    [n / 256, n % 256]
  }

  function U16At(s: seq<Byte>, i: nat): U16
    requires i + 2 <= |s|
  {
    s[i] as int * 256 + s[i + 1]
  }

  /** The 802.1Q tag: the priority in the top three bits, the drop eligible bit
      clear, the low twelve bits of the VLAN ID. */
  function VlanBytes(vlan: Option<VlanTag>): (s: seq<Byte>)
    ensures |s| == if vlan.Some? then 4 else 0
  {
    match vlan
    case None => []
    case Some(tag) =>
      U16Bytes(TPID) + [tag.priority * 32 + tag.vlanId / 256 % 16, tag.vlanId % 256]
  }

  /** Reserved1 carries only the S bit, its most significant one. */
  function Reserved1(simulation: bool): U16 {
    if simulation then 0x8000 else 0
  }

  /** Everything in front of the PDU. The Length field counts the GOOSE header
      and the PDU, modulo 2^16. */
  function HeaderBytes(h: Header, pduSize: nat): (s: seq<Byte>)
    ensures |s| == (if h.vlan.Some? then TAGGED_ETHERNET_HEADER else ETHERNET_HEADER) + GOOSE_HEADER
  {
    h.dstMac + h.srcMac + VlanBytes(h.vlan)
    + (U16Bytes(ETHER_TYPE) + U16Bytes(h.appId) + U16Bytes((pduSize + GOOSE_HEADER) % 0x1_0000)
       + U16Bytes(Reserved1(h.simulation)) + [0x00, 0x00])
  }

  function EncodeFrame(f: Frame): seq<Byte> {
    HeaderBytes(f.header, |f.pdu|) + f.pdu
  }

  /** The 802.1Q tag in the EtherType position, if any, and where the EtherType
      then stands. */
  function DecodeVlan(buf: seq<Byte>): (r: Result<(Option<VlanTag>, nat), GooseError>)
    requires |buf| >= ETHERNET_HEADER
    ensures r.Ok? ==> r.value.1 + 2 <= |buf| && (r.value.1 == 12 || r.value.1 == 16)
  {
    if U16At(buf, 12) == TPID then
      if |buf| < TAGGED_ETHERNET_HEADER then Err(EthernetFrameTooShort)
      else
        var priority :- NewPriority(buf[14] / 32);
        Ok((Some(VlanTag(priority, buf[14] as int % 16 * 256 + buf[15])), 16))
    else Ok((None, 12))
  }

  /** Decodes a frame; octets past what the Length field covers are padding. */
  function DecodeFrame(buf: seq<Byte>): Result<Frame, GooseError> {
    if |buf| < ETHERNET_HEADER then Err(EthernetFrameTooShort)
    else
      var (vlan, pos) :- DecodeVlan(buf);
      if U16At(buf, pos) != ETHER_TYPE then Err(WrongEtherType(U16At(buf, pos)))
      else if |buf| < pos + 2 + GOOSE_HEADER then Err(EthernetFrameTooShort)
      else
        var appId, length := U16At(buf, pos + 2), U16At(buf, pos + 4);
        var start := pos + 2 + GOOSE_HEADER;
        if length < GOOSE_HEADER then Err(EthernetFrameTooShort)
        else if start + (length - GOOSE_HEADER) > |buf| then Err(EthernetFrameTooShort)
        else
          Ok(Frame(Header(buf[..6], buf[6..12], vlan, appId, length, buf[pos + 6] >= 0x80),
                   buf[start..start + (length - GOOSE_HEADER)]))
  }

  /** The frame as a receiver sees it, its Length field filled in. */
  function Sent(f: Frame): Frame {
    f.(header := f.header.(length := (|f.pdu| + GOOSE_HEADER) % 0x1_0000))
  }

  /** A tag as it arrives, with twelve bits of its VLAN ID. */
  function CarriedVlan(vlan: Option<VlanTag>): Option<VlanTag> {
    if vlan.None? then None else Some(vlan.value.(vlanId := vlan.value.vlanId % 0x1000))
  }

  /** The VLAN ID has twelve bits and the Length field can state the size. */
  predicate Carriable(f: Frame) {
    && (f.header.vlan.Some? ==> f.header.vlan.value.vlanId < 0x1000)
    && |f.pdu| + GOOSE_HEADER <= 0xFFFF
  }

  /** The two octets of the tag control information, taken apart again. */
  lemma TagControlRoundTrip(priority: Priority, vlanId: U16)
    ensures var tci0, tci1 := priority * 32 + vlanId / 256 % 16, vlanId % 256;
            tci0 / 32 == priority && tci0 % 16 * 256 + tci1 == vlanId % 0x1000
  {
    assert vlanId % 0x1000 == vlanId / 256 % 16 * 256 + vlanId % 256;
  }

  lemma VlanRoundTrip(f: Frame, rest: seq<Byte>)
    ensures var h := f.header;
            var buf := HeaderBytes(h, |f.pdu|) + rest;
            DecodeVlan(buf)
            == match h.vlan
               case None => Ok((None, 12))
               case Some(tag) => Ok((Some(tag.(vlanId := tag.vlanId % 0x1000)), 16))
  {
    var h := f.header;
    var head := HeaderBytes(h, |f.pdu|);
    var buf := head + rest;
    assert buf[12] == head[12] && buf[13] == head[13];
    if h.vlan.Some? {
      var tag := h.vlan.value;
      var v := VlanBytes(h.vlan);
      assert head[12..16] == v;
      assert buf[14] == v[2] && buf[15] == v[3];
      TagControlRoundTrip(tag.priority, tag.vlanId);
    } else {
      assert head[12..14] == U16Bytes(ETHER_TYPE);
    }
  }

  /** The octets behind the 802.1Q tag. */
  lemma GooseHeaderAt(f: Frame, rest: seq<Byte>)
    ensures var h := f.header;
            var pos := if h.vlan.Some? then 16 else 12;
            var buf := HeaderBytes(h, |f.pdu|) + rest;
            && U16At(buf, pos) == ETHER_TYPE
            && U16At(buf, pos + 2) == h.appId
            && U16At(buf, pos + 4) == (|f.pdu| + GOOSE_HEADER) % 0x1_0000
            && (buf[pos + 6] >= 0x80 <==> h.simulation)
            && buf[..6] == h.dstMac && buf[6..12] == h.srcMac
  {
    var h := f.header;
    var pos := if h.vlan.Some? then 16 else 12;
    var head := HeaderBytes(h, |f.pdu|);
    var buf := head + rest;
    var goose := U16Bytes(ETHER_TYPE) + U16Bytes(h.appId) + U16Bytes((|f.pdu| + GOOSE_HEADER) % 0x1_0000)
    + U16Bytes(Reserved1(h.simulation)) + [0x00, 0x00];
    assert head[pos..] == goose;
    assert forall i :: 0 <= i < 10 ==> buf[pos + i] == goose[i];
    assert buf[..12] == h.dstMac + h.srcMac;
    assert buf[..6] == buf[..12][..6] && buf[6..12] == buf[..12][6..];
  }

  /** What the decoder makes of any encoded frame: twelve bits of the VLAN ID,
      and as much of the PDU as the wrapped Length field covers. */
  lemma FrameSeen(f: Frame, padding: seq<Byte>)
    ensures var length := (|f.pdu| + GOOSE_HEADER) % 0x1_0000;
            DecodeFrame(EncodeFrame(f) + padding)
            == if length < GOOSE_HEADER then Err(EthernetFrameTooShort)
               else Ok(Frame(f.header.(vlan := CarriedVlan(f.header.vlan), length := length),
                             f.pdu[..length - GOOSE_HEADER]))
  {
    var rest := f.pdu + padding;
    var head := HeaderBytes(f.header, |f.pdu|);
    var buf := EncodeFrame(f) + padding;
    assert buf == head + rest;
    VlanRoundTrip(f, rest);
    GooseHeaderAt(f, rest);
    var length := (|f.pdu| + GOOSE_HEADER) % 0x1_0000;
    if length >= GOOSE_HEADER {
      assert buf[|head|..|head| + (length - GOOSE_HEADER)] == f.pdu[..length - GOOSE_HEADER];
    }
  }

  /** A frame whose size fits hands over everything but the VLAN ID, and that
      exactly when it has twelve bits. */
  lemma FittingFrameSeen(f: Frame, padding: seq<Byte>)
    requires |f.pdu| + GOOSE_HEADER <= 0xFFFF
    ensures var seen := Frame(Sent(f).header.(vlan := CarriedVlan(f.header.vlan)), f.pdu);
            && DecodeFrame(EncodeFrame(f) + padding) == Ok(seen)
            && (seen == Sent(f) <==> (f.header.vlan.Some? ==> f.header.vlan.value.vlanId < 0x1000))
  {
    FrameSeen(f, padding);
    assert f.pdu[..|f.pdu|] == f.pdu;
  }

  /** Where every field stands: the addresses, the tag of a tagged frame, and
      behind them EtherType 0x88B8, APPID, Length, the S bit on top of Reserved1,
      Reserved2 and the PDU. */
  lemma FrameLayout(f: Frame)
    ensures var s, b := EncodeFrame(f), if f.header.vlan.Some? then 16 else 12;
            && |s| == b + 10 + |f.pdu|
            && s[..6] == f.header.dstMac && s[6..12] == f.header.srcMac
            && (f.header.vlan.Some? ==>
                  && U16At(s, 12) == 0x8100
                  && U16At(s, 14) == f.header.vlan.value.priority * 0x2000 + f.header.vlan.value.vlanId % 0x1000)
            && U16At(s, b) == 0x88B8 && U16At(s, b + 2) == f.header.appId
            && U16At(s, b + 4) == (|f.pdu| + 8) % 0x1_0000
            && U16At(s, b + 6) == (if f.header.simulation then 0x8000 else 0) && U16At(s, b + 8) == 0
            && s[b + 10..] == f.pdu
  {
    GooseHeaderAt(f, f.pdu);
    ReservedAt(f, f.pdu);
    if f.header.vlan.Some? {
      TagAt(f, f.pdu);
    }
  }

  lemma TagAt(f: Frame, rest: seq<Byte>)
    requires f.header.vlan.Some?
    ensures var buf, tag := HeaderBytes(f.header, |f.pdu|) + rest, f.header.vlan.value;
            U16At(buf, 12) == TPID && U16At(buf, 14) == tag.priority * 0x2000 + tag.vlanId % 0x1000
  {
    var head, tag := HeaderBytes(f.header, |f.pdu|), f.header.vlan.value;
    var v := VlanBytes(f.header.vlan);
    assert head[12..16] == v;
    assert forall i :: 0 <= i < 4 ==> (head + rest)[12 + i] == v[i];
    assert tag.vlanId % 0x1000 == tag.vlanId / 256 % 16 * 256 + tag.vlanId % 256;
  }

  lemma ReservedAt(f: Frame, rest: seq<Byte>)
    ensures var buf, b := HeaderBytes(f.header, |f.pdu|) + rest, if f.header.vlan.Some? then 16 else 12;
            && U16At(buf, b + 6) == (if f.header.simulation then 0x8000 else 0) && U16At(buf, b + 8) == 0
            && buf[b + 10..] == rest
  {
    var head, b := HeaderBytes(f.header, |f.pdu|), if f.header.vlan.Some? then 16 else 12;
    var reserved := U16Bytes(Reserved1(f.header.simulation)) + [0x00, 0x00];
    assert head[b + 6..] == reserved;
    assert forall i :: 0 <= i < 4 ==> (head + rest)[b + 6 + i] == reserved[i];
    assert |head| == b + 10;
  }

  /** A frame comes back, whatever padding follows it, exactly when its VLAN ID
      and its size fit their fields. */
  lemma FrameRoundTrip(f: Frame, padding: seq<Byte>)
    ensures DecodeFrame(EncodeFrame(f) + padding) == Ok(Sent(f)) <==> Carriable(f)
  {
    FrameSeen(f, padding);
    var length := (|f.pdu| + GOOSE_HEADER) % 0x1_0000;
    if |f.pdu| + GOOSE_HEADER <= 0xFFFF {
      assert f.pdu[..length - GOOSE_HEADER] == f.pdu;
    }
  }

  /** A decoded frame is carriable and needs no more than the octets it came
      from, so encoding it again gives the frame without padding, drop eligible
      bit and reserved bits, which decodes to the same. */
  lemma FrameNormalForm(buf: seq<Byte>, padding: seq<Byte>)
    requires DecodeFrame(buf).Ok?
    ensures var f := DecodeFrame(buf).value;
            && Sent(f) == f && Carriable(f)
            && |EncodeFrame(f)| <= |buf|
            && DecodeFrame(EncodeFrame(f) + padding) == Ok(f)
  {
    FrameRoundTrip(DecodeFrame(buf).value, padding);
  }

  /** Appends the frame to `buf` field by field. */
  method Encode(f: Frame, buf: Buffer) returns (written: nat)
    modifies buf
    ensures buf.bytes == old(buf.bytes) + EncodeFrame(f)
    ensures written == |EncodeFrame(f)|
  {
    var start := |buf.bytes|;
    var h := f.header;
    buf.Extend(h.dstMac);
    buf.Extend(h.srcMac);
    if h.vlan.Some? {
      var tag := h.vlan.value;
      buf.Extend(U16Bytes(TPID));
      buf.Extend([tag.priority * 32 + tag.vlanId / 256 % 16, tag.vlanId % 256]);
    }
    assert buf.bytes == old(buf.bytes) + (h.dstMac + h.srcMac + VlanBytes(h.vlan));
    WriteGooseHeader(h, |f.pdu|, buf);
    buf.Extend(f.pdu);
    return |buf.bytes| - start;
  }

  method WriteGooseHeader(h: Header, pduSize: nat, buf: Buffer)
    modifies buf
    ensures buf.bytes == old(buf.bytes)
                         + (U16Bytes(ETHER_TYPE) + U16Bytes(h.appId) + U16Bytes((pduSize + GOOSE_HEADER) % 0x1_0000)
                            + U16Bytes(Reserved1(h.simulation)) + [0x00, 0x00])
  {
    buf.Extend(U16Bytes(ETHER_TYPE));
    buf.Extend(U16Bytes(h.appId));
    var length: U16 := (pduSize + GOOSE_HEADER) % 0x1_0000;
    buf.Extend(U16Bytes(length));
    buf.Extend(U16Bytes(Reserved1(h.simulation)));
    buf.Extend([0x00, 0x00]);
  }

  /** Decodes a frame, stepping a position through it. */
  method Decode(buf: seq<Byte>) returns (r: Result<Frame, GooseError>)
    ensures r == DecodeFrame(buf)
  {
    if |buf| < ETHERNET_HEADER {
      return Err(EthernetFrameTooShort);
    }
    var pos := 12;
    var candidate := U16At(buf, pos);
    var vlan: Option<VlanTag> := None;
    if candidate == TPID {
      if |buf| < TAGGED_ETHERNET_HEADER {
        return Err(EthernetFrameTooShort);
      }
      pos := pos + 2;
      var tci0, tci1 := buf[pos], buf[pos + 1];
      pos := pos + 2;
      var priority := NewPriority(tci0 / 32);
      if priority.Err? {
        return Err(priority.error);
      }
      vlan := Some(VlanTag(priority.value, tci0 as int % 16 * 256 + tci1));
      candidate := U16At(buf, pos);
    }
    if candidate != ETHER_TYPE {
      return Err(WrongEtherType(candidate));
    }
    pos := pos + 2;
    if |buf| < pos + GOOSE_HEADER {
      return Err(EthernetFrameTooShort);
    }
    var appId := U16At(buf, pos);
    pos := pos + 2;
    var length := U16At(buf, pos);
    pos := pos + 2;
    var simulation := buf[pos] >= 0x80;
    pos := pos + 4;
    if length < GOOSE_HEADER {
      return Err(EthernetFrameTooShort);
    }
    var apduLength := length - GOOSE_HEADER;
    if pos + apduLength > |buf| {
      return Err(EthernetFrameTooShort);
    }
    return Ok(Frame(Header(buf[..6], buf[6..12], vlan, appId, length, simulation), buf[pos..pos + apduLength]));
  }
}
