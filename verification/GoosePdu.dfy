/** The IECGoosePdu of IEC 61850-8-1: its members, its BER encoding and the
    tag-driven decoder. */
module GoosePdu {
  import opened Wrappers
  import opened Bytes
  import opened Sequences
  import opened Utf8
  import opened GooseErrors
  import opened BerLength
  import opened BerInteger
  import opened MmsData

  const TAG_PDU: Byte := 0x61

  const TAG_GOCB_REF: Byte := 0x80
  const TAG_TIME_ALLOWED: Byte := 0x81
  const TAG_DAT_SET: Byte := 0x82
  const TAG_GO_ID: Byte := 0x83
  const TAG_T: Byte := 0x84
  const TAG_ST_NUM: Byte := 0x85
  const TAG_SQ_NUM: Byte := 0x86
  const TAG_SIMULATION: Byte := 0x87
  const TAG_CONF_REV: Byte := 0x88
  const TAG_NDS_COM: Byte := 0x89
  const TAG_NUM_ENTRIES: Byte := 0x8A
  const TAG_ALL_DATA: Byte := 0xAB

  /** Longest gocbRef, datSet and goID the decoder takes, in octets. */
  const STRING_MAX_LEN := 129

  /** TimeAccuracy, the low five bits of the TimeQuality octet. */
  function TimeAccuracy(quality: Byte): Byte {
    quality % 32
  }

  /** Codes 25 to 30 are invalid (Table 36 of IEC 61850-8-1). */
  predicate IsUtcTime(s: seq<Byte>) {
    |s| == 8 && !(25 <= TimeAccuracy(s[7]) <= 30)
  }

  type UtcStamp = s: seq<Byte> | IsUtcTime(s) witness [0, 0, 0, 0, 0, 0, 0, 0]

  datatype GoosePdu = GoosePdu(
    gocbRef: Utf8String,
    timeAllowedToLive: U32,
    datSet: Utf8String,
    goId: Utf8String,
    t: UtcStamp,
    stNum: U32,
    sqNum: U32,
    simulation: bool,
    confRev: U32,
    ndsCom: bool,
    numDatSetEntries: U32,
    allData: seq<MmsValue>)

  /** A member of the PDU: its tag and its contents octets. */
  type Member = (Byte, seq<Byte>)

  // ----- Encoding -----

  function BoolContent(b: bool): seq<Byte> {
    [if b then 0x01 else 0x00]
  }

  /** The members in front of allData, in the order they are sent. */
  function HeadMembers(p: GoosePdu): seq<Member> {
    [ (TAG_GOCB_REF, p.gocbRef),
      (TAG_TIME_ALLOWED, IntegerContent(p.timeAllowedToLive)),
      (TAG_DAT_SET, p.datSet),
      (TAG_GO_ID, p.goId),
      (TAG_T, p.t),
      (TAG_ST_NUM, IntegerContent(p.stNum)),
      (TAG_SQ_NUM, IntegerContent(p.sqNum)),
      (TAG_SIMULATION, BoolContent(p.simulation)),
      (TAG_CONF_REV, IntegerContent(p.confRev)),
      (TAG_NDS_COM, BoolContent(p.ndsCom)),
      (TAG_NUM_ENTRIES, IntegerContent(p.numDatSetEntries)) ]
  }

  /** The members from index `k` on, one after the other. */
  function EncodeMembers(ms: seq<Member>, k: nat): seq<Byte>
    requires k <= |ms|
    decreases |ms| - k
  {
    if k == |ms| then [] else Tlv(ms[k].0, ms[k].1) + EncodeMembers(ms, k + 1)
  }

  /** The content of the PDU. */
  function Body(p: GoosePdu): seq<Byte> {
    EncodeMembers(HeadMembers(p), 0) + Tlv(TAG_ALL_DATA, EncodeAll(p.allData))
  }

  /** The data values nest no deeper than the encoder accepts. */
  predicate Encodable(p: GoosePdu) {
    NestingBelow(p.allData) <= MAX_DEPTH + 1
  }

  function EncodePdu(p: GoosePdu): Result<seq<Byte>, GooseError> {
    if Encodable(p) then Ok(Tlv(TAG_PDU, Body(p))) else Err(SubLevel(Overflow))
  }

  // ----- Decoding -----

  /** The members seen so far. Only simulation and ndsCom have a default. */
  datatype Partial = Partial(
    gocbRef: Option<Utf8String>,
    timeAllowedToLive: Option<U32>,
    datSet: Option<Utf8String>,
    goId: Option<Utf8String>,
    t: Option<UtcStamp>,
    stNum: Option<U32>,
    sqNum: Option<U32>,
    simulation: bool,
    confRev: Option<U32>,
    ndsCom: bool,
    numDatSetEntries: Option<U32>,
    allData: Option<seq<MmsValue>>)

  const NothingSeen: Partial :=
    Partial(None, None, None, None, None, None, None, false, None, false, None, None)

  function ParseStringField(value: seq<Byte>): Result<Utf8String, GooseError> {
    if |value| > STRING_MAX_LEN then Err(FieldTooLong(|value|))
    else if IsUtf8(value) then Ok(value)
    else Err(UnknownTag(0))
  }

  /** A `u32` of one to four octets, or of five behind a zero sign octet. */
  function DecodeU32(value: seq<Byte>): Result<U32, GooseError> {
    if |value| == 0 then Err(LengthMismatch)
    else if |value| == 5 && value[0] == 0 then
      OctetsFit(value[1..], 4);
      Ok(FromBigEndian(value[1..]))
    else if |value| > 4 then Err(LengthMismatch)
    else
      OctetsFit(value, 4);
      Ok(FromBigEndian(value))
  }

  function DecodeBool(value: seq<Byte>): bool {
    |value| > 0 && value[0] != 0
  }

  predicate IsStringTag(tag: Byte) {
    tag == TAG_GOCB_REF || tag == TAG_DAT_SET || tag == TAG_GO_ID
  }

  function WithString(tag: Byte, s: Utf8String, acc: Partial): Partial
    requires IsStringTag(tag)
  {
    if tag == TAG_GOCB_REF then acc.(gocbRef := Some(s))
    else if tag == TAG_DAT_SET then acc.(datSet := Some(s))
    else acc.(goId := Some(s))
  }

  predicate IsNumberTag(tag: Byte) {
    || tag == TAG_TIME_ALLOWED || tag == TAG_ST_NUM || tag == TAG_SQ_NUM
    || tag == TAG_CONF_REV || tag == TAG_NUM_ENTRIES
  }

  function WithNumber(tag: Byte, n: U32, acc: Partial): Partial
    requires IsNumberTag(tag)
  {
    if tag == TAG_TIME_ALLOWED then acc.(timeAllowedToLive := Some(n))
    else if tag == TAG_ST_NUM then acc.(stNum := Some(n))
    else if tag == TAG_SQ_NUM then acc.(sqNum := Some(n))
    else if tag == TAG_CONF_REV then acc.(confRev := Some(n))
    else acc.(numDatSetEntries := Some(n))
  }

  /** Takes one member into account; a later member of the same tag replaces an
      earlier one, and an unknown tag is skipped. */
  function Apply(tag: Byte, value: seq<Byte>, acc: Partial): Result<Partial, GooseError> {
    if IsStringTag(tag) then
      var s :- ParseStringField(value);
      Ok(WithString(tag, s, acc))
    else if IsNumberTag(tag) then
      var n :- DecodeU32(value);
      if tag == TAG_ST_NUM && n == 0 then Err(InvalidStateNumber) else Ok(WithNumber(tag, n, acc))
    else if tag == TAG_T then
      if |value| != 8 then Err(InvalidTimestamp)
      else if !IsUtcTime(value) then Err(InvalidTimestampQuality(TimeAccuracy(value[7])))
      else Ok(acc.(t := Some(value)))
    else if tag == TAG_SIMULATION then
      Ok(acc.(simulation := DecodeBool(value)))
    else if tag == TAG_NDS_COM then
      Ok(acc.(ndsCom := DecodeBool(value)))
    else if tag == TAG_ALL_DATA then
      var items :- DecodeItems(value, 0);
      Ok(acc.(allData := Some(items)))
    else Ok(acc)
  }

  /** Takes the members of `d` into account one after the other. */
  function DecodeMembers(d: seq<Byte>, acc: Partial): Result<Partial, GooseError>
    decreases |d|
  {
    if |d| == 0 then Ok(acc)
    else
      var (tag, start, end) :- ReadTlv(d);
      var next :- Apply(tag, d[start..end], acc);
      DecodeMembers(d[end..], next)
  }

  /** The PDU the members make up, when none is missing and the number of
      entries is the number of data values. */
  function Complete(acc: Partial): Result<GoosePdu, GooseError> {
    if acc.gocbRef.None? then Err(UnknownTag(TAG_GOCB_REF))
    else if acc.timeAllowedToLive.None? then Err(UnknownTag(TAG_TIME_ALLOWED))
    else if acc.datSet.None? then Err(UnknownTag(TAG_DAT_SET))
    else if acc.goId.None? then Err(UnknownTag(TAG_GO_ID))
    else if acc.t.None? then Err(MissingTimestamp)
    else if acc.stNum.None? then Err(UnknownTag(TAG_ST_NUM))
    else if acc.sqNum.None? then Err(UnknownTag(TAG_SQ_NUM))
    else if acc.confRev.None? then Err(UnknownTag(TAG_CONF_REV))
    else if acc.numDatSetEntries.None? then Err(UnknownTag(TAG_NUM_ENTRIES))
    else if acc.allData.None? then Err(UnknownTag(TAG_ALL_DATA))
    else if acc.numDatSetEntries.value != |acc.allData.value| then
      Err(DataSetLengthMismatch(acc.numDatSetEntries.value, |acc.allData.value|))
    else
      Ok(GoosePdu(acc.gocbRef.value, acc.timeAllowedToLive.value, acc.datSet.value, acc.goId.value,
                  acc.t.value, acc.stNum.value, acc.sqNum.value, acc.simulation, acc.confRev.value,
                  acc.ndsCom, acc.numDatSetEntries.value, acc.allData.value))
  }

  /** Decodes the PDU `data` starts with. */
  function DecodePdu(data: seq<Byte>): Result<GoosePdu, GooseError> {
    if |data| < 2 then Err(EthernetFrameTooShort)
    else if data[0] != TAG_PDU then Err(TagDecode)
    else
      match DecodeLength(data[1..])
      case Err(e) => Err(Asn1(e))
      case Ok((len, lenBytes)) =>
        var start := 1 + lenBytes;
        if start + len > |data| then Err(TruncatedInput)
        else DecodeBody(data[start..start + len])
  }

  function DecodeBody(body: seq<Byte>): Result<GoosePdu, GooseError> {
    var acc :- DecodeMembers(body, NothingSeen);
    Complete(acc)
  }

  // ----- What survives the wire -----

  /** What the decoder demands of a PDU, its size aside. */
  predicate Presentable(p: GoosePdu) {
    && |p.gocbRef| <= STRING_MAX_LEN
    && |p.datSet| <= STRING_MAX_LEN
    && |p.goId| <= STRING_MAX_LEN
    && p.stNum != 0
    && p.numDatSetEntries == |p.allData|
    && AllStorable(p.allData)
  }

  /** The PDUs that survive encoding and decoding. */
  predicate WellFormed(p: GoosePdu) {
    Presentable(p) && |Body(p)| <= MAX_LENGTH
  }

  lemma U32RoundTrip(n: U32)
    ensures DecodeU32(IntegerContent(n)) == Ok(n)
    ensures |IntegerContent(n)| <= 5
  {
    var c := IntegerContent(n);
    IntegerContentIsMinimal(n);
    SignOfValue(c);
    assert HalfRange(5) == 0x80_0000_0000;
    SignedContentLength(n, 5);
    if |c| == 5 {
      SplitHead(c);
      Pow256Values();
    }
  }

  /** Takes the members of a list into account from index `k` on. */
  function ApplyFrom(ms: seq<Member>, k: nat, acc: Partial): Result<Partial, GooseError>
    requires k <= |ms|
    decreases |ms| - k
  {
    if k == |ms| then Ok(acc)
    else
      var next :- Apply(ms[k].0, ms[k].1, acc);
      ApplyFrom(ms, k + 1, next)
  }

  /** What the members in front of allData leave behind. */
  function HeadSeen(p: GoosePdu): Partial {
    Partial(Some(p.gocbRef), Some(p.timeAllowedToLive), Some(p.datSet), Some(p.goId), Some(p.t),
            Some(p.stNum), Some(p.sqNum), p.simulation, Some(p.confRev), p.ndsCom,
            Some(p.numDatSetEntries), None)
  }

  /** What the first five members leave behind. */
  function NamesSeen(p: GoosePdu): Partial {
    NothingSeen.(gocbRef := Some(p.gocbRef), timeAllowedToLive := Some(p.timeAllowedToLive),
                 datSet := Some(p.datSet), goId := Some(p.goId), t := Some(p.t))
  }

  lemma NumbersApplied(p: GoosePdu)
    requires p.stNum != 0
    ensures ApplyFrom(HeadMembers(p), 5, NamesSeen(p)) == Ok(HeadSeen(p))
  {
    var ms := HeadMembers(p);
    U32RoundTrip(p.stNum);
    U32RoundTrip(p.sqNum);
    U32RoundTrip(p.confRev);
    U32RoundTrip(p.numDatSetEntries);
    var a6 := NamesSeen(p).(stNum := Some(p.stNum));
    var a7 := a6.(sqNum := Some(p.sqNum));
    var a8 := a7.(simulation := p.simulation);
    var a9 := a8.(confRev := Some(p.confRev));
    var a10 := a9.(ndsCom := p.ndsCom);
    assert ApplyFrom(ms, 11, HeadSeen(p)) == Ok(HeadSeen(p));
    assert ApplyFrom(ms, 10, a10) == Ok(HeadSeen(p));
    assert ApplyFrom(ms, 9, a9) == Ok(HeadSeen(p));
    assert ApplyFrom(ms, 8, a8) == Ok(HeadSeen(p));
    assert ApplyFrom(ms, 7, a7) == Ok(HeadSeen(p));
    assert ApplyFrom(ms, 6, a6) == Ok(HeadSeen(p));
  }

  lemma HeadApplied(p: GoosePdu)
    requires |p.gocbRef| <= STRING_MAX_LEN && |p.datSet| <= STRING_MAX_LEN && |p.goId| <= STRING_MAX_LEN
    requires p.stNum != 0
    ensures ApplyFrom(HeadMembers(p), 0, NothingSeen) == Ok(HeadSeen(p))
  {
    var ms := HeadMembers(p);
    NumbersApplied(p);
    U32RoundTrip(p.timeAllowedToLive);
    var a1 := NothingSeen.(gocbRef := Some(p.gocbRef));
    var a2 := a1.(timeAllowedToLive := Some(p.timeAllowedToLive));
    var a3 := a2.(datSet := Some(p.datSet));
    var a4 := a3.(goId := Some(p.goId));
    assert ApplyFrom(ms, 4, a4) == Ok(HeadSeen(p));
    assert ApplyFrom(ms, 3, a3) == Ok(HeadSeen(p));
    assert ApplyFrom(ms, 2, a2) == Ok(HeadSeen(p));
    assert ApplyFrom(ms, 1, a1) == Ok(HeadSeen(p));
  }

  /** Members that fit a length field and are not allData. */
  predicate PlainMembers(ms: seq<Member>) {
    forall k :: 0 <= k < |ms| ==> |ms[k].1| <= MAX_LENGTH && ms[k].0 != TAG_ALL_DATA
  }

  lemma HeadIsPlain(p: GoosePdu)
    requires |p.gocbRef| <= STRING_MAX_LEN && |p.datSet| <= STRING_MAX_LEN && |p.goId| <= STRING_MAX_LEN
    ensures PlainMembers(HeadMembers(p))
  {
    U32RoundTrip(p.timeAllowedToLive);
    U32RoundTrip(p.stNum);
    U32RoundTrip(p.sqNum);
    U32RoundTrip(p.confRev);
    U32RoundTrip(p.numDatSetEntries);
  }

  lemma MembersStep(d: seq<Byte>, acc: Partial)
    requires |d| > 0 && DecodeMembers(d, acc).Ok?
    ensures ReadTlv(d).Ok?
    ensures var (tag, start, end) := ReadTlv(d).value;
            && Apply(tag, d[start..end], acc).Ok?
            && DecodeMembers(d, acc) == DecodeMembers(d[end..], Apply(tag, d[start..end], acc).value)
  {
  }

  lemma ApplyKeepsAllData(tag: Byte, content: seq<Byte>, acc: Partial)
    requires tag != TAG_ALL_DATA && Apply(tag, content, acc).Ok?
    ensures Apply(tag, content, acc).value.allData == acc.allData
  {
  }

  lemma AllDataNeedsOctets(d: seq<Byte>, acc: Partial)
    requires DecodeMembers(d, acc).Ok? && acc.allData.None? && DecodeMembers(d, acc).value.allData.Some?
    ensures |d| > 0
  {
  }

  /** What is left to decode holds an allData still to come. */
  predicate Pending(d: seq<Byte>, acc: Partial, out: Partial) {
    DecodeMembers(d, acc) == Ok(out) && acc.allData.None? && out.allData.Some?
  }

  /** `PeelMembers` for one member. */
  lemma PeelOne(tag: Byte, content: seq<Byte>, rest: seq<Byte>, d: seq<Byte>, acc: Partial, out: Partial)
    returns (d': seq<Byte>, acc': Partial)
    requires |content| <= MAX_LENGTH && tag != TAG_ALL_DATA && d <= Tlv(tag, content) + rest
    requires Pending(d, acc, out)
    ensures d == Tlv(tag, content) + d' && d' <= rest
    ensures Pending(d', acc', out)
  {
    AllDataNeedsOctets(d, acc);
    MembersStep(d, acc);
    ReadTlvOfPrefix(tag, content, rest, d);
    var (t, start, end) := ReadTlv(d).value;
    assert t == tag && end == |Tlv(tag, content)|;
    assert d[start..end] == content;
    d', acc' := d[end..], Apply(tag, content, acc).value;
    ApplyKeepsAllData(tag, content, acc);
    assert d[..end] == (Tlv(tag, content) + rest)[..end] == Tlv(tag, content);
    assert d' <= (Tlv(tag, content) + rest)[end..] == rest;
  }

  /** Decoding any part of plain members and what follows them, with success
      and an allData in the end, goes through all of the plain members and on
      to a part `d'` of what follows. */
  lemma {:induction false} PeelMembers(ms: seq<Member>, k: nat, rest: seq<Byte>, d: seq<Byte>, acc: Partial,
                                       out: Partial)
    returns (d': seq<Byte>, acc': Partial)
    requires k <= |ms| && PlainMembers(ms)
    requires d <= EncodeMembers(ms, k) + rest
    requires Pending(d, acc, out)
    ensures d == EncodeMembers(ms, k) + d' && d' <= rest
    ensures Pending(d', acc', out)
    decreases |ms| - k
  {
    if k == |ms| {
      PeelNone(ms, rest, d);
      d', acc' := d, acc;
    } else {
      var d1, acc1 := PeelFirst(ms, k, rest, d, acc, out);
      d', acc' := PeelMembers(ms, k + 1, rest, d1, acc1, out);
      PeelGlued(ms, k, d, d1, d');
    }
  }

  lemma PeelNone(ms: seq<Member>, rest: seq<Byte>, d: seq<Byte>)
    requires d <= EncodeMembers(ms, |ms|) + rest
    ensures d == EncodeMembers(ms, |ms|) + d && d <= rest
  {
    assert [] + rest == rest;
    assert [] + d == d;
  }

  lemma PeelGlued(ms: seq<Member>, k: nat, d: seq<Byte>, d1: seq<Byte>, d': seq<Byte>)
    requires k < |ms| && d == Tlv(ms[k].0, ms[k].1) + d1 && d1 == EncodeMembers(ms, k + 1) + d'
    ensures d == EncodeMembers(ms, k) + d'
  {
    Associative(Tlv(ms[k].0, ms[k].1), EncodeMembers(ms, k + 1), d');
  }

  lemma PeelFirst(ms: seq<Member>, k: nat, rest: seq<Byte>, d: seq<Byte>, acc: Partial, out: Partial)
    returns (d1: seq<Byte>, acc1: Partial)
    requires k < |ms| && PlainMembers(ms)
    requires d <= EncodeMembers(ms, k) + rest
    requires Pending(d, acc, out)
    ensures d == Tlv(ms[k].0, ms[k].1) + d1 && d1 <= EncodeMembers(ms, k + 1) + rest
    ensures Pending(d1, acc1, out)
  {
    var tail := EncodeMembers(ms, k + 1);
    Associative(Tlv(ms[k].0, ms[k].1), tail, rest);
    d1, acc1 := PeelOne(ms[k].0, ms[k].1, tail + rest, d, acc, out);
  }

  /** Plain members that all apply are decoded, and what follows them after. */
  lemma {:induction false} DecodePlainMembers(ms: seq<Member>, k: nat, rest: seq<Byte>, acc: Partial)
    requires k <= |ms| && PlainMembers(ms) && ApplyFrom(ms, k, acc).Ok?
    ensures DecodeMembers(EncodeMembers(ms, k) + rest, acc) == DecodeMembers(rest, ApplyFrom(ms, k, acc).value)
    decreases |ms| - k
  {
    if k == |ms| {
      assert [] + rest == rest;
    } else {
      var (tag, content) := ms[k];
      var tail := EncodeMembers(ms, k + 1);
      Associative(Tlv(tag, content), tail, rest);
      DecodeFirst(tag, content, tail + rest, acc);
      DecodePlainMembers(ms, k + 1, rest, Apply(tag, content, acc).value);
    }
  }

  lemma DecodeFirst(tag: Byte, content: seq<Byte>, rest: seq<Byte>, acc: Partial)
    requires |content| <= MAX_LENGTH && Apply(tag, content, acc).Ok?
    ensures DecodeMembers(Tlv(tag, content) + rest, acc) == DecodeMembers(rest, Apply(tag, content, acc).value)
  {
    ReadTlvOfTlv(tag, content, rest);
  }

  /** Plain members followed by allData are decoded to what they say. */
  lemma DecodeWithAllData(ms: seq<Member>, vs: seq<MmsValue>, acc: Partial, seen: Partial)
    requires PlainMembers(ms) && ApplyFrom(ms, 0, acc) == Ok(seen)
    requires AllStorable(vs) && NestingBelow(vs) <= MAX_DEPTH + 1 && |EncodeAll(vs)| <= MAX_LENGTH
    ensures DecodeMembers(EncodeMembers(ms, 0) + Tlv(TAG_ALL_DATA, EncodeAll(vs)), acc)
            == Ok(seen.(allData := Some(vs)))
  {
    var last := Tlv(TAG_ALL_DATA, EncodeAll(vs));
    DecodePlainMembers(ms, 0, last, acc);
    assert last == last + [];
    ReadTlvOfTlv(TAG_ALL_DATA, EncodeAll(vs), []);
    ItemsRoundTrip(vs, 0);
  }

  lemma BodyDecodes(p: GoosePdu)
    requires WellFormed(p) && Encodable(p)
    ensures DecodeMembers(Body(p), NothingSeen) == Ok(HeadSeen(p).(allData := Some(p.allData)))
  {
    HeadApplied(p);
    HeadIsPlain(p);
    DecodeWithAllData(HeadMembers(p), p.allData, NothingSeen, HeadSeen(p));
  }

  predicate Short(s: Option<Utf8String>) {
    s.Some? ==> |s.value| <= STRING_MAX_LEN
  }

  /** The decoded strings and state number are ones the decoder takes. */
  predicate PlausibleHead(acc: Partial) {
    Short(acc.gocbRef) && Short(acc.datSet) && Short(acc.goId) && acc.stNum != Some(0)
  }

  /** The decoded data values can be encoded and stored. */
  predicate PlausibleData(data: Option<seq<MmsValue>>) {
    data.Some? ==> AllStorable(data.value) && NestingBelow(data.value) <= MAX_DEPTH + 1
  }

  lemma WithStringPlausible(tag: Byte, s: Utf8String, acc: Partial)
    requires PlausibleHead(acc) && IsStringTag(tag) && Short(Some(s))
    ensures PlausibleHead(WithString(tag, s, acc))
  {
  }

  lemma WithNumberPlausible(tag: Byte, n: U32, acc: Partial)
    requires PlausibleHead(acc) && IsNumberTag(tag) && !(tag == TAG_ST_NUM && n == 0)
    ensures PlausibleHead(WithNumber(tag, n, acc))
  {
  }

  lemma ApplyKeepsPlausible(tag: Byte, value: seq<Byte>, acc: Partial)
    requires PlausibleHead(acc) && Apply(tag, value, acc).Ok?
    ensures PlausibleHead(Apply(tag, value, acc).value)
  {
    if IsStringTag(tag) {
      WithStringPlausible(tag, ParseStringField(value).value, acc);
    } else if IsNumberTag(tag) {
      WithNumberPlausible(tag, DecodeU32(value).value, acc);
    }
  }

  lemma ApplyKeepsPlausibleData(tag: Byte, value: seq<Byte>, acc: Partial)
    requires PlausibleData(acc.allData) && Apply(tag, value, acc).Ok?
    ensures PlausibleData(Apply(tag, value, acc).value.allData)
  {
    if tag == TAG_ALL_DATA {
      DecodedItemsAreStorable(value, 0);
    } else {
      ApplyKeepsAllData(tag, value, acc);
    }
  }

  lemma {:induction false} DecodedMembersArePlausible(d: seq<Byte>, acc: Partial)
    requires PlausibleHead(acc) && PlausibleData(acc.allData) && DecodeMembers(d, acc).Ok?
    ensures PlausibleHead(DecodeMembers(d, acc).value) && PlausibleData(DecodeMembers(d, acc).value.allData)
    decreases |d|
  {
    if |d| > 0 {
      var (tag, start, end) := ReadTlv(d).value;
      ApplyKeepsPlausible(tag, d[start..end], acc);
      ApplyKeepsPlausibleData(tag, d[start..end], acc);
      DecodedMembersArePlausible(d[end..], Apply(tag, d[start..end], acc).value);
    }
  }

  /** Everything the decoder accepts is well-formed except perhaps for the size
      of its own encoding, and can be encoded again. */
  lemma DecodedPduIsPresentable(data: seq<Byte>)
    requires DecodePdu(data).Ok?
    ensures Encodable(DecodePdu(data).value) && Presentable(DecodePdu(data).value)
  {
    var (len, lenBytes) := DecodeLength(data[1..]).value;
    DecodedBodyIsPresentable(data[1 + lenBytes..1 + lenBytes + len]);
  }

  lemma DecodedBodyIsPresentable(body: seq<Byte>)
    requires DecodeBody(body).Ok?
    ensures Encodable(DecodeBody(body).value) && Presentable(DecodeBody(body).value)
  {
    DecodedMembersArePlausible(body, NothingSeen);
  }

  /** A body longer than its length field can state does not come back: the
      window the decoder sees ends inside allData or exactly at the part of it
      that the wrapped length of allData covers. */
  lemma OversizedIsLost(ms: seq<Member>, vs: seq<MmsValue>, acc: Partial, body: seq<Byte>, d: seq<Byte>)
    requires PlainMembers(ms) && acc.allData.None?
    requires body == EncodeMembers(ms, 0) + Tlv(TAG_ALL_DATA, EncodeAll(vs))
    requires |body| > MAX_LENGTH && d == body[..Stated(|body|)]
    requires DecodeMembers(d, acc).Ok?
    ensures DecodeMembers(d, acc).value.allData != Some(vs)
  {
    var head, last := EncodeMembers(ms, 0), Tlv(TAG_ALL_DATA, EncodeAll(vs));
    if DecodeMembers(d, acc).value.allData == Some(vs) {
      var rest, acc' := PeelMembers(ms, 0, last, d, acc, DecodeMembers(d, acc).value);
      assert last == last + [];
      AllDataNeedsOctets(rest, acc');
      MembersStep(rest, acc');
      WrappedAllData(vs, |head|, |body|, acc', rest);
      ItemsFaithful(vs, 0, EncodeAll(vs)[..Stated(|EncodeAll(vs)|)]);
    }
  }

  /** The last member, read from a window cut at the wrapped body length. */
  lemma WrappedAllData(vs: seq<MmsValue>, headSize: nat, total: nat, acc: Partial, d: seq<Byte>)
    requires d <= Tlv(TAG_ALL_DATA, EncodeAll(vs)) + []
    requires ReadTlv(d).Ok? && DecodeMembers(d, acc).Ok?
    requires DecodeMembers(d, acc).value.allData == Some(vs)
    requires total == headSize + |Tlv(TAG_ALL_DATA, EncodeAll(vs))| > MAX_LENGTH
    requires |d| == Stated(total) - headSize
    ensures |EncodeAll(vs)| > MAX_LENGTH
    ensures DecodeItems(EncodeAll(vs)[..Stated(|EncodeAll(vs)|)], 0) == Ok(vs)
  {
    var data := EncodeAll(vs);
    ReadTlvOfPrefix(TAG_ALL_DATA, data, [], d);
    var seen := Stated(|data|);
    var start := 1 + |EncodeLength(|data|)|;
    WrapArithmetic(headSize, total, start, |data|, |d|, seen);
    LastIsAllData(d, acc, data[..seen], vs);
  }

  /** Two lengths wrapped modulo 2^16, the inner one a part of the outer. */
  lemma WrapArithmetic(headSize: nat, total: nat, start: nat, size: nat, window: int, seen: nat)
    requires total == headSize + start + size > MAX_LENGTH
    requires window == Stated(total) - headSize
    requires seen == Stated(size) && start + seen <= window
    ensures size > MAX_LENGTH && window == start + seen
  {
    var k, j := total / 0x1_0000, size / 0x1_0000;
    assert total == k * 0x1_0000 + total % 0x1_0000;
    assert size == j * 0x1_0000 + size % 0x1_0000;
    assert total % 0x1_0000 - (headSize + start + size % 0x1_0000) == (j - k) * 0x1_0000;
  }

  lemma LastIsAllData(d: seq<Byte>, acc: Partial, content: seq<Byte>, vs: seq<MmsValue>)
    requires ReadTlv(d).Ok? && ReadTlv(d).value.0 == TAG_ALL_DATA && ReadTlv(d).value.2 == |d|
    requires d[ReadTlv(d).value.1..] == content
    requires DecodeMembers(d, acc).Ok? && DecodeMembers(d, acc).value.allData == Some(vs)
    ensures DecodeItems(content, 0) == Ok(vs)
  {
    var (tag, start, end) := ReadTlv(d).value;
    assert d[start..end] == content;
    assert d[end..] == [];
  }

  /** The PDU decoder decodes the members in the window its length states. */
  lemma DecodeWindow(data: seq<Byte>, len: nat, lenBytes: nat, window: seq<Byte>)
    requires |data| >= 2 && data[0] == TAG_PDU && DecodeLength(data[1..]) == Ok((len, lenBytes))
    requires 1 + lenBytes + len <= |data| && data[1 + lenBytes..1 + lenBytes + len] == window
    ensures DecodePdu(data) == DecodeBody(window)
  {
  }

  lemma EncodedWindow(e: seq<Byte>, body: seq<Byte>, suffix: seq<Byte>, seen: nat)
    requires seen <= |body|
    ensures var data := [TAG_PDU] + e + body + suffix;
            data[1..] == e + (body + suffix) && data[1 + |e|..1 + |e| + seen] == body[..seen]
  {
  }

  /** What the PDU decoder sees of an encoded PDU. */
  lemma DecodeOfEncode(p: GoosePdu, suffix: seq<Byte>)
    requires Encodable(p)
    ensures var body := Body(p);
            var acc := DecodeMembers(body[..Stated(|body|)], NothingSeen);
            DecodePdu(EncodePdu(p).value + suffix) == if acc.Ok? then Complete(acc.value) else Err(acc.error)
  {
    var body := Body(p);
    var e, seen := EncodeLength(|body|), Stated(|body|);
    LengthRoundTrip(|body|, body + suffix);
    EncodedWindow(e, body, suffix, seen);
    DecodeWindow([TAG_PDU] + e + body + suffix, seen, |e|, body[..seen]);
  }

  lemma WellFormedComesBack(p: GoosePdu, suffix: seq<Byte>)
    requires Encodable(p) && WellFormed(p)
    ensures DecodePdu(EncodePdu(p).value + suffix) == Ok(p)
  {
    DecodeOfEncode(p, suffix);
    assert Body(p)[..|Body(p)|] == Body(p);
    BodyDecodes(p);
  }

  lemma CompleteKeepsAllData(acc: Partial)
    requires Complete(acc).Ok?
    ensures acc.allData == Some(Complete(acc).value.allData)
  {
  }

  lemma OnlyWellFormedComesBack(p: GoosePdu, suffix: seq<Byte>)
    requires Encodable(p) && DecodePdu(EncodePdu(p).value + suffix) == Ok(p)
    ensures WellFormed(p)
  {
    var body := Body(p);
    DecodeOfEncode(p, suffix);
    DecodedPduIsPresentable(EncodePdu(p).value + suffix);
    if |body| > MAX_LENGTH {
      CompleteKeepsAllData(DecodeMembers(body[..Stated(|body|)], NothingSeen).value);
      HeadIsPlain(p);
      OversizedIsLost(HeadMembers(p), p.allData, NothingSeen, body, body[..Stated(|body|)]);
    }
  }

  /** A PDU comes back from its encoding, whatever follows it, exactly when it
      is well-formed. */
  lemma PduRoundTrip(p: GoosePdu, suffix: seq<Byte>)
    requires Encodable(p)
    ensures DecodePdu(EncodePdu(p).value + suffix) == Ok(p) <==> WellFormed(p)
  {
    if WellFormed(p) {
      WellFormedComesBack(p, suffix);
    }
    if DecodePdu(EncodePdu(p).value + suffix) == Ok(p) {
      OnlyWellFormedComesBack(p, suffix);
    }
  }

  /** Whatever octets a PDU was decoded from (long length forms, members out of
      order, repeated or unknown), encoding it again puts it in a normal form
      that decodes to the same PDU, exactly when that form fits. */
  lemma PduNormalForm(data: seq<Byte>, suffix: seq<Byte>)
    requires DecodePdu(data).Ok?
    ensures var p := DecodePdu(data).value;
            && EncodePdu(p).Ok?
            && (DecodePdu(EncodePdu(p).value + suffix) == Ok(p) <==> |Body(p)| <= MAX_LENGTH)
  {
    DecodedPduIsPresentable(data);
    PduRoundTrip(DecodePdu(data).value, suffix);
  }
}
