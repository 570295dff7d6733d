/** The encoder and decoder of Data values as they run: appending to a buffer
    and stepping a position through the input. */
module MmsDataCodec {
  import opened Wrappers
  import opened Bytes
  import opened Sequences
  import opened Buffers
  import opened GooseErrors
  import opened BerLength
  import opened BerInteger
  import opened MmsData

  method WriteTlv(buf: Buffer, tag: Byte, value: seq<Byte>)
    modifies buf
    ensures buf.bytes == old(buf.bytes) + Tlv(tag, value)
  {
    buf.Extend([tag]);
    buf.Extend(EncodeLength(|value|));
    buf.Extend(value);
  }

  lemma {:induction false} EncodeAllSnoc(vs: seq<MmsValue>, v: MmsValue)
    ensures EncodeAll(vs + [v]) == EncodeAll(vs) + Encode(v)
  {
    if |vs| > 0 {
      assert (vs + [v])[1..] == vs[1..] + [v];
      EncodeAllSnoc(vs[1..], v);
    } else {
      assert EncodeAll([v]) == Encode(v) + EncodeAll([]);
    }
  }

  lemma {:induction false} NestingBelowBound(vs: seq<MmsValue>, bound: int)
    requires bound >= 0
    ensures NestingBelow(vs) <= bound <==> forall j :: 0 <= j < |vs| ==> 1 + Nesting(vs[j]) <= bound
  {
    if |vs| > 0 {
      NestingBelowBound(vs[1..], bound);
      assert forall j :: 0 < j < |vs| ==> vs[j] == vs[1..][j - 1];
    }
  }

  lemma AppendedOne(vs: seq<MmsValue>, i: nat, before: seq<Byte>, mid: seq<Byte>, after: seq<Byte>)
    requires i < |vs|
    requires mid == before + EncodeAll(vs[..i]) && after == mid + Encode(vs[i])
    ensures after == before + EncodeAll(vs[..i + 1])
  {
    EncodeAllSnoc(vs[..i], vs[i]);
    assert vs[..i + 1] == vs[..i] + [vs[i]];
  }

  /** Appends a value, refusing one nested too deeply without touching `buf`. */
  method EncodeMmsValue(v: MmsValue, buf: Buffer, depth: nat) returns (r: Result<(), GooseError>)
    modifies buf
    ensures r == if depth + Nesting(v) <= MAX_DEPTH then Ok(()) else Err(SubLevel(Overflow))
    ensures r.Ok? ==> buf.bytes == old(buf.bytes) + Encode(v)
    ensures r.Err? ==> buf.bytes == old(buf.bytes)
    decreases v, 2
  {
    if depth > MAX_DEPTH {
      return Err(SubLevel(Overflow));
    }
    var content := EncodeContent(v, depth);
    if content.Err? {
      return Err(content.error);
    }
    WriteTlv(buf, Tag(v), content.value);
    return Ok(());
  }

  /** Builds the content of a value, the elements of an array or structure in
      a buffer of their own. */
  method EncodeContent(v: MmsValue, depth: nat) returns (r: Result<seq<Byte>, GooseError>)
    requires depth <= MAX_DEPTH
    ensures r == if depth + Nesting(v) <= MAX_DEPTH then Ok(Content(v)) else Err(SubLevel(Overflow))
    decreases v, 1
  {
    match v
    case Integer(i) =>
      var c := EncodeI64(i);
      return Ok(c);
    case Unsigned(u) =>
      var c := EncodeU64(u);
      return Ok(c);
    case Array(items) =>
      var inner := new Buffer();
      var done := EncodeMmsValues(items, inner, depth + 1);
      assert [] + EncodeAll(items) == EncodeAll(items);
      return if done.Ok? then Ok(inner.bytes) else Err(done.error);
    case Structure(members) =>
      var inner := new Buffer();
      var done := EncodeMmsValues(members, inner, depth + 1);
      assert [] + EncodeAll(members) == EncodeAll(members);
      return if done.Ok? then Ok(inner.bytes) else Err(done.error);
    case _ =>
      return Ok(PrimitiveContent(v));
  }

  /** Appends values one after the other and stops at the first refusal. */
  method EncodeMmsValues(vs: seq<MmsValue>, buf: Buffer, depth: nat) returns (r: Result<(), GooseError>)
    requires depth <= MAX_DEPTH + 1
    modifies buf
    ensures r == if depth + NestingBelow(vs) <= MAX_DEPTH + 1 then Ok(()) else Err(SubLevel(Overflow))
    ensures r.Ok? ==> buf.bytes == old(buf.bytes) + EncodeAll(vs)
    decreases vs, 0
  {
    NestingBelowBound(vs, MAX_DEPTH + 1 - depth);
    ghost var before := buf.bytes;
    var i := 0;
    while i < |vs|
      invariant 0 <= i <= |vs|
      invariant forall j :: 0 <= j < i ==> depth + Nesting(vs[j]) <= MAX_DEPTH
      invariant buf.bytes == before + EncodeAll(vs[..i])
    {
      ghost var mid := buf.bytes;
      r := EncodeMmsValue(vs[i], buf, depth);
      if r.Err? {
        return;
      }
      AppendedOne(vs, i, before, mid, buf.bytes);
      i := i + 1;
    }
    assert vs[..i] == vs;
    return Ok(());
  }

  /** The low 64 bits of `n` as a signed number. */
  function WrapI64(n: int): (i: I64)
  {
    var low := n % 0x1_0000_0000_0000_0000;
    if low < 0x8000_0000_0000_0000 then low else low - 0x1_0000_0000_0000_0000
  }

  /** Sign-extends contents octets into an `i64` by shifting them in. */
  method DecodeI64(value: seq<Byte>) returns (result: I64)
    requires 1 <= |value| <= 8
    ensures result == SignedValue(value)
  {
    result := if value[0] >= 0x80 then -1 else 0;
    var k := 0;
    while k < |value|
      invariant 0 <= k <= |value|
      invariant k == 0 ==> result == if value[0] >= 0x80 then -1 else 0
      invariant k > 0 ==> result == SignedValue(value[..k])
    {
      assert value[..k + 1][..k] == value[..k];
      EightOctetsFitI64(value[..k + 1]);
      result := WrapI64(result as int * 256 + value[k]);
      k := k + 1;
    }
    assert value[..k] == value;
  }

  /** Shifts at most eight octets into a `u64`. */
  method DecodeU64(payload: seq<Byte>) returns (result: U64)
    requires |payload| <= 8
    ensures result == FromBigEndian(payload)
  {
    result := 0;
    var k := 0;
    while k < |payload|
      invariant 0 <= k <= |payload|
      invariant result == FromBigEndian(payload[..k])
    {
      assert payload[..k + 1][..k] == payload[..k];
      OctetsFit(payload[..k + 1], 8);
      result := (result as int * 256 + payload[k]) % 0x1_0000_0000_0000_0000;
      k := k + 1;
    }
    assert payload[..k] == payload;
  }

  /** A decoded window moved to where the window starts. */
  function Shift(r: Result<(MmsValue, nat), GooseError>, pos: nat): Result<(MmsValue, nat), GooseError> {
    if r.Ok? then Ok((r.value.0, pos + r.value.1)) else r
  }

  /** Values already decoded in front of the outcome for the rest. */
  function Prepend(done: seq<MmsValue>, r: Result<seq<MmsValue>, GooseError>): Result<seq<MmsValue>, GooseError> {
    if r.Ok? then Ok(done + r.value) else r
  }

  lemma PrependNone(r: Result<seq<MmsValue>, GooseError>)
    ensures Prepend([], r) == r
  {
    if r.Ok? { assert [] + r.value == r.value; }
  }

  lemma PrependOne(done: seq<MmsValue>, v: MmsValue, r: Result<seq<MmsValue>, GooseError>)
    ensures Prepend(done, Prepend([v], r)) == Prepend(done + [v], r)
  {
    if r.Ok? { assert done + ([v] + r.value) == done + [v] + r.value; }
  }

  /** Decodes the element at `data[pos..end]` and returns the next position. */
  method DecodeDataElement(data: seq<Byte>, pos: nat, end: nat, depth: nat)
    returns (r: Result<(MmsValue, nat), GooseError>)
    requires pos <= end <= |data|
    ensures r == Shift(DecodeElement(data[pos..end], depth), pos)
    decreases end - pos, 0
  {
    if depth > MAX_DEPTH {
      return Err(SubLevel(Overflow));
    }
    ReadTlvShift(data, pos, end);
    var header := ReadTlvHeader(data, pos, end);
    if header.Err? {
      return Err(header.error);
    }
    var (tag, valueStart, valueEnd) := header.value;
    var value := data[valueStart..valueEnd];
    Window(data, pos, end, valueStart, valueEnd);
    if tag == TAG_ARRAY {
      var items := DecodeElements(data, valueStart, valueEnd, depth + 1);
      return if items.Ok? then Ok((Array(items.value), valueEnd)) else Err(items.error);
    } else if tag == TAG_STRUCTURE {
      var members := DecodeElements(data, valueStart, valueEnd, depth + 1);
      return if members.Ok? then Ok((Structure(members.value), valueEnd)) else Err(members.error);
    } else if tag == TAG_INTEGER && 1 <= |value| <= 8 {
      var i := DecodeI64(value);
      return Ok((Integer(i), valueEnd));
    } else if tag == TAG_UNSIGNED && (1 <= |value| <= 8 || (|value| == 9 && value[0] == 0)) {
      var u := DecodeU64(if |value| == 9 then value[1..] else value);
      return Ok((Unsigned(u), valueEnd));
    } else {
      var v := DecodePrimitive(tag, value);
      return if v.Ok? then Ok((v.value, valueEnd)) else Err(v.error);
    }
  }

  /** Decodes elements from `start` until the position reaches `end`. */
  method DecodeElements(data: seq<Byte>, start: nat, end: nat, depth: nat)
    returns (r: Result<seq<MmsValue>, GooseError>)
    requires start <= end <= |data|
    ensures r == DecodeItems(data[start..end], depth)
    decreases end - start, 1
  {
    var items := [];
    var pos := start;
    PrependNone(DecodeItems(data[start..end], depth));
    while pos < end
      invariant start <= pos <= end
      invariant DecodeItems(data[start..end], depth) == Prepend(items, DecodeItems(data[pos..end], depth))
    {
      var element := DecodeDataElement(data, pos, end, depth);
      if element.Err? {
        return Err(element.error);
      }
      var (item, next) := element.value;
      Window(data, pos, end, next, end);
      PrependOne(items, item, DecodeItems(data[next..end], depth));
      items := items + [item];
      pos := next;
    }
    assert data[pos..end] == [];
    assert items + [] == items;
    return Ok(items);
  }
}
