/** The GOOSE publisher: state numbering, retransmission timing and the frame
    built by patching a prebuilt header. */
module Publisher {
  import opened Wrappers
  import opened Bytes
  import opened Numbers
  import opened Sequences
  import opened Utf8
  import opened GooseErrors
  import opened BerLength
  import opened MmsData
  import opened Buffers
  import opened GoosePdu
  import opened GoosePduCodec
  import opened GooseFrame
  import opened GooseMessage

  /** Largest frame, the Ethernet header included. */
  const MAX_FRAME_SIZE := 1518

  const NULL_TIME: UtcStamp := [0, 0, 0, 0, 0, 0, 0, 0]

  const NULL_MAC: Mac := [0, 0, 0, 0, 0, 0]

  datatype CommParameters = CommParameters(appId: U16, dstMac: Mac, srcMac: Option<Mac>, vlan: Option<VlanTag>)

  datatype Intervals = Intervals(t1: nat, t2: nat, t3: nat, t4: nat, tmax: nat)

  /** Table D.2 of IEC 61850-8-1. */
  const DEFAULT_INTERVALS :=
    Intervals(4 * NANOS_PER_MILLI, 8 * NANOS_PER_MILLI, 16 * NANOS_PER_MILLI, 32 * NANOS_PER_MILLI,
              1000 * NANOS_PER_MILLI)

  /** The longest `Duration`, at which a multiplication saturates. */
  const MAX_DURATION: nat := 0xFFFF_FFFF_FFFF_FFFF * 1_000_000_000 + 999_999_999

  /** The intervals of a publication from its MinTime and MaxTime. */
  function FromMinMax(min: nat, max: nat): (iv: Intervals)
    requires min <= MAX_DURATION && max <= MAX_DURATION
  {
    var t1 := Max(min, NANOS_PER_MILLI);
    var tmax := Max(max, t1);
    Intervals(t1, Min(Min(t1 * 2, MAX_DURATION), tmax), Min(Min(t1 * 4, MAX_DURATION), tmax),
              Min(Min(t1 * 8, MAX_DURATION), tmax), tmax)
  }

  datatype Phase = T1 | T2 | T3 | T4 | Stable

  function Interval(phase: Phase, iv: Intervals): nat {
    match phase
    case T1 => iv.t1
    case T2 => iv.t2
    case T3 => iv.t3
    case T4 => iv.t4
    case Stable => iv.tmax
  }

  function Advance(phase: Phase): Phase {
    match phase
    case T1 => T2
    case T2 => T3
    case T3 => T4
    case T4 => Stable
    case Stable => Stable
  }

  /** Every interval lies between MinTime and MaxTime, each phase doubles it up
      to the longest, and none is zero, so a publisher never schedules itself
      without delay. */
  lemma IntervalsGrow(min: nat, max: nat, phase: Phase)
    requires min <= MAX_DURATION && max <= MAX_DURATION
    ensures var iv := FromMinMax(min, max);
            && NANOS_PER_MILLI <= Interval(phase, iv) <= Interval(Advance(phase), iv)
            && min <= Interval(phase, iv) <= Max(max, Max(min, NANOS_PER_MILLI))
            && iv.t2 == Min(2 * iv.t1, iv.tmax) && iv.t3 == Min(2 * iv.t2, iv.tmax) && iv.t4 == Min(2 * iv.t3, iv.tmax)
  {
  }

  /** A counter that skips 0 when it overflows. */
  function NextCounter(n: U32): (next: U32)
    ensures next != 0
    ensures next == if n == U32_MAX then 1 else n + 1
  {
    var sum: U32 := (n as int + 1) % 0x1_0000_0000;
    if sum == 0 then 1 else sum
  }

  /** What a publisher remembers, the header template aside. */
  datatype State = State(
    gocbRef: Utf8String,
    dataSetRef: Utf8String,
    goId: Option<Utf8String>,
    confRev: U32,
    stNum: U32,
    sqNum: U32,
    simulation: bool,
    needsCommission: bool,
    timestamp: UtcStamp,
    hasSource: bool,
    ttlOverride: Option<U32>,
    comm: CommParameters,
    intervals: Intervals,
    phase: Phase,
    nextPublishAt: Option<nat>)

  /** A publisher that has published nothing. */
  function Initial(comm: CommParameters, gocbRef: Utf8String, goId: Option<Utf8String>, dataSetRef: Utf8String,
                   confRev: U32): State
  {
    State(gocbRef, dataSetRef, goId, confRev, 1, 0, false, false, NULL_TIME, false, None, comm,
          DEFAULT_INTERVALS, T1, None)
  }

  /** timeAllowedToLive: the override, or twice the next interval. */
  function TimeAllowedToLive(s: State): U32 {
    if s.ttlOverride.Some? then s.ttlOverride.value
    else
      var doubled := 2 * Millis(Interval(s.phase, s.intervals));
      if doubled <= U32_MAX then doubled else U32_MAX
  }

  /** The PDU of a publication. */
  function PublishedPdu(s: State, data: seq<MmsValue>): GoosePdu {
    GoosePdu(s.gocbRef, TimeAllowedToLive(s), s.dataSetRef,
             if s.goId.Some? then s.goId.value else s.gocbRef,
             s.timestamp, s.stNum, s.sqNum, s.simulation, s.confRev, s.needsCommission,
             |data| % 0x1_0000_0000, data)
  }

  /** The full frame header with a simulation bit. */
  function PublishedHeader(comm: CommParameters, simulation: bool): Header {
    Header(comm.dstMac, if comm.srcMac.Some? then comm.srcMac.value else NULL_MAC,
           comm.vlan, comm.appId, GOOSE_HEADER, simulation)
  }

  function HeaderSize(comm: CommParameters): nat {
    (if comm.vlan.Some? then TAGGED_ETHERNET_HEADER else ETHERNET_HEADER) + GOOSE_HEADER
  }

  /** The state after a publication at `now`. */
  function AfterPublish(s: State, now: nat): State {
    s.(sqNum := NextCounter(s.sqNum),
       phase := Advance(s.phase),
       nextPublishAt := Some(now + Interval(s.phase, s.intervals)))
  }

  /** The frame of a publication, plainly encoded from the full header with
      the current simulation bit and the PDU. */
  function PublishedFrame(s: State, data: seq<MmsValue>): Result<seq<Byte>, GooseError> {
    var pdu :- EncodePdu(PublishedPdu(s, data));
    if HeaderSize(s.comm) + |pdu| > MAX_FRAME_SIZE then Err(PduOverflow)
    else Ok(EncodeFrame(Frame(PublishedHeader(s.comm, s.simulation), pdu)))
  }

  /** A publication: its frame and the state after it; a failed one changes
      nothing. */
  function Publish(s: State, data: seq<MmsValue>, now: nat): (Result<seq<Byte>, GooseError>, State) {
    var frame := PublishedFrame(s, data);
    (frame, if frame.Ok? then AfterPublish(s, now) else s)
  }

  function Stamped(s: State, reading: UtcStamp): State {
    if s.hasSource then s.(timestamp := reading) else s
  }

  /** A data change. */
  function IncreasedStNum(s: State, reading: UtcStamp): State {
    Stamped(s.(stNum := NextCounter(s.stNum), sqNum := 0, phase := T1, nextPublishAt := None), reading)
  }

  function WasReset(s: State, reading: UtcStamp): State {
    Stamped(s.(stNum := 1, sqNum := 0, phase := T1, nextPublishAt := None), reading)
  }

  /** What a caller can do to a publisher. The timestamp source, when one is
      installed, is read through the `reading` of the call. */
  datatype Op =
    | SetSimulation(simulation: bool)
    | SetNeedsCommission(ndsCom: bool)
    | SetGoId(goId: Option<Utf8String>)
    | SetConfRev(confRev: U32)
    | SetDataSetRef(dataSetRef: Utf8String)
    | SetIntervals(intervals: Intervals)
    | SetTimeAllowedToLive(ttl: Option<U32>)
    | SetTimestamp(t: UtcStamp)
    | SetTimestampSource(installed: bool)
    | IncreaseStNum(reading: UtcStamp)
    | Reset(reading: UtcStamp)
    | PublishAt(data: seq<MmsValue>, now: nat)

  function Step(s: State, op: Op): State {
    match op
    case SetSimulation(v) => s.(simulation := v)
    case SetNeedsCommission(v) => s.(needsCommission := v)
    case SetGoId(id) => s.(goId := id)
    case SetConfRev(v) => s.(confRev := v)
    case SetDataSetRef(ref) => if ref == [] then s else s.(dataSetRef := ref)
    case SetIntervals(iv) => s.(intervals := iv)
    case SetTimeAllowedToLive(ttl) => s.(ttlOverride := ttl)
    case SetTimestamp(t) => s.(timestamp := t)
    case SetTimestampSource(installed) => s.(hasSource := installed)
    case IncreaseStNum(reading) => IncreasedStNum(s, reading)
    case Reset(reading) => WasReset(s, reading)
    case PublishAt(data, now) => Publish(s, data, now).1
  }

  function Run(s: State, ops: seq<Op>): State
    decreases |ops|
  {
    if |ops| == 0 then s else Run(Step(s, ops[0]), ops[1..])
  }

  /** The outcomes of the publications of a run, in order. */
  function Frames(s: State, ops: seq<Op>): seq<Result<seq<Byte>, GooseError>>
    decreases |ops|
  {
    if |ops| == 0 then []
    else
      (if ops[0].PublishAt? then [Publish(s, ops[0].data, ops[0].now).0] else [])
      + Frames(Step(s, ops[0]), ops[1..])
  }

  /** No run brings stNum to 0, the value the decoder refuses. */
  lemma {:induction false} StNumStaysPositive(s: State, ops: seq<Op>)
    requires s.stNum != 0
    ensures Run(s, ops).stNum != 0
    decreases |ops|
  {
    if |ops| > 0 {
      StepKeepsPositive(s, ops[0]);
      StNumStaysPositive(Step(s, ops[0]), ops[1..]);
    }
  }

  lemma StepKeepsPositive(s: State, op: Op)
    requires s.stNum != 0
    ensures Step(s, op).stNum != 0
  {
  }

  // ----- The schedule of a state -----

  /** The state after publications at these instants. */
  function AfterAll(s: State, times: seq<nat>): State {
    if |times| == 0 then s else AfterPublish(AfterAll(s, times[..|times| - 1]), times[|times| - 1])
  }

  /** The phase after `n` publications of a state. */
  function PhaseAfter(n: nat): Phase {
    match Min(n, 4)
    case 0 => T1
    case 1 => T2
    case 2 => T3
    case 3 => T4
    case _ => Stable
  }

  /** The sqNum after `n` publications of a state: 0 first, then from 1 to its
      maximum and from 1 again. */
  function SqNumAfter(n: nat): U32 {
    if n == 0 then 0 else (n - 1) % U32_MAX + 1
  }

  /** Publication number `n` of a state, counted from 0, carries the sqNum of its
      number and is followed by the interval of its number: T1 to T4 after the
      first four and the longest after every other. */
  lemma {:induction false} StateSchedule(s: State, reading: UtcStamp, times: seq<nat>)
    ensures var n, after := |times|, AfterAll(IncreasedStNum(s, reading), times);
            && after.stNum == NextCounter(s.stNum) && after.intervals == s.intervals
            && after.sqNum == SqNumAfter(n) && after.phase == PhaseAfter(n)
            && after.nextPublishAt
               == if n == 0 then None else Some(times[n - 1] + Interval(PhaseAfter(n - 1), s.intervals))
  {
    if |times| > 0 {
      var n := |times| - 1;
      StateSchedule(s, reading, times[..n]);
      SchedulePublication(AfterAll(IncreasedStNum(s, reading), times[..n]), n, times[n]);
    }
  }

  lemma SqNumNext(n: nat)
    ensures NextCounter(SqNumAfter(n)) == SqNumAfter(n + 1)
  {
  }

  lemma SchedulePublication(s: State, n: nat, at: nat)
    requires s.sqNum == SqNumAfter(n) && s.phase == PhaseAfter(n)
    ensures var after := AfterPublish(s, at);
            && after.stNum == s.stNum && after.intervals == s.intervals
            && after.sqNum == SqNumAfter(n + 1) && after.phase == PhaseAfter(n + 1)
            && after.nextPublishAt == Some(at + Interval(PhaseAfter(n), s.intervals))
  {
    SqNumNext(n);
  }

  // ----- The header template -----

  function LengthOffset(comm: CommParameters): nat {
    if comm.vlan.Some? then 20 else 16
  }

  /** The header of an empty PDU. */
  function Template(comm: CommParameters, simulation: bool): seq<Byte> {
    HeaderBytes(PublishedHeader(comm, simulation), 0)
  }

  /** The octets of the header around its Length field. */
  function BeforeLength(h: Header): seq<Byte> {
    h.dstMac + h.srcMac + VlanBytes(h.vlan) + U16Bytes(ETHER_TYPE) + U16Bytes(h.appId)
  }

  lemma HeaderParts(h: Header, n: nat)
    ensures var off := if h.vlan.Some? then 20 else 16;
            && |BeforeLength(h)| == off
            && HeaderBytes(h, n) == BeforeLength(h) + U16Bytes((n + GOOSE_HEADER) % 0x1_0000)
                                    + U16Bytes(Reserved1(h.simulation)) + [0x00, 0x00]
  {
  }

  /** Overwriting the Length field of the template gives the plain header. */
  lemma PatchLength(h: Header, n: nat)
    requires n + GOOSE_HEADER <= 0xFFFF
    ensures var off := if h.vlan.Some? then 20 else 16;
            HeaderBytes(h, 0)[off := (n + GOOSE_HEADER) / 256][off + 1 := (n + GOOSE_HEADER) % 256]
            == HeaderBytes(h, n)
  {
    HeaderParts(h, 0);
    HeaderParts(h, n);
  }

  /** Setting or clearing the top bit of Reserved1 in the template gives the
      template for the other simulation flag. */
  lemma PatchSimulation(h: Header, v: bool)
    ensures var at := (if h.vlan.Some? then 20 else 16) + 2;
            var was := HeaderBytes(h, 0)[at];
            && was == (if h.simulation then 0x80 else 0x00)
            && HeaderBytes(h, 0)[at := if v then 0x80 else 0x00] == HeaderBytes(h.(simulation := v), 0)
  {
    HeaderParts(h, 0);
    HeaderParts(h.(simulation := v), 0);
    assert BeforeLength(h) == BeforeLength(h.(simulation := v));
  }

  /** Sets the top bit of an octet. */
  function SetTopBit(b: Byte): Byte {
    if b < 0x80 then b + 0x80 else b
  }

  function ClearTopBit(b: Byte): Byte {
    b % 0x80
  }

  class GoosePublisher {
    var gocbRef: Utf8String
    var dataSetRef: Utf8String
    var goId: Option<Utf8String>
    var confRev: U32
    var stNum: U32
    var sqNum: U32
    var simulation: bool
    var needsCommission: bool
    var timestamp: UtcStamp
    var hasSource: bool
    var ttlOverride: Option<U32>
    var comm: CommParameters
    var headerBytes: seq<Byte>
    var lengthOffset: nat
    var intervals: Intervals
    var phase: Phase
    var nextPublishAt: Option<nat>

    ghost function Abs(): State
      reads this
    {
      State(gocbRef, dataSetRef, goId, confRev, stNum, sqNum, simulation, needsCommission, timestamp,
            hasSource, ttlOverride, comm, intervals, phase, nextPublishAt)
    }

    /** The template is the header of the current parameters and flag. */
    ghost predicate Valid()
      reads this
    {
      && headerBytes == Template(comm, simulation)
      && lengthOffset == LengthOffset(comm)
      && stNum != 0
      && gocbRef != [] && dataSetRef != []
    }

    constructor (comm: CommParameters, gocbRef: Utf8String, goId: Option<Utf8String>, dataSetRef: Utf8String,
                 confRev: U32)
      requires gocbRef != [] && dataSetRef != []
      ensures Valid()
      ensures Abs() == Initial(comm, gocbRef, goId, dataSetRef, confRev)
    {
      this.comm, this.gocbRef, this.goId := comm, gocbRef, goId;
      this.dataSetRef, this.confRev := dataSetRef, confRev;
      stNum, sqNum, simulation, needsCommission := 1, 0, false, false;
      timestamp, hasSource, ttlOverride := NULL_TIME, false, None;
      intervals, phase, nextPublishAt := DEFAULT_INTERVALS, T1, None;
      lengthOffset := if comm.vlan.Some? then 20 else 16;
      new;
      var header := Header(comm.dstMac, if comm.srcMac.Some? then comm.srcMac.value else NULL_MAC,
                           comm.vlan, comm.appId, GOOSE_HEADER, false);
      var tmp := new Buffer();
      var _ := GooseFrame.Encode(Frame(header, []), tmp);
      headerBytes := tmp.bytes;
    }

    method SetSimulation(v: bool)
      requires Valid()
      modifies this
      ensures Valid() && Abs() == old(Abs()).(simulation := v)
    {
      PatchSimulation(PublishedHeader(comm, simulation), v);
      simulation := v;
      var reserved1 := lengthOffset + 2;
      if v {
        headerBytes := headerBytes[reserved1 := SetTopBit(headerBytes[reserved1])];
      } else {
        headerBytes := headerBytes[reserved1 := ClearTopBit(headerBytes[reserved1])];
      }
    }

    method SetNeedsCommission(v: bool)
      requires Valid()
      modifies this
      ensures Valid() && Abs() == old(Abs()).(needsCommission := v)
    {
      needsCommission := v;
    }

    method SetGoId(id: Option<Utf8String>)
      requires Valid()
      modifies this
      ensures Valid() && Abs() == old(Abs()).(goId := id)
    {
      goId := id;
    }

    method SetConfRev(v: U32)
      requires Valid()
      modifies this
      ensures Valid() && Abs() == old(Abs()).(confRev := v)
    {
      confRev := v;
    }

    method SetDataSetRef(ref: Utf8String) returns (r: Result<(), GooseError>)
      requires Valid()
      modifies this
      ensures Valid() && Abs() == (if ref == [] then old(Abs()) else old(Abs()).(dataSetRef := ref))
      ensures r == if ref == [] then Err(FieldTooLong(0)) else Ok(())
    {
      if ref == [] {
        return Err(FieldTooLong(0));
      }
      dataSetRef := ref;
      return Ok(());
    }

    method SetRetransIntervals(iv: Intervals)
      requires Valid()
      modifies this
      ensures Valid() && Abs() == old(Abs()).(intervals := iv)
    {
      intervals := iv;
    }

    method SetTimeAllowedToLive(ms: Option<U32>)
      requires Valid()
      modifies this
      ensures Valid() && Abs() == old(Abs()).(ttlOverride := ms)
    {
      ttlOverride := ms;
    }

    method SetTimestamp(t: UtcStamp)
      requires Valid()
      modifies this
      ensures Valid() && Abs() == old(Abs()).(timestamp := t)
    {
      timestamp := t;
    }

    method SetTimestampSource(installed: bool)
      requires Valid()
      modifies this
      ensures Valid() && Abs() == old(Abs()).(hasSource := installed)
    {
      hasSource := installed;
    }

    /** Takes the reading of the timestamp source, when one is installed. */
    method StampStateChange(reading: UtcStamp)
      modifies this`timestamp
      ensures Abs() == Stamped(old(Abs()), reading)
    {
      if hasSource {
        timestamp := reading;
      }
    }

    /** The burst of a state starts over: sqNum 0, the first phase and a
        publication due at once. */
    method Restart()
      modifies this`sqNum, this`phase, this`nextPublishAt
      ensures Abs() == old(Abs()).(sqNum := 0, phase := T1, nextPublishAt := None)
    {
      sqNum := 0;
      phase, nextPublishAt := T1, None;
    }

    method IncreaseStNum(reading: UtcStamp)
      requires Valid()
      modifies this
      ensures Valid() && Abs() == IncreasedStNum(old(Abs()), reading)
    {
      stNum := NextCounter(stNum);
      Restart();
      StampStateChange(reading);
    }

    method Reset(reading: UtcStamp)
      requires Valid()
      modifies this
      ensures Valid() && Abs() == WasReset(old(Abs()), reading)
    {
      stNum := 1;
      Restart();
      StampStateChange(reading);
    }

    /** When the next publication is due: `now` before the first of a state. */
    function NextPublishAt(now: nat): (at: nat)
      reads this
      ensures nextPublishAt == None ==> at == now
    {
      if nextPublishAt.Some? then nextPublishAt.value else now
    }

    /** Whether a publication is due, and since when. */
    method Tick(now: nat) returns (action: Option<nat>)
      ensures action.Some? <==> nextPublishAt.None? || nextPublishAt.value <= now
      ensures action.Some? ==> action.value == NextPublishAt(now) <= now
    {
      var target := NextPublishAt(now);
      return if now >= target then Some(target) else None;
    }

    method TimeAllowedToLiveMs() returns (ms: U32)
      ensures ms == TimeAllowedToLive(Abs())
    {
      if ttlOverride.Some? {
        return ttlOverride.value;
      }
      var doubled := 2 * Millis(Interval(phase, intervals));
      return if doubled <= U32_MAX then doubled else U32_MAX;
    }

    /** Copies the template, patches its Length field and appends the PDU; the
        result is the plainly encoded frame. */
    method BuildFrame(pduBytes: seq<Byte>) returns (out: seq<Byte>)
      requires Valid() && |headerBytes| + |pduBytes| <= MAX_FRAME_SIZE
      ensures out == EncodeFrame(Frame(PublishedHeader(comm, simulation), pduBytes))
    {
      PatchLength(PublishedHeader(comm, simulation), |pduBytes|);
      var length: U16 := |pduBytes| + GOOSE_HEADER;
      out := headerBytes;
      out := out[lengthOffset := length / 256];
      out := out[lengthOffset + 1 := length % 256];
      out := out + pduBytes;
    }

    /** Encodes the PDU of a publication. */
    method BuildPdu(data: seq<MmsValue>) returns (r: Result<seq<Byte>, GooseError>)
      ensures r == EncodePdu(PublishedPdu(Abs(), data))
    {
      var ttl := TimeAllowedToLiveMs();
      var pdu := GoosePdu(gocbRef, ttl, dataSetRef, if goId.Some? then goId.value else gocbRef, timestamp,
                          stNum, sqNum, simulation, confRev, needsCommission, |data| % 0x1_0000_0000, data);
      assert pdu == PublishedPdu(Abs(), data);
      var buf := new Buffer();
      var written := EncodeBer(pdu, buf);
      if written.Err? {
        return Err(written.error);
      }
      assert [] + EncodePdu(pdu).value == EncodePdu(pdu).value;
      return Ok(buf.bytes);
    }

    /** The frame of the next publication. */
    method BuildPublication(data: seq<MmsValue>) returns (r: Result<seq<Byte>, GooseError>)
      requires Valid()
      ensures r == PublishedFrame(Abs(), data)
    {
      var pdu := BuildPdu(data);
      if pdu.Err? {
        return pdu;
      }
      if |headerBytes| + |pdu.value| > MAX_FRAME_SIZE {
        return Err(PduOverflow);
      }
      var out := BuildFrame(pdu.value);
      return Ok(out);
    }

    /** Publishes: the frame, then sqNum, the phase and the schedule move on. A
        failure changes nothing. */
    method PublishAt(data: seq<MmsValue>, now: nat) returns (r: Result<seq<Byte>, GooseError>)
      requires Valid()
      modifies this
      ensures Valid()
      ensures (r, Abs()) == Publish(old(Abs()), data, now)
    {
      r := BuildPublication(data);
      if r.Err? {
        return;
      }
      sqNum := NextCounter(sqNum);
      nextPublishAt := Some(now + Interval(phase, intervals));
      phase := Advance(phase);
    }
  }

  /** Creates a publisher, refusing an empty reference. */
  method NewPublisher(comm: CommParameters, gocbRef: Utf8String, goId: Option<Utf8String>, dataSetRef: Utf8String,
                      confRev: U32)
    returns (r: Result<GoosePublisher, GooseError>)
    ensures r.Err? <==> gocbRef == [] || dataSetRef == []
    ensures r.Err? ==> r.error == FieldTooLong(0)
    ensures r.Ok? ==>
              && fresh(r.value) && r.value.Valid()
              && r.value.Abs() == Initial(comm, gocbRef, goId, dataSetRef, confRev)
  {
    if gocbRef == [] || dataSetRef == [] {
      return Err(FieldTooLong(0));
    }
    var p := new GoosePublisher(comm, gocbRef, goId, dataSetRef, confRev);
    return Ok(p);
  }

  /** The operations that only set a field. */
  predicate IsSetting(op: Op) {
    !op.IncreaseStNum? && !op.Reset? && !op.PublishAt?
  }

  method Configure(p: GoosePublisher, op: Op)
    requires p.Valid() && IsSetting(op)
    modifies p
    ensures p.Valid() && p.Abs() == Step(old(p.Abs()), op)
  {
    match op
    case SetSimulation(v) => p.SetSimulation(v);
    case SetNeedsCommission(v) => p.SetNeedsCommission(v);
    case SetGoId(id) => p.SetGoId(id);
    case SetConfRev(v) => p.SetConfRev(v);
    case SetDataSetRef(ref) => var _ := p.SetDataSetRef(ref);
    case SetIntervals(iv) => p.SetRetransIntervals(iv);
    case SetTimeAllowedToLive(ttl) => p.SetTimeAllowedToLive(ttl);
    case SetTimestamp(t) => p.SetTimestamp(t);
    case SetTimestampSource(installed) => p.SetTimestampSource(installed);
  }

  /** Carries out one operation and returns what a publication gave. */
  method Perform(p: GoosePublisher, op: Op) returns (frames: seq<Result<seq<Byte>, GooseError>>)
    requires p.Valid()
    modifies p
    ensures p.Valid() && p.Abs() == Step(old(p.Abs()), op)
    ensures frames == if op.PublishAt? then [Publish(old(p.Abs()), op.data, op.now).0] else []
  {
    frames := [];
    if IsSetting(op) {
      Configure(p, op);
    } else {
      match op
      case IncreaseStNum(reading) => p.IncreaseStNum(reading);
      case Reset(reading) => p.Reset(reading);
      case PublishAt(data, now) =>
        var r := p.PublishAt(data, now);
        frames := [r];
    }
  }

  lemma RunStep(s: State, ops: seq<Op>, i: nat)
    requires i < |ops|
    ensures Run(s, ops[i..]) == Run(Step(s, ops[i]), ops[i + 1..])
    ensures Frames(s, ops[i..])
            == (if ops[i].PublishAt? then [Publish(s, ops[i].data, ops[i].now).0] else [])
               + Frames(Step(s, ops[i]), ops[i + 1..])
  {
    assert ops[i..][1..] == ops[i + 1..];
  }

  /** Template patching refines plain encoding over any run: whatever the
      interleaving of setters, state changes and publications, the frames are
      the plainly encoded ones. */
  method Drive(p: GoosePublisher, ops: seq<Op>) returns (frames: seq<Result<seq<Byte>, GooseError>>)
    requires p.Valid()
    modifies p
    ensures p.Valid() && p.Abs() == Run(old(p.Abs()), ops)
    ensures frames == Frames(old(p.Abs()), ops)
  {
    ghost var start := p.Abs();
    ghost var s := start;
    frames := [];
    var i := 0;
    assert ops[0..] == ops;
    assert [] + Frames(start, ops) == Frames(start, ops);
    while i < |ops|
      invariant 0 <= i <= |ops|
      invariant p.Valid() && p.Abs() == s
      invariant Run(s, ops[i..]) == Run(start, ops)
      invariant frames + Frames(s, ops[i..]) == Frames(start, ops)
    {
      RunStep(s, ops, i);
      var more := Perform(p, ops[i]);
      s := Step(s, ops[i]);
      Associative(frames, more, Frames(s, ops[i + 1..]));
      frames := frames + more;
      i := i + 1;
    }
    assert frames + [] == frames;
  }

  // ----- What arrives -----

  /** The reference strings are within the limit the decoder enforces, and every
      value has a form on the wire. The publisher checks neither. */
  predicate Deliverable(s: State, data: seq<MmsValue>) {
    && |s.gocbRef| <= STRING_MAX_LEN
    && |s.dataSetRef| <= STRING_MAX_LEN
    && (s.goId.Some? ==> |s.goId.value| <= STRING_MAX_LEN)
    && AllStorable(data)
  }

  /** The VLAN ID has twelve bits, which the publisher does not check either. */
  predicate Publishable(s: State, data: seq<MmsValue>) {
    Deliverable(s, data) && (s.comm.vlan.Some? ==> s.comm.vlan.value.vlanId < 0x1000)
  }

  lemma {:induction false} EncodeAllAtLeast(vs: seq<MmsValue>)
    ensures |vs| <= |EncodeAll(vs)|
  {
    if |vs| > 0 {
      EncodeAllAtLeast(vs[1..]);
    }
  }

  lemma PublishedSizes(s: State, data: seq<MmsValue>)
    requires PublishedFrame(s, data).Ok?
    ensures var pdu := PublishedPdu(s, data);
            && Encodable(pdu) && |Body(pdu)| <= MAX_FRAME_SIZE && |data| <= MAX_FRAME_SIZE
            && HeaderSize(s.comm) + |EncodePdu(pdu).value| <= MAX_FRAME_SIZE
            && pdu.numDatSetEntries == |data|
  {
    var pdu := PublishedPdu(s, data);
    EncodeAllAtLeast(data);
    assert |EncodeAll(data)| <= |Tlv(TAG_ALL_DATA, EncodeAll(data))| <= |Body(pdu)|;
  }

  /** A published PDU survives exactly when the publisher's strings and data
      are within what the decoder takes; size and state number always are. */
  lemma PublishedPduSurvives(s: State, data: seq<MmsValue>)
    requires s.stNum != 0 && PublishedFrame(s, data).Ok?
    ensures var pdu := PublishedPdu(s, data);
            DecodePdu(EncodePdu(pdu).value) == Ok(pdu)
            <==> Deliverable(s, data)
  {
    var pdu := PublishedPdu(s, data);
    PublishedSizes(s, data);
    PduRoundTrip(pdu, []);
    assert EncodePdu(pdu).value + [] == EncodePdu(pdu).value;
  }

  /** What a receiver sees of the header of a publication. */
  function SeenHeader(s: State, data: seq<MmsValue>): Header
    requires PublishedFrame(s, data).Ok?
  {
    var f := Frame(PublishedHeader(s.comm, s.simulation), EncodePdu(PublishedPdu(s, data)).value);
    Sent(f).header.(vlan := CarriedVlan(s.comm.vlan))
  }

  /** The frame layer hands over the published PDU octets in any case. */
  lemma PublishedFrameSeen(s: State, data: seq<MmsValue>, padding: seq<Byte>)
    requires PublishedFrame(s, data).Ok?
    ensures var pdu := EncodePdu(PublishedPdu(s, data)).value;
            var f := Sent(Frame(PublishedHeader(s.comm, s.simulation), pdu));
            && DecodeFrame(PublishedFrame(s, data).value + padding) == Ok(Frame(SeenHeader(s, data), pdu))
            && (SeenHeader(s, data) == f.header <==> (s.comm.vlan.Some? ==> s.comm.vlan.value.vlanId < 0x1000))
  {
    var pdu := EncodePdu(PublishedPdu(s, data)).value;
    PublishedSizes(s, data);
    FittingFrameSeen(Frame(PublishedHeader(s.comm, s.simulation), pdu), padding);
  }

  /** A publication is delivered, with twelve bits of its VLAN ID, if and only if
      it is deliverable. */
  lemma PublicationDelivered(s: State, data: seq<MmsValue>, padding: seq<Byte>)
    requires s.stNum != 0 && PublishedFrame(s, data).Ok?
    ensures Decoded(PublishedFrame(s, data).value + padding) == Some((SeenHeader(s, data), PublishedPdu(s, data)))
            <==> Deliverable(s, data)
  {
    PublishedPduSurvives(s, data);
    PublishedFrameSeen(s, data, padding);
  }

  /** End to end: a published frame, even with padding behind it, decodes to
      exactly the publisher's fields, flags and data, if and only if what was
      to be published is publishable. */
  lemma PublicationArrives(s: State, data: seq<MmsValue>, padding: seq<Byte>)
    requires s.stNum != 0 && PublishedFrame(s, data).Ok?
    ensures var pdu := PublishedPdu(s, data);
            var f := Sent(Frame(PublishedHeader(s.comm, s.simulation), EncodePdu(pdu).value));
            Decoded(PublishedFrame(s, data).value + padding) == Some((f.header, pdu)) <==> Publishable(s, data)
  {
    PublicationDelivered(s, data, padding);
    PublishedFrameSeen(s, data, padding);
  }
}
