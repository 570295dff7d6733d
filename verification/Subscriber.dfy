/** The GOOSE subscriber: sequence checks against the previous message of the
    same publication, a bounded table of publications and the supervision of
    timeAllowedToLive. */
module Subscriber {
  import opened Wrappers
  import opened Bytes
  import opened Numbers
  import opened Utf8
  import opened GooseErrors
  import opened MmsData
  import opened GoosePdu
  import opened GooseFrame

  const U64_MAX: U64 := 0xFFFF_FFFF_FFFF_FFFF

  /** One decoded publication as delivered to a listener. */
  datatype Snapshot = Snapshot(
    gocbRef: Utf8String,
    datSet: Utf8String,
    goId: Utf8String,
    ttlMs: U32,
    stNum: U32,
    sqNum: U32,
    confRev: U32,
    timestamp: UtcStamp,
    simulation: bool,
    frameSimulation: bool,
    ndsCom: bool,
    values: seq<MmsValue>,
    srcMac: Mac,
    dstMac: Mac,
    vlan: Option<VlanTag>,
    receivedAt: nat,
    stateValid: bool)

  /** A message is simulated when its PDU or its frame header says so. */
  predicate IsSimulated(x: Snapshot) {
    x.simulation || x.frameSimulation
  }

  /** A publication: a gocbRef together with the simulation flag. */
  type Key = (Utf8String, bool)

  function KeyOf(x: Snapshot): Key {
    (x.gocbRef, IsSimulated(x))
  }

  datatype Event =
    | NewState(prevStNum: U32, state: Snapshot, parse: Result<(), GooseError>)
    | Retransmission(state: Snapshot, parse: Result<(), GooseError>)
    | Expired(state: Snapshot)

  // ----- Judging one message against the previous one -----

  /** A counter stepped from its maximum to 1, its overflow (section 18.1.2.5.2
      of IEC 61850-8-1). */
  predicate IsWrapToOne(prev: U32, next: U32) {
    prev == U32_MAX && next == 1
  }

  predicate StNumRollback(prev: Option<Snapshot>, x: Snapshot) {
    prev.Some? && x.stNum < prev.value.stNum && !IsWrapToOne(prev.value.stNum, x.stNum)
  }

  /** The same state with an sqNum that did not advance. */
  predicate SqNumRollback(prev: Option<Snapshot>, x: Snapshot) {
    && prev.Some? && x.stNum == prev.value.stNum
    && x.sqNum <= prev.value.sqNum && !IsWrapToOne(prev.value.sqNum, x.sqNum)
  }

  /** The message with its verdict. */
  function Judged(prev: Option<Snapshot>, x: Snapshot): Snapshot {
    x.(stateValid := !StNumRollback(prev, x) && !SqNumRollback(prev, x) && x.stateValid)
  }

  function ParseResult(prev: Option<Snapshot>, x: Snapshot): Result<(), GooseError> {
    if prev.Some? && prev.value.confRev != 0 && x.confRev != prev.value.confRev then
      Err(ConfRevMismatch(prev.value.confRev, x.confRev))
    else Ok(())
  }

  function EventFor(prev: Option<Snapshot>, x: Snapshot): Event {
    var prevStNum := if prev.Some? then prev.value.stNum else 0;
    var wrapped := prev.Some? && IsWrapToOne(prevStNum, x.stNum);
    if StNumRollback(prev, x) || wrapped || x.stNum > prevStNum || prevStNum == 0 then
      NewState(prevStNum, Judged(prev, x), ParseResult(prev, x))
    else
      Retransmission(Judged(prev, x), ParseResult(prev, x))
  }

  /** Whole milliseconds from the arrival of a message to `now`, 0 when `now` is
      earlier. */
  function ElapsedMs(x: Snapshot, now: nat): U64 {
    var ms := if now <= x.receivedAt then 0 else Millis(now - x.receivedAt);
    if ms <= U64_MAX then ms else U64_MAX
  }

  predicate Overdue(x: Snapshot, now: nat) {
    ElapsedMs(x, now) > x.ttlMs
  }

  // ----- The table of publications -----

  datatype Track = Track(last: Snapshot, expiredFired: bool, lastSeen: U64)

  datatype Table = Table(maxStreams: nat, streams: seq<Track>, clock: U64, lastState: Option<Snapshot>)

  /** The table of a new subscriber; at least one publication is tracked. */
  function Fresh(maxStreams: nat): (t: Table)
    ensures t.maxStreams >= 1
  {
    Table(if maxStreams >= 1 then maxStreams else 1, [], 0, None)
  }

  /** The slot of a publication. */
  function Find(streams: seq<Track>, key: Key): (slot: Option<nat>)
    ensures slot.Some? ==> slot.value < |streams| && KeyOf(streams[slot.value].last) == key
    ensures slot.None? ==> forall i :: 0 <= i < |streams| ==> KeyOf(streams[i].last) != key
  {
    if |streams| == 0 then None
    else
      var before := Find(streams[..|streams| - 1], key);
      if before.Some? then before
      else if KeyOf(streams[|streams| - 1].last) == key then Some(|streams| - 1)
      else None
  }

  /** The first slot with the least recency stamp. */
  function LeastRecent(streams: seq<Track>): (slot: nat)
    requires |streams| > 0
    ensures slot < |streams|
    ensures forall i :: 0 <= i < |streams| ==> streams[slot].lastSeen <= streams[i].lastSeen
  {
    if |streams| == 1 then 0
    else
      var before := LeastRecent(streams[..|streams| - 1]);
      if streams[|streams| - 1].lastSeen < streams[before].lastSeen then |streams| - 1 else before
  }

  /** Removes a slot by moving the last one into it. */
  function SwapRemove(streams: seq<Track>, slot: nat): seq<Track>
    requires slot < |streams|
  {
    streams[slot := streams[|streams| - 1]][..|streams| - 1]
  }

  /** Drops the publication heard least recently when every slot is taken. */
  function MakeRoom(t: Table): seq<Track> {
    if |t.streams| >= t.maxStreams && |t.streams| > 0 then SwapRemove(t.streams, LeastRecent(t.streams))
    else t.streams
  }

  function Previous(t: Table, key: Key): Option<Snapshot> {
    var slot := Find(t.streams, key);
    if slot.Some? then Some(t.streams[slot.value].last) else None
  }

  function NextClock(clock: U64): U64 {
    (clock as int + 1) % 0x1_0000_0000_0000_0000
  }

  /** Takes in one message. A repeated or regressed sqNum does not re-arm an
      expiry that has fired. */
  function Update(t: Table, x: Snapshot): Table {
    var slot := Find(t.streams, KeyOf(x));
    var prev := Previous(t, KeyOf(x));
    var state := Judged(prev, x);
    var clock := NextClock(t.clock);
    Table(t.maxStreams, Remembered(t, slot, state, SqNumRollback(prev, x), clock), clock, Some(state))
  }

  /** The slots after a message: its own slot replaced, or one added. */
  function Remembered(t: Table, slot: Option<nat>, state: Snapshot, repeated: bool, clock: U64): seq<Track>
    requires slot.Some? ==> slot.value < |t.streams|
  {
    if slot.Some? then
      t.streams[slot.value := Track(state, repeated && t.streams[slot.value].expiredFired, clock)]
    else
      MakeRoom(t) + [Track(state, false, clock)]
  }

  function SweptTrack(track: Track, now: nat): Track {
    if Overdue(track.last, now) then track.(expiredFired := true) else track
  }

  function SweptTracks(streams: seq<Track>, now: nat): (r: seq<Track>)
    ensures |r| == |streams|
    ensures forall i :: 0 <= i < |r| ==> r[i] == SweptTrack(streams[i], now)
  {
    if |streams| == 0 then []
    else SweptTracks(streams[..|streams| - 1], now) + [SweptTrack(streams[|streams| - 1], now)]
  }

  /** The publications that expire now, in table order. */
  function SweepEvents(streams: seq<Track>, now: nat): seq<Event> {
    if |streams| == 0 then []
    else
      SweepEvents(streams[..|streams| - 1], now) + ExpiryOf(streams[|streams| - 1], now)
  }

  function ExpiryOf(track: Track, now: nat): seq<Event> {
    if !track.expiredFired && Overdue(track.last, now) then [Expired(track.last)] else []
  }

  /** What happens to a subscriber: a message it accepts, or a sweep. */
  datatype Input =
    | Message(x: Snapshot)
    | Sweep(now: nat)

  function Step(t: Table, input: Input): Table {
    match input
    case Message(x) => Update(t, x)
    case Sweep(now) => t.(streams := SweptTracks(t.streams, now))
  }

  function StepEvents(t: Table, input: Input): seq<Event> {
    match input
    case Message(x) => [EventFor(Previous(t, KeyOf(x)), x)]
    case Sweep(now) => SweepEvents(t.streams, now)
  }

  function Run(t: Table, inputs: seq<Input>): Table
    decreases |inputs|
  {
    if |inputs| == 0 then t else Run(Step(t, inputs[0]), inputs[1..])
  }

  function RunEvents(t: Table, inputs: seq<Input>): seq<Event>
    decreases |inputs|
  {
    if |inputs| == 0 then [] else StepEvents(t, inputs[0]) + RunEvents(Step(t, inputs[0]), inputs[1..])
  }

  // ----- Filters -----

  datatype SimulationFilter = Any | NonSimulated | Simulated

  predicate Accepts(filter: SimulationFilter, simulated: bool) {
    match filter
    case Any => true
    case NonSimulated => !simulated
    case Simulated => simulated
  }

  datatype Filters = Filters(
    gocbRef: Option<Utf8String>,
    appId: Option<U16>,
    dstMac: Option<Mac>,
    simulation: SimulationFilter)

  predicate MatchesFrame(f: Filters, appId: U16, dstMac: Mac) {
    (f.appId.None? || f.appId.value == appId) && (f.dstMac.None? || f.dstMac.value == dstMac)
  }

  predicate MatchesGocbRef(f: Filters, gocbRef: Utf8String) {
    f.gocbRef.None? || f.gocbRef.value == gocbRef
  }

  class GooseSubscriber {
    const filters: Filters
    const maxStreams: nat
    const hasListener: bool
    var lastState: Option<Snapshot>
    var streams: seq<Track>
    var clock: U64
    /** The calls made to the listener, oldest first. */
    ghost var log: seq<Event>

    ghost function Abs(): Table
      reads this
    {
      Table(maxStreams, streams, clock, lastState)
    }

    constructor (filters: Filters, maxStreams: nat, hasListener: bool)
      ensures Abs() == Fresh(maxStreams) && log == []
      ensures this.filters == filters && this.hasListener == hasListener
    {
      this.filters, this.hasListener := filters, hasListener;
      this.maxStreams := if maxStreams >= 1 then maxStreams else 1;
      lastState, streams, clock := None, [], 0;
      log := [];
    }

    /** Searches the table for a publication. */
    method FindSlot(key: Key) returns (slot: Option<nat>)
      ensures slot == Find(streams, key)
    {
      var i := 0;
      while i < |streams|
        invariant 0 <= i <= |streams|
        invariant Find(streams[..i], key) == None
      {
        assert streams[..i + 1][..i] == streams[..i];
        if KeyOf(streams[i].last) == key {
          FindInPrefix(streams, i + 1, key);
          return Some(i);
        }
        i := i + 1;
      }
      assert streams[..i] == streams;
      return None;
    }

    /** Forgets the publication whose last message arrived earliest. */
    method EvictLeastRecent()
      requires |streams| > 0
      modifies this`streams
      ensures streams == SwapRemove(old(streams), LeastRecent(old(streams)))
    {
      var oldest := 0;
      var i := 1;
      assert streams[..1] == [streams[0]];
      while i < |streams|
        invariant 1 <= i <= |streams|
        invariant oldest == LeastRecent(streams[..i])
      {
        assert streams[..i + 1][..i] == streams[..i];
        if streams[i].lastSeen < streams[oldest].lastSeen {
          oldest := i;
        }
        i := i + 1;
      }
      assert streams[..i] == streams;
      streams := streams[oldest := streams[|streams| - 1]][..|streams| - 1];
    }

    /** Puts a message in its slot, or in a new one after making room. */
    method Remember(slot: Option<nat>, state: Snapshot, repeated: bool)
      requires slot.Some? ==> slot.value < |streams|
      modifies this`streams
      ensures streams == Remembered(old(Abs()), slot, state, repeated, clock)
    {
      if slot.Some? {
        var fired := repeated && streams[slot.value].expiredFired;
        streams := streams[slot.value := Track(state, fired, clock)];
      } else {
        if |streams| >= maxStreams && |streams| > 0 {
          EvictLeastRecent();
        }
        streams := streams + [Track(state, false, clock)];
      }
    }

    /** Applies a message and calls the listener. */
    method UpdateAndDispatch(x: Snapshot)
      modifies this
      ensures Abs() == Update(old(Abs()), x)
      ensures log == old(log) + if hasListener then [EventFor(Previous(old(Abs()), KeyOf(x)), x)] else []
    {
      var slot := FindSlot(KeyOf(x));
      var prev := if slot.Some? then Some(streams[slot.value].last) else None;
      var state := Judged(prev, x);
      var event := EventFor(prev, x);
      clock := NextClock(clock);
      Remember(slot, state, SqNumRollback(prev, x));
      lastState := Some(state);
      log := log + if hasListener then [event] else [];
    }

    /** Marks one slot when it is overdue, and reports it unless it was marked. */
    method SweepSlot(i: nat, now: nat)
      requires i < |streams|
      modifies this`streams, this`log
      ensures streams == old(streams)[i := SweptTrack(old(streams)[i], now)]
      ensures log == old(log) + if hasListener then ExpiryOf(old(streams)[i], now) else []
    {
      var track := streams[i];
      if !track.expiredFired && Overdue(track.last, now) {
        streams := streams[i := track.(expiredFired := true)];
        log := log + if hasListener then [Expired(track.last)] else [];
      }
    }

    /** Sweeps the slots in table order. */
    method SweepSlots(now: nat)
      modifies this`streams, this`log
      ensures |streams| == |old(streams)|
      ensures forall j :: 0 <= j < |streams| ==> streams[j] == SweptTrack(old(streams)[j], now)
      ensures log == Told(old(log), hasListener, SweepEvents(old(streams), now))
    {
      ghost var before := streams;
      var i := 0;
      while i < |streams|
        invariant 0 <= i <= |streams| == |before|
        invariant forall j :: 0 <= j < i ==> streams[j] == SweptTrack(before[j], now)
        invariant forall j :: i <= j < |streams| ==> streams[j] == before[j]
        invariant log == Told(old(log), hasListener, SweepEvents(before[..i], now))
      {
        SweepSnoc(before, i, now);
        ToldMore(old(log), hasListener, SweepEvents(before[..i], now), ExpiryOf(before[i], now));
        SweepSlot(i, now);
        i := i + 1;
      }
      assert before[..i] == before;
    }

    /** Raises Expired for every publication that is overdue and has not been
        reported. */
    method CheckExpiredAt(now: nat)
      modifies this`streams, this`log
      ensures Abs() == Step(old(Abs()), Sweep(now))
      ensures log == old(log) + if hasListener then SweepEvents(old(streams), now) else []
    {
      SweepSlots(now);
      assert streams == SweptTracks(old(streams), now);
    }
  }

  /** What a listener, if there is one, has been told. */
  function Told(log: seq<Event>, listens: bool, events: seq<Event>): seq<Event> {
    log + if listens then events else []
  }

  lemma ToldMore(log: seq<Event>, listens: bool, a: seq<Event>, b: seq<Event>)
    ensures Told(Told(log, listens, a), listens, b) == Told(log, listens, a + b)
  {
  }

  lemma SweepSnoc(streams: seq<Track>, i: nat, now: nat)
    requires i < |streams|
    ensures SweepEvents(streams[..i + 1], now)
            == SweepEvents(streams[..i], now) + ExpiryOf(streams[i], now)
  {
    assert streams[..i + 1][..i] == streams[..i];
  }

  lemma {:induction false} FindInPrefix(streams: seq<Track>, n: nat, key: Key)
    requires n <= |streams| && Find(streams[..n], key).Some?
    ensures Find(streams, key) == Find(streams[..n], key)
    decreases |streams|
  {
    if n < |streams| {
      var front := streams[..|streams| - 1];
      assert front[..n] == streams[..n];
      FindInPrefix(front, n, key);
    } else {
      assert streams[..n] == streams;
    }
  }
}
