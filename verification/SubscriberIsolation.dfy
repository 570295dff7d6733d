/** One publication seen alone: as long as it is not evicted, its events depend
    on its own messages and the sweeps only. */
module SubscriberIsolation {
  import opened Wrappers
  import opened Sequences
  import opened RecencyList
  import opened Subscriber
  import opened SubscriberHistory

  /** What a table knows of one publication. */
  datatype Watch = Watch(last: Snapshot, fired: bool)

  function WatchAt(streams: seq<Track>, slot: Option<nat>): Option<Watch>
    requires slot.Some? ==> slot.value < |streams|
  {
    if slot.Some? then Some(Watch(streams[slot.value].last, streams[slot.value].expiredFired)) else None
  }

  function Lookup(streams: seq<Track>, key: Key): Option<Watch> {
    WatchAt(streams, Find(streams, key))
  }

  function LastOf(w: Option<Watch>): Option<Snapshot> {
    if w.Some? then Some(w.value.last) else None
  }

  /** A subscriber of a single publication. */
  function WatchStep(w: Option<Watch>, input: Input): Option<Watch> {
    match input
    case Message(x) =>
      Some(Watch(Judged(LastOf(w), x), w.Some? && SqNumRollback(LastOf(w), x) && w.value.fired))
    case Sweep(now) =>
      if w.Some? && Overdue(w.value.last, now) then Some(w.value.(fired := true)) else w
  }

  function WatchEvents(w: Option<Watch>, input: Input): seq<Event> {
    match input
    case Message(x) => [EventFor(LastOf(w), x)]
    case Sweep(now) =>
      if w.Some? && !w.value.fired && Overdue(w.value.last, now) then [Expired(w.value.last)] else []
  }

  function WatchRun(w: Option<Watch>, inputs: seq<Input>): seq<Event>
    decreases |inputs|
  {
    if |inputs| == 0 then [] else WatchEvents(w, inputs[0]) + WatchRun(WatchStep(w, inputs[0]), inputs[1..])
  }

  predicate Concerns(input: Input, key: Key) {
    input.Message? ==> KeyOf(input.x) == key
  }

  /** The messages of one publication, and every sweep. */
  function Project(inputs: seq<Input>, key: Key): seq<Input> {
    if |inputs| == 0 then []
    else (if Concerns(inputs[0], key) then [inputs[0]] else []) + Project(inputs[1..], key)
  }

  function EventsOf(events: seq<Event>, key: Key): seq<Event> {
    if |events| == 0 then []
    else (if KeyOf(events[0].state) == key then [events[0]] else []) + EventsOf(events[1..], key)
  }

  lemma {:induction false} EventsOfConcat(a: seq<Event>, b: seq<Event>, key: Key)
    ensures EventsOf(a + b, key) == EventsOf(a, key) + EventsOf(b, key)
  {
    if |a| == 0 {
      assert [] + b == b;
    } else {
      assert (a + b)[1..] == a[1..] + b;
      EventsOfConcat(a[1..], b, key);
    }
  }

  lemma {:induction false} ProjectAgain(inputs: seq<Input>, key: Key)
    ensures Project(Project(inputs, key), key) == Project(inputs, key)
  {
    if |inputs| > 0 {
      var p := Project(inputs, key);
      ProjectAgain(inputs[1..], key);
      if Concerns(inputs[0], key) {
        assert p[1..] == Project(inputs[1..], key);
      } else {
        assert p == Project(inputs[1..], key);
      }
    }
  }

  // ----- Slots -----

  lemma SlotUnique(streams: seq<Track>, i: nat, j: nat)
    requires Distinct(Keys(streams)) && i < |streams| && j < |streams|
    requires KeyOf(streams[i].last) == KeyOf(streams[j].last)
    ensures i == j
  {
    assert Keys(streams)[i] == Keys(streams)[j];
  }

  lemma FindUnique(streams: seq<Track>, i: nat)
    requires Distinct(Keys(streams)) && i < |streams|
    ensures Find(streams, KeyOf(streams[i].last)) == Some(i)
  {
    var slot := Find(streams, KeyOf(streams[i].last));
    if slot.Some? {
      SlotUnique(streams, i, slot.value);
    }
  }

  /** Where a publication is found depends on the keys only. */
  lemma {:induction false} FindByKeys(a: seq<Track>, b: seq<Track>, key: Key)
    requires Keys(a) == Keys(b)
    ensures Find(a, key) == Find(b, key)
    decreases |a|
  {
    if |a| > 0 {
      var n := |a| - 1;
      assert Keys(a[..n]) == Keys(a)[..n] == Keys(b)[..n] == Keys(b[..n]);
      FindByKeys(a[..n], b[..n], key);
      assert Keys(a)[n] == Keys(b)[n];
    }
  }

  lemma JudgedKeepsKey(prev: Option<Snapshot>, x: Snapshot)
    ensures KeyOf(Judged(prev, x)) == KeyOf(x)
    ensures KeyOf(EventFor(prev, x).state) == KeyOf(x)
  {
  }

  /** Tables that differ in one slot of the same publication. */
  lemma SameSlots(a: seq<Track>, b: seq<Track>, slot: nat, key: Key)
    requires slot < |a| == |b| && Keys(a) == Keys(b)
    requires forall i :: 0 <= i < |a| && i != slot ==> a[i] == b[i]
    ensures Find(a, key) == Find(b, key)
    ensures key != KeyOf(a[slot].last) ==> Lookup(a, key) == Lookup(b, key)
  {
    FindByKeys(a, b, key);
  }

  lemma AddedSlot(a: seq<Track>, b: seq<Track>, key: Key)
    requires |b| == |a| + 1 && b[..|a|] == a && Distinct(Keys(b))
    ensures key == KeyOf(b[|a|].last) ==> Find(b, key) == Some(|a|)
    ensures key != KeyOf(b[|a|].last) ==> Lookup(b, key) == Lookup(a, key)
  {
    FindUnique(b, |a|);
    assert forall i :: 0 <= i < |a| ==> b[i] == a[i];
    if Find(a, key).Some? {
      FindUnique(b, Find(a, key).value);
    }
  }

  lemma SweptKeys(streams: seq<Track>, now: nat)
    ensures Keys(SweptTracks(streams, now)) == Keys(streams)
  {
  }

  lemma SweptLookup(streams: seq<Track>, now: nat, key: Key)
    ensures Lookup(SweptTracks(streams, now), key) == WatchStep(Lookup(streams, key), Sweep(now))
  {
    var swept := SweptTracks(streams, now);
    SweptKeys(streams, now);
    FindByKeys(streams, swept, key);
    SweptAt(streams, swept, now, Find(streams, key));
  }

  lemma SweptAt(streams: seq<Track>, swept: seq<Track>, now: nat, slot: Option<nat>)
    requires |swept| == |streams| && forall i :: 0 <= i < |swept| ==> swept[i] == SweptTrack(streams[i], now)
    requires slot.Some? ==> slot.value < |streams|
    ensures WatchAt(swept, slot) == WatchStep(WatchAt(streams, slot), Sweep(now))
  {
  }

  /** A sweep reports each publication at most once. */
  lemma {:induction false} SweepEventsOf(streams: seq<Track>, now: nat, key: Key)
    requires Distinct(Keys(streams))
    ensures EventsOf(SweepEvents(streams, now), key) == WatchEvents(Lookup(streams, key), Sweep(now))
  {
    if |streams| > 0 {
      var front, track := streams[..|streams| - 1], streams[|streams| - 1];
      assert Keys(front) == Keys(streams)[..|front|];
      SweepEventsOf(front, now, key);
      AddedSlot(front, streams, key);
      EventsOfConcat(SweepEvents(front, now), ExpiryOf(track, now), key);
      if key == KeyOf(track.last) {
        FindMeansKey(front, key);
        assert forall i :: 0 <= i < |front| ==> Keys(front)[i] == Keys(streams)[i] != Keys(streams)[|front|];
      }
      ExpiryConcerns(ExpiryOf(track, now), track.last, key);
    }
  }

  lemma ExpiryConcerns(raised: seq<Event>, last: Snapshot, key: Key)
    requires raised == [] || raised == [Expired(last)]
    ensures EventsOf(raised, key) == if key == KeyOf(last) then raised else []
  {
  }

  // ----- Steps of any table -----

  lemma SwapRemoveTracks(streams: seq<Track>, e: nat)
    requires e < |streams| && Distinct(Keys(streams))
    ensures Distinct(Keys(SwapRemove(streams, e)))
    ensures forall i :: 0 <= i < |SwapRemove(streams, e)| ==> SwapRemove(streams, e)[i] in streams
  {
    RemoveSlot(streams, e);
    SwapRemovedDistinct(Keys(streams), e);
  }

  lemma MakeRoomTracks(t: Table)
    requires Distinct(Keys(t.streams))
    ensures Distinct(Keys(MakeRoom(t)))
    ensures forall i :: 0 <= i < |MakeRoom(t)| ==> MakeRoom(t)[i] in t.streams
  {
    if |t.streams| >= t.maxStreams && |t.streams| > 0 {
      SwapRemoveTracks(t.streams, LeastRecent(t.streams));
    }
  }

  /** What is still tracked after making room is known as before. */
  lemma MakeRoomLookup(t: Table, key: Key)
    requires Distinct(Keys(t.streams))
    ensures Find(MakeRoom(t), key).Some? ==> Lookup(MakeRoom(t), key) == Lookup(t.streams, key)
  {
    MakeRoomTracks(t);
    var left := MakeRoom(t);
    var slot := Find(left, key);
    if slot.Some? {
      assert left[slot.value] in t.streams;
      var j :| 0 <= j < |t.streams| && t.streams[j] == left[slot.value];
      FindUnique(t.streams, j);
    }
  }

  lemma AppendedLookup(left: seq<Track>, track: Track, key: Key)
    requires Distinct(Keys(left)) && KeyOf(track.last) !in Keys(left)
    ensures Distinct(Keys(left + [track]))
    ensures Lookup(left + [track], key)
            == if key == KeyOf(track.last) then Some(Watch(track.last, track.expiredFired)) else Lookup(left, key)
  {
    AddSlot(left, track);
    DistinctSnoc(Keys(left), KeyOf(track.last));
    AddedSlot(left, left + [track], key);
  }

  /** Making room brings no publication. */
  lemma NotInRoom(t: Table, key: Key)
    requires Distinct(Keys(t.streams)) && Find(t.streams, key).None?
    ensures Distinct(Keys(MakeRoom(t))) && key !in Keys(MakeRoom(t))
  {
    MakeRoomTracks(t);
    MakeRoomLookup(t, key);
    FindMeansKey(MakeRoom(t), key);
  }

  lemma NewSlotLookup(t: Table, x: Snapshot, key: Key)
    requires Distinct(Keys(t.streams)) && Find(t.streams, KeyOf(x)).None?
    ensures Distinct(Keys(Update(t, x).streams))
    ensures Lookup(Update(t, x).streams, key)
            == if key == KeyOf(x) then WatchStep(None, Message(x)) else Lookup(MakeRoom(t), key)
  {
    var track := Track(Judged(None, x), false, NextClock(t.clock));
    NotInRoom(t, KeyOf(x));
    JudgedKeepsKey(None, x);
    AppendedLookup(MakeRoom(t), track, key);
    assert Update(t, x).streams == MakeRoom(t) + [track];
  }

  lemma UpdatedSlotLookup(t: Table, x: Snapshot, key: Key)
    requires Distinct(Keys(t.streams)) && Find(t.streams, KeyOf(x)).Some?
    ensures Distinct(Keys(Update(t, x).streams))
    ensures Lookup(Update(t, x).streams, key)
            == if key == KeyOf(x) then WatchStep(Lookup(t.streams, key), Message(x)) else Lookup(t.streams, key)
  {
    var slot := Find(t.streams, KeyOf(x)).value;
    var streams := Update(t, x).streams;
    ReplaceSlot(t.streams, slot, streams[slot]);
    SameSlots(t.streams, streams, slot, key);
  }

  /** Every step keeps the publications of a table distinct. */
  lemma StepDistinct(t: Table, input: Input)
    requires Distinct(Keys(t.streams))
    ensures Distinct(Keys(Subscriber.Step(t, input).streams))
  {
    match input
    case Sweep(now) => SweptKeys(t.streams, now);
    case Message(x) =>
      if Find(t.streams, KeyOf(x)).Some? {
        UpdatedSlotLookup(t, x, KeyOf(x));
      } else {
        NewSlotLookup(t, x, KeyOf(x));
      }
  }

  /** An input makes the table forget a publication. */
  predicate Evicts(t: Table, input: Input, key: Key) {
    Find(t.streams, key).Some? && Find(Subscriber.Step(t, input).streams, key).None?
  }

  /** What a message does to what a table knows of a publication that it does
      not evict. */
  lemma UpdateLookup(t: Table, x: Snapshot, key: Key)
    requires Distinct(Keys(t.streams)) && !Evicts(t, Message(x), key)
    ensures Distinct(Keys(Update(t, x).streams))
    ensures Lookup(Update(t, x).streams, key)
            == if key == KeyOf(x) then WatchStep(Lookup(t.streams, key), Message(x)) else Lookup(t.streams, key)
  {
    if Find(t.streams, KeyOf(x)).Some? {
      UpdatedSlotLookup(t, x, key);
    } else {
      NewSlotLookup(t, x, key);
      MakeRoomLookup(t, key);
    }
  }

  /** A step that does not evict a publication is, to it, the step of a
      subscriber of it alone. */
  lemma StepIsolated(t: Table, input: Input, key: Key)
    requires Distinct(Keys(t.streams)) && !Evicts(t, input, key)
    ensures Distinct(Keys(Subscriber.Step(t, input).streams))
    ensures Concerns(input, key) ==>
              && Lookup(Subscriber.Step(t, input).streams, key) == WatchStep(Lookup(t.streams, key), input)
              && EventsOf(StepEvents(t, input), key) == WatchEvents(Lookup(t.streams, key), input)
    ensures !Concerns(input, key) ==>
              && Lookup(Subscriber.Step(t, input).streams, key) == Lookup(t.streams, key)
              && EventsOf(StepEvents(t, input), key) == []
  {
    match input
    case Sweep(now) =>
      SweptKeys(t.streams, now);
      SweptLookup(t.streams, now, key);
      SweepEventsOf(t.streams, now, key);
    case Message(x) =>
      UpdateLookup(t, x, key);
      JudgedKeepsKey(Previous(t, KeyOf(x)), x);
  }

  // ----- Runs -----

  predicate NeverEvicted(t: Table, inputs: seq<Input>, key: Key)
    decreases |inputs|
  {
    |inputs| == 0 || (!Evicts(t, inputs[0], key) && NeverEvicted(Subscriber.Step(t, inputs[0]), inputs[1..], key))
  }

  /** The events of a publication that is never evicted, from any table and
      whatever happens to the others. */
  lemma {:induction false} KeptRun(t: Table, inputs: seq<Input>, key: Key)
    requires Distinct(Keys(t.streams)) && NeverEvicted(t, inputs, key)
    ensures EventsOf(RunEvents(t, inputs), key) == WatchRun(Lookup(t.streams, key), Project(inputs, key))
    decreases |inputs|
  {
    if |inputs| > 0 {
      var input, rest := inputs[0], inputs[1..];
      var t' := Subscriber.Step(t, input);
      StepIsolated(t, input, key);
      KeptRun(t', rest, key);
      EventsOfConcat(StepEvents(t, input), RunEvents(t', rest), key);
      if Concerns(input, key) {
        assert Project(inputs, key)[1..] == Project(rest, key);
      } else {
        assert Project(inputs, key) == Project(rest, key);
        assert [] + EventsOf(RunEvents(t', rest), key) == EventsOf(RunEvents(t', rest), key);
      }
    }
  }

  predicate MessagesWithin(inputs: seq<Input>, keys: set<Key>) {
    forall i :: 0 <= i < |inputs| ==> inputs[i].Message? ==> KeyOf(inputs[i].x) in keys
  }

  // ----- Room for all -----

  /** A table whose slots are distinct and belong to `keys`, with room for all. */
  predicate Roomy(t: Table, keys: set<Key>) {
    && |keys| <= t.maxStreams
    && Distinct(Keys(t.streams))
    && forall i :: 0 <= i < |t.streams| ==> KeyOf(t.streams[i].last) in keys
  }

  /** A publication not yet tracked finds a free slot. */
  lemma RoomForNew(t: Table, keys: set<Key>, key: Key)
    requires Roomy(t, keys) && key in keys && Find(t.streams, key).None?
    ensures |t.streams| < t.maxStreams && MakeRoom(t) == t.streams
  {
    FindMeansKey(t.streams, key);
    var all := Keys(t.streams) + [key];
    DistinctSnoc(Keys(t.streams), key);
    assert forall i :: 0 <= i < |t.streams| ==> Keys(t.streams)[i] == KeyOf(t.streams[i].last);
    DistinctWithin(all, keys);
  }

  lemma RoomyStep(t: Table, input: Input, keys: set<Key>, key: Key)
    requires Roomy(t, keys) && (input.Message? ==> KeyOf(input.x) in keys)
    ensures Roomy(Subscriber.Step(t, input), keys) && !Evicts(t, input, key)
  {
    match input
    case Sweep(now) =>
      SweptKeys(t.streams, now);
      FindByKeys(t.streams, SweptTracks(t.streams, now), key);
    case Message(x) =>
      RoomyUpdate(t, x, keys, key);
  }

  lemma RoomyUpdate(t: Table, x: Snapshot, keys: set<Key>, key: Key)
    requires Roomy(t, keys) && KeyOf(x) in keys
    ensures Roomy(Update(t, x), keys) && !Evicts(t, Message(x), key)
  {
    var slot := Find(t.streams, KeyOf(x));
    JudgedKeepsKey(Previous(t, KeyOf(x)), x);
    if slot.Some? {
      UpdatedSlotLookup(t, x, key);
    } else {
      RoomForNew(t, keys, KeyOf(x));
      NewSlotLookup(t, x, key);
    }
  }

  /** With room for every publication of a run none is evicted. */
  lemma {:induction false} RoomyRun(t: Table, inputs: seq<Input>, keys: set<Key>, key: Key)
    requires Roomy(t, keys) && MessagesWithin(inputs, keys)
    ensures NeverEvicted(t, inputs, key)
    decreases |inputs|
  {
    if |inputs| > 0 {
      RoomyStep(t, inputs[0], keys, key);
      RoomyRun(Subscriber.Step(t, inputs[0]), inputs[1..], keys, key);
    }
  }

  /** Isolation, from any table with room for every publication of the run. */
  lemma IsolatedRun(t: Table, inputs: seq<Input>, keys: set<Key>, key: Key)
    requires Roomy(t, keys)
    requires MessagesWithin(inputs, keys)
    ensures EventsOf(RunEvents(t, inputs), key) == WatchRun(Lookup(t.streams, key), Project(inputs, key))
  {
    RoomyRun(t, inputs, keys, key);
    KeptRun(t, inputs, key);
  }

  // ----- Isolation -----

  /** The events of a publication are those of the run projected to it. */
  predicate Isolated(maxStreams: nat, inputs: seq<Input>, key: Key) {
    EventsOf(RunEvents(Fresh(maxStreams), inputs), key)
    == EventsOf(RunEvents(Fresh(maxStreams), Project(inputs, key)), key)
  }

  lemma {:induction false} ProjectConcerns(inputs: seq<Input>, key: Key)
    ensures MessagesWithin(Project(inputs, key), {key})
  {
    if |inputs| > 0 {
      ProjectConcerns(inputs[1..], key);
      var rest := Project(inputs[1..], key);
      if Concerns(inputs[0], key) {
        assert Project(inputs, key) == [inputs[0]] + rest;
      } else {
        assert Project(inputs, key) == rest;
      }
    }
  }

  /** What a new subscriber of any size reports of a run projected to one
      publication. */
  lemma ProjectedEvents(maxStreams: nat, inputs: seq<Input>, key: Key)
    ensures EventsOf(RunEvents(Fresh(maxStreams), Project(inputs, key)), key) == WatchRun(None, Project(inputs, key))
  {
    ProjectConcerns(inputs, key);
    IsolatedRun(Fresh(maxStreams), Project(inputs, key), {key}, key);
    ProjectAgain(inputs, key);
  }

  /** A publication that is never evicted is not disturbed by others, such as a
      simulation of the same control block. */
  lemma IsolatedUnlessEvicted(maxStreams: nat, inputs: seq<Input>, key: Key)
    requires NeverEvicted(Fresh(maxStreams), inputs, key)
    ensures Isolated(maxStreams, inputs, key)
  {
    KeptRun(Fresh(maxStreams), inputs, key);
    ProjectedEvents(maxStreams, inputs, key);
  }

  /** When a run concerns no more publications than the table holds, none
      disturbs another. */
  lemma Isolation(maxStreams: nat, inputs: seq<Input>, keys: set<Key>, key: Key)
    requires |keys| <= Fresh(maxStreams).maxStreams && MessagesWithin(inputs, keys)
    ensures Isolated(maxStreams, inputs, key)
  {
    RoomyRun(Fresh(maxStreams), inputs, keys, key);
    IsolatedUnlessEvicted(maxStreams, inputs, key);
  }
}
