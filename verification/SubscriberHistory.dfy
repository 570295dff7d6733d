/** The bounded table of publications against the history of messages: it holds
    exactly the most recently heard publications, each with its latest message. */
module SubscriberHistory {
  import opened Wrappers
  import opened RecencyList
  import opened Subscriber

  /** The recency counter overflows at this number of messages. */
  const CLOCK_VALUES := 0x1_0000_0000_0000_0000

  /** The messages of a run, in order. */
  function Heard(inputs: seq<Input>): seq<Snapshot> {
    if |inputs| == 0 then []
    else
      Heard(inputs[..|inputs| - 1])
      + if inputs[|inputs| - 1].Message? then [inputs[|inputs| - 1].x] else []
  }

  function HeardKeys(heard: seq<Snapshot>): (keys: seq<Key>)
    ensures |keys| == |heard|
  {
    seq(|heard|, i requires 0 <= i < |heard| => KeyOf(heard[i]))
  }

  function Keys(streams: seq<Track>): (keys: seq<Key>)
    ensures |keys| == |streams|
  {
    seq(|streams|, i requires 0 <= i < |streams| => KeyOf(streams[i].last))
  }

  function Stamps(streams: seq<Track>): (stamps: seq<nat>)
    ensures |stamps| == |streams|
  {
    seq(|streams|, i requires 0 <= i < |streams| => streams[i].lastSeen)
  }

  /** A slot holds the message its stamp numbers, with a verdict. */
  predicate HoldsMessage(track: Track, heard: seq<Snapshot>) {
    && 1 <= track.lastSeen <= |heard|
    && track.last == heard[track.lastSeen - 1].(stateValid := track.last.stateValid)
  }

  /** The table refines the history: it tracks exactly the most recently heard
      publications, each once and each with its latest message. */
  predicate Refines(t: Table, heard: seq<Snapshot>) {
    && t.maxStreams >= 1
    && t.clock == |heard|
    && HoldsKeys(t.maxStreams, Keys(t.streams), HeardKeys(heard))
    && Stamped(Keys(t.streams), Stamps(t.streams), HeardKeys(heard))
    && forall i :: 0 <= i < |t.streams| ==> HoldsMessage(t.streams[i], heard)
  }

  lemma HeardKeysSnoc(heard: seq<Snapshot>, x: Snapshot)
    ensures HeardKeys(heard + [x]) == HeardKeys(heard) + [KeyOf(x)]
  {
  }

  lemma FindMeansKey(streams: seq<Track>, key: Key)
    ensures Find(streams, key).Some? <==> key in Keys(streams)
    ensures Find(streams, key).Some? ==> Keys(streams)[Find(streams, key).value] == key
  {
    var slot := Find(streams, key);
    if slot.Some? {
      assert Keys(streams)[slot.value] == key;
    } else {
      assert forall i :: 0 <= i < |streams| ==> Keys(streams)[i] == KeyOf(streams[i].last) != key;
    }
  }

  lemma MessageKept(track: Track, heard: seq<Snapshot>, x: Snapshot)
    requires HoldsMessage(track, heard)
    ensures HoldsMessage(track, heard + [x])
  {
  }

  /** Replacing a slot by a message of the same publication. */
  lemma ReplaceSlot(streams: seq<Track>, slot: nat, track: Track)
    requires slot < |streams| && KeyOf(track.last) == KeyOf(streams[slot].last)
    ensures Keys(streams[slot := track]) == Keys(streams)
    ensures Stamps(streams[slot := track]) == Stamps(streams)[slot := track.lastSeen]
  {
  }

  lemma AddSlot(streams: seq<Track>, track: Track)
    ensures Keys(streams + [track]) == Keys(streams) + [KeyOf(track.last)]
    ensures Stamps(streams + [track]) == Stamps(streams) + [track.lastSeen]
  {
  }

  lemma RemoveSlot(streams: seq<Track>, e: nat)
    requires e < |streams|
    ensures SwapRemove(streams, e) == SwapRemoved(streams, e)
    ensures Keys(SwapRemove(streams, e)) == SwapRemoved(Keys(streams), e)
    ensures Stamps(SwapRemove(streams, e)) == SwapRemoved(Stamps(streams), e)
  {
  }

  /** The keys and stamps after a message of a tracked publication. */
  lemma RestampSlot(max: nat, streams: seq<Track>, slot: nat, heard: seq<Key>, track: Track)
    requires slot < |streams| && KeyOf(track.last) == KeyOf(streams[slot].last) && track.lastSeen == |heard| + 1
    requires HoldsKeys(max, Keys(streams), heard) && Stamped(Keys(streams), Stamps(streams), heard)
    ensures var after, streams' := heard + [KeyOf(track.last)], streams[slot := track];
            HoldsKeys(max, Keys(streams'), after) && Stamped(Keys(streams'), Stamps(streams'), after)
  {
    var keys := Keys(streams);
    assert keys[slot] == KeyOf(track.last);
    ReplaceSlot(streams, slot, track);
    HearHeld(max, keys, heard, keys[slot]);
    RestampHeld(keys, Stamps(streams), heard, slot);
  }

  lemma MessagesKept(streams: seq<Track>, heard: seq<Snapshot>, x: Snapshot)
    requires forall i :: 0 <= i < |streams| ==> HoldsMessage(streams[i], heard)
    ensures forall i :: 0 <= i < |streams| ==> HoldsMessage(streams[i], heard + [x])
  {
    forall i | 0 <= i < |streams|
      ensures HoldsMessage(streams[i], heard + [x])
    {
      MessageKept(streams[i], heard, x);
    }
  }

  lemma RefinesReplaced(t: Table, heard: seq<Snapshot>, x: Snapshot, slot: nat, track: Track, t': Table)
    requires Refines(t, heard) && slot < |t.streams| && KeyOf(t.streams[slot].last) == KeyOf(track.last) == KeyOf(x)
    requires track.lastSeen == |heard| + 1 && HoldsMessage(track, heard + [x])
    requires t'.maxStreams == t.maxStreams && t'.clock == |heard| + 1 && t'.streams == t.streams[slot := track]
    ensures Refines(t', heard + [x])
  {
    HeardKeysSnoc(heard, x);
    RestampSlot(t.maxStreams, t.streams, slot, HeardKeys(heard), track);
    MessagesKept(t.streams, heard, x);
  }

  lemma HearTracked(t: Table, heard: seq<Snapshot>, x: Snapshot)
    requires Refines(t, heard) && |heard| + 1 < CLOCK_VALUES && Find(t.streams, KeyOf(x)).Some?
    ensures Refines(Update(t, x), heard + [x])
  {
    var slot := Find(t.streams, KeyOf(x)).value;
    var track := Update(t, x).streams[slot];
    RefinesReplaced(t, heard, x, slot, track, Update(t, x));
  }

  lemma HearNew(t: Table, heard: seq<Snapshot>, x: Snapshot, left: seq<Track>)
    requires t.maxStreams >= 1 && t.clock == |heard| && |heard| + 1 < CLOCK_VALUES
    requires Find(t.streams, KeyOf(x)).None? && left == MakeRoom(t) && KeyOf(x) !in Keys(left)
    requires HoldsKeys(t.maxStreams, Keys(left) + [KeyOf(x)], HeardKeys(heard) + [KeyOf(x)])
    requires Stamped(Keys(left), Stamps(left), HeardKeys(heard))
    requires forall i :: 0 <= i < |left| ==> HoldsMessage(left[i], heard)
    ensures Refines(Update(t, x), heard + [x])
  {
    var track := Track(Judged(None, x), false, |heard| + 1);
    assert Update(t, x).streams == left + [track];
    HeardKeysSnoc(heard, x);
    AddSlot(left, track);
    StampNew(Keys(left), Stamps(left), HeardKeys(heard), KeyOf(x));
    MessagesKept(left, heard, x);
    assert HoldsMessage(track, heard + [x]);
  }

  lemma HearUntracked(t: Table, heard: seq<Snapshot>, x: Snapshot)
    requires Refines(t, heard) && |heard| + 1 < CLOCK_VALUES && Find(t.streams, KeyOf(x)).None?
    ensures Refines(Update(t, x), heard + [x])
  {
    var key, keys, stamps := KeyOf(x), Keys(t.streams), Stamps(t.streams);
    FindMeansKey(t.streams, key);
    var left := MakeRoom(t);
    if |t.streams| < t.maxStreams {
      RecencyList.HearWithRoom(t.maxStreams, keys, HeardKeys(heard), key);
    } else {
      var e := LeastRecent(t.streams);
      LeastStampIsOldest(t.maxStreams, keys, stamps, HeardKeys(heard), e);
      RecencyList.HearFull(t.maxStreams, keys, HeardKeys(heard), key, e);
      RemoveSlot(t.streams, e);
      StampsSwapRemoved(keys, stamps, HeardKeys(heard), e);
    }
    HearNew(t, heard, x, left);
  }

  lemma SweepKeeps(t: Table, heard: seq<Snapshot>, now: nat)
    requires Refines(t, heard)
    ensures Refines(Subscriber.Step(t, Sweep(now)), heard)
  {
    var swept := Subscriber.Step(t, Sweep(now)).streams;
    assert Keys(swept) == Keys(t.streams);
    assert Stamps(swept) == Stamps(t.streams);
    forall i | 0 <= i < |swept|
      ensures HoldsMessage(swept[i], heard)
    {
      assert HoldsMessage(t.streams[i], heard);
    }
  }

  lemma {:induction false} RunSnoc(t: Table, inputs: seq<Input>, input: Input)
    ensures Run(t, inputs + [input]) == Step(Run(t, inputs), input)
    decreases |inputs|
  {
    if |inputs| > 0 {
      assert (inputs + [input])[1..] == inputs[1..] + [input];
      RunSnoc(Step(t, inputs[0]), inputs[1..], input);
    } else {
      assert [input][1..] == [];
    }
  }

  /** After any run of messages and sweeps, through updates, evictions and
      inserts, the table refines the history; the number of messages stays
      below what the recency counter can count. */
  lemma {:induction false} TableRefinesHistory(maxStreams: nat, inputs: seq<Input>)
    requires |Heard(inputs)| < CLOCK_VALUES
    ensures Refines(Run(Fresh(maxStreams), inputs), Heard(inputs))
    decreases |inputs|
  {
    if |inputs| > 0 {
      var front, input := inputs[..|inputs| - 1], inputs[|inputs| - 1];
      assert inputs == front + [input];
      TableRefinesHistory(maxStreams, front);
      RunSnoc(Fresh(maxStreams), front, input);
      StepRefines(Run(Fresh(maxStreams), front), Heard(front), input);
    }
  }

  lemma StepRefines(t: Table, heard: seq<Snapshot>, input: Input)
    requires Refines(t, heard) && (input.Message? ==> |heard| + 1 < CLOCK_VALUES)
    ensures Refines(Step(t, input), heard + if input.Message? then [input.x] else [])
  {
    match input
    case Sweep(now) =>
      SweepKeeps(t, heard, now);
      assert heard + [] == heard;
    case Message(x) =>
      if Find(t.streams, KeyOf(x)).Some? {
        HearTracked(t, heard, x);
      } else {
        HearUntracked(t, heard, x);
      }
  }

  /** What refinement says of a slot: no message of its publication came after
      the one it holds. */
  lemma SlotIsLatest(t: Table, heard: seq<Snapshot>, i: nat, j: nat)
    requires Refines(t, heard) && i < |t.streams| && t.streams[i].lastSeen <= j < |heard|
    ensures KeyOf(heard[j]) != KeyOf(t.streams[i].last)
  {
    LastIndexIsLast(HeardKeys(heard), KeyOf(t.streams[i].last));
    assert Stamps(t.streams)[i] == LastIndex(HeardKeys(heard), Keys(t.streams)[i]);
    assert HeardKeys(heard)[j] == KeyOf(heard[j]);
  }

  /** The next stamp is the newest exactly as long as the counter does not
      overflow. */
  lemma NextStampIsNewest(t: Table)
    requires |t.streams| > 0 && forall i :: 0 <= i < |t.streams| ==> t.streams[i].lastSeen <= t.clock
    ensures (forall i :: 0 <= i < |t.streams| ==> t.streams[i].lastSeen < NextClock(t.clock)) <==> t.clock < U64_MAX
  {
    if t.clock == U64_MAX {
      assert NextClock(t.clock) == 0;
      assert t.streams[0].lastSeen >= 0;
    }
  }
}
