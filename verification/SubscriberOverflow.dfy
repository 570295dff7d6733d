/** What the bounded table holds once its recency counter has overflowed. */
module SubscriberOverflow {
  import opened Sequences
  import opened RecencyList
  import opened Subscriber
  import opened SubscriberHistory
  import opened SubscriberIsolation
  import opened SubscriberRoom

  /** The only slot stamped 0. */
  predicate OnlyZero(streams: seq<Track>, e: nat) {
    && e < |streams| && streams[e].lastSeen == 0
    && forall i :: 0 <= i < |streams| && i != e ==> streams[i].lastSeen > 0
  }

  predicate AllStamped(streams: seq<Track>) {
    forall i :: 0 <= i < |streams| ==> streams[i].lastSeen > 0
  }

  lemma SwapRemovedStamped(streams: seq<Track>, e: nat)
    requires e < |streams| && AllStamped(streams)
    ensures AllStamped(SwapRemove(streams, e))
  {
  }

  /** The message at which the counter overflows gets the stamp 0, alone. */
  lemma OverflowSlot(t: Table, x: Snapshot) returns (e: nat)
    requires AllStamped(t.streams) && t.clock == U64_MAX
    ensures OnlyZero(Update(t, x).streams, e) && KeyOf(Update(t, x).streams[e].last) == KeyOf(x)
    ensures Update(t, x).maxStreams == t.maxStreams
  {
    var slot := Find(t.streams, KeyOf(x));
    assert NextClock(t.clock) == 0;
    if slot.Some? {
      e := slot.value;
    } else {
      if |t.streams| >= t.maxStreams && |t.streams| > 0 {
        SwapRemovedStamped(t.streams, LeastRecent(t.streams));
      }
      e := |MakeRoom(t)|;
    }
  }

  lemma ZeroIsLeast(streams: seq<Track>, e: nat)
    requires OnlyZero(streams, e)
    ensures LeastRecent(streams) == e
  {
    assert streams[LeastRecent(streams)].lastSeen <= streams[e].lastSeen;
  }

  /** A new publication takes the slot stamped 0 of a full table. */
  lemma ZeroIsEvicted(t: Table, e: nat, y: Snapshot)
    requires Distinct(Keys(t.streams)) && OnlyZero(t.streams, e) && |t.streams| == t.maxStreams
    requires Find(t.streams, KeyOf(y)).None?
    ensures Keys(Update(t, y).streams) == SwapRemoved(Keys(t.streams), e) + [KeyOf(y)]
    ensures KeyOf(t.streams[e].last) !in Keys(Update(t, y).streams)
  {
    ZeroIsLeast(t.streams, e);
    FindMeansKey(t.streams, KeyOf(y));
    LeastIsEvicted(t, y);
    assert Keys(t.streams)[e] == KeyOf(t.streams[e].last);
  }

  lemma DistinctAfter(t: Table, x: Snapshot)
    requires Distinct(Keys(t.streams))
    ensures Distinct(Keys(Update(t, x).streams))
  {
    StepDistinct(t, Message(x));
  }

  /** In every table a run can reach when the counter stands at its maximum: the
      publication heard at the overflow is the one evicted next. */
  lemma OverflowEvictsNewest(t: Table, heard: seq<Snapshot>, x: Snapshot, y: Snapshot)
    requires Refines(t, heard) && |heard| == U64_MAX
    requires |Update(t, x).streams| == t.maxStreams && Find(Update(t, x).streams, KeyOf(y)).None?
    ensures Find(Update(Update(t, x), y).streams, KeyOf(x)).None?
    ensures |Update(Update(t, x), y).streams| == t.maxStreams
  {
    var t1 := Update(t, x);
    assert AllStamped(t.streams) by {
      assert forall i :: 0 <= i < |t.streams| ==> HoldsMessage(t.streams[i], heard);
    }
    var e := OverflowSlot(t, x);
    DistinctAfter(t, x);
    ZeroIsEvicted(t1, e, y);
    FindMeansKey(Update(t1, y).streams, KeyOf(x));
    assert |Keys(Update(t1, y).streams)| == |t1.streams|;
  }

  /** The two keys heard last lead the recency list. */
  lemma LastTwoHeard<K>(heard: seq<K>, x: K, y: K)
    requires x != y
    ensures var keys := Recency(heard + [x] + [y]); |keys| >= 2 && keys[0] == y && keys[1] == x
  {
    RecencySnoc(heard, x);
    RecencySnoc(heard + [x], y);
  }

  /** With a second slot the table that forgot the last key but one is wrong. */
  lemma ForgetsRecent<K>(max: nat, slots: seq<K>, heard: seq<K>, x: K, y: K)
    requires max >= 2 && x != y && x !in slots
    ensures !HoldsKeys(max, slots, heard + [x] + [y])
  {
    LastTwoHeard(heard, x, y);
    var keys, held := Recency(heard + [x] + [y]), Held(max, heard + [x] + [y]);
    assert keys[..held][1] == x;
    assert x in multiset(keys[..held]);
    assert x !in multiset(slots);
  }

  /** One slot that holds the last key is right. */
  lemma HoldsLast<K>(heard: seq<K>, key: K)
    ensures HoldsKeys(1, [key], heard + [key])
  {
    RecencySnoc(heard, key);
    assert Recency(heard + [key])[..1] == [key];
  }

  /** A table of one publication that already holds one holds the last heard. */
  lemma SingleUpdate(t: Table, x: Snapshot)
    requires t.maxStreams == 1 && |t.streams| <= 1
    ensures Update(t, x).maxStreams == 1 && Keys(Update(t, x).streams) == [KeyOf(x)]
  {
    var streams := Update(t, x).streams;
    assert |streams| == 1 && KeyOf(streams[0].last) == KeyOf(x);
    assert Keys(streams)[0] == KeyOf(x);
  }

  /** A table of one publication holds the one heard last after any number of
      messages, overflows of the counter included. */
  lemma {:induction false} SingleSlotHolds(maxStreams: nat, inputs: seq<Input>)
    requires Fresh(maxStreams).maxStreams == 1
    ensures var t := Run(Fresh(maxStreams), inputs);
            t.maxStreams == 1 && HoldsKeys(1, Keys(t.streams), HeardKeys(Heard(inputs)))
    decreases |inputs|
  {
    if |inputs| > 0 {
      var front, input := inputs[..|inputs| - 1], inputs[|inputs| - 1];
      assert inputs == front + [input];
      SingleSlotHolds(maxStreams, front);
      RunSnoc(Fresh(maxStreams), front, input);
      SingleStep(Run(Fresh(maxStreams), front), Heard(front), input);
    }
  }

  lemma SingleStep(t: Table, heard: seq<Snapshot>, input: Input)
    requires t.maxStreams == 1 && HoldsKeys(1, Keys(t.streams), HeardKeys(heard))
    ensures var t' := Subscriber.Step(t, input);
            && t'.maxStreams == 1
            && HoldsKeys(1, Keys(t'.streams), HeardKeys(heard + if input.Message? then [input.x] else []))
  {
    match input
    case Sweep(now) =>
      SweptKeys(t.streams, now);
      assert heard + [] == heard;
    case Message(x) =>
      HeardKeysSnoc(heard, x);
      SingleUpdate(t, x);
      HoldsLast(HeardKeys(heard), KeyOf(x));
  }

  /** The bound of the refinement is exact. A run that has filled the counter
      hears `x`, and then `y` while every slot is taken by others: the keys held
      are still the most recently heard ones if and only if there is only one
      slot. */
  lemma OverflowExactly(maxStreams: nat, inputs: seq<Input>, x: Snapshot, y: Snapshot)
    requires |Heard(inputs)| == U64_MAX
    requires var t1 := Update(Run(Fresh(maxStreams), inputs), x);
             |t1.streams| == t1.maxStreams && Find(t1.streams, KeyOf(y)).None?
    ensures var after := inputs + [Message(x)] + [Message(y)];
            var t := Run(Fresh(maxStreams), after);
            HoldsKeys(t.maxStreams, Keys(t.streams), HeardKeys(Heard(after))) <==> Fresh(maxStreams).maxStreams == 1
  {
    var after := inputs + [Message(x)] + [Message(y)];
    var t := Run(Fresh(maxStreams), inputs);
    TableRefinesHistory(maxStreams, inputs);
    RunSnoc(Fresh(maxStreams), inputs, Message(x));
    RunSnoc(Fresh(maxStreams), inputs + [Message(x)], Message(y));
    MaxKept(maxStreams, inputs);
    if t.maxStreams == 1 {
      SingleSlotHolds(maxStreams, after);
    } else {
      OverflowForgets(t, Heard(inputs), x, y);
      HeardSnoc(inputs, x);
      HeardSnoc(inputs + [Message(x)], y);
    }
  }

  lemma OverflowForgets(t: Table, heard: seq<Snapshot>, x: Snapshot, y: Snapshot)
    requires Refines(t, heard) && |heard| == U64_MAX && t.maxStreams >= 2
    requires |Update(t, x).streams| == t.maxStreams && Find(Update(t, x).streams, KeyOf(y)).None?
    ensures !HoldsKeys(t.maxStreams, Keys(Update(Update(t, x), y).streams), HeardKeys(heard + [x] + [y]))
  {
    var streams := Update(Update(t, x), y).streams;
    OverflowEvictsNewest(t, heard, x, y);
    FindMeansKey(streams, KeyOf(x));
    HeardKeysSnoc(heard, x);
    HeardKeysSnoc(heard + [x], y);
    TrackedAfter(t, x);
    ForgetsRecent(t.maxStreams, Keys(streams), HeardKeys(heard), KeyOf(x), KeyOf(y));
  }

  lemma TrackedAfter(t: Table, x: Snapshot)
    ensures Find(Update(t, x).streams, KeyOf(x)).Some?
  {
    var streams := Update(t, x).streams;
    var slot := Find(t.streams, KeyOf(x));
    var e := if slot.Some? then slot.value else |MakeRoom(t)|;
    assert KeyOf(streams[e].last) == KeyOf(x);
  }

  lemma {:induction false} MaxKept(maxStreams: nat, inputs: seq<Input>)
    ensures Run(Fresh(maxStreams), inputs).maxStreams == Fresh(maxStreams).maxStreams
    decreases |inputs|
  {
    if |inputs| > 0 {
      var front, input := inputs[..|inputs| - 1], inputs[|inputs| - 1];
      assert inputs == front + [input];
      MaxKept(maxStreams, front);
      RunSnoc(Fresh(maxStreams), front, input);
    }
  }

  // ----- A run that fails -----

  /** A message of each publication, and `n` more of the first. */
  function Echo(xs: seq<Snapshot>, n: nat): seq<Input>
    requires |xs| > 0
  {
    if n == 0 then Messages(xs) else Echo(xs, n - 1) + [Message(xs[0])]
  }

  lemma {:induction false} HeardMessages(xs: seq<Snapshot>)
    ensures Heard(Messages(xs)) == xs
  {
    if |xs| > 0 {
      var front := xs[..|xs| - 1];
      MessagesSnoc(xs);
      assert Messages(xs)[..|front|] == Messages(front);
      HeardMessages(front);
    }
  }

  /** A message of a tracked publication keeps the slots. */
  lemma TrackedKeys(t: Table, x: Snapshot)
    requires KeyOf(x) in Keys(t.streams)
    ensures Update(t, x).maxStreams == t.maxStreams && Keys(Update(t, x).streams) == Keys(t.streams)
  {
    FindMeansKey(t.streams, KeyOf(x));
    var slot := Find(t.streams, KeyOf(x)).value;
    ReplaceSlot(t.streams, slot, Update(t, x).streams[slot]);
  }

  lemma HeardSnoc(inputs: seq<Input>, x: Snapshot)
    ensures Heard(inputs + [Message(x)]) == Heard(inputs) + [x]
  {
    assert (inputs + [Message(x)])[..|inputs|] == inputs;
  }

  lemma {:induction false} EchoHeard(xs: seq<Snapshot>, n: nat)
    requires |xs| > 0
    ensures |Heard(Echo(xs, n))| == |xs| + n
  {
    if n == 0 {
      HeardMessages(xs);
    } else {
      EchoHeard(xs, n - 1);
      HeardSnoc(Echo(xs, n - 1), xs[0]);
    }
  }

  /** The slots of a table of this size hold these publications, in order. */
  predicate HoldsInOrder(maxStreams: nat, inputs: seq<Input>, keys: seq<Key>) {
    var t := Run(Fresh(maxStreams), inputs);
    t.maxStreams == Fresh(maxStreams).maxStreams && Keys(t.streams) == keys
  }

  lemma HeardOnceMore(maxStreams: nat, inputs: seq<Input>, keys: seq<Key>, x: Snapshot)
    requires HoldsInOrder(maxStreams, inputs, keys) && KeyOf(x) in keys
    ensures HoldsInOrder(maxStreams, inputs + [Message(x)], keys)
  {
    RunSnoc(Fresh(maxStreams), inputs, Message(x));
    TrackedKeys(Run(Fresh(maxStreams), inputs), x);
  }

  lemma {:induction false} EchoKeeps(maxStreams: nat, xs: seq<Snapshot>, n: nat)
    requires 0 < |xs| <= Fresh(maxStreams).maxStreams && Distinct(HeardKeys(xs))
    ensures HoldsInOrder(maxStreams, Echo(xs, n), HeardKeys(xs))
    decreases n
  {
    if n == 0 {
      FilledKeys(maxStreams, xs);
    } else {
      EchoKeeps(maxStreams, xs, n - 1);
      assert HeardKeys(xs)[0] == KeyOf(xs[0]);
      HeardOnceMore(maxStreams, Echo(xs, n - 1), HeardKeys(xs), xs[0]);
    }
  }

  /** The run hears `a` and then `c`, and the table is wrong after it. */
  predicate ForgetsLast(maxStreams: nat, inputs: seq<Input>, a: Snapshot, c: Snapshot) {
    var after := inputs + [Message(a)] + [Message(c)];
    !HoldsKeys(maxStreams, Keys(Run(Fresh(maxStreams), after).streams), HeardKeys(Heard(after)))
  }

  /** The failure is real in every table of two slots or more that can be filled
      before the counter overflows: a run from the start in which one
      publication more makes the table forget the one heard just before it. */
  lemma OverflowHappens(maxStreams: nat, xs: seq<Snapshot>)
    requires 2 <= maxStreams <= U64_MAX && |xs| == maxStreams + 1 && Distinct(HeardKeys(xs))
    ensures exists inputs :: ForgetsLast(maxStreams, inputs, xs[0], xs[maxStreams])
  {
    var front, x, y := xs[..maxStreams], xs[0], xs[maxStreams];
    var filled := Echo(front, U64_MAX - maxStreams);
    MessagesSnoc(xs);
    DistinctFront(HeardKeys(front), KeyOf(y));
    EchoHeard(front, U64_MAX - maxStreams);
    EchoKeeps(maxStreams, front, U64_MAX - maxStreams);
    var t := Run(Fresh(maxStreams), filled);
    assert HeardKeys(front)[0] == KeyOf(x);
    TrackedKeys(t, x);
    assert |Keys(Update(t, x).streams)| == maxStreams;
    FindMeansKey(Update(t, x).streams, KeyOf(y));
    OverflowExactly(maxStreams, filled, x, y);
    MaxKept(maxStreams, filled + [Message(x)] + [Message(y)]);
    assert ForgetsLast(maxStreams, filled, x, y);
  }
}
