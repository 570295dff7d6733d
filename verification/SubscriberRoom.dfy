/** How many publications a table must have room for: with one more than it has
    slots some publication is disturbed by the others. */
module SubscriberRoom {
  import opened Wrappers
  import opened Sequences
  import opened RecencyList
  import opened Subscriber
  import opened SubscriberHistory
  import opened SubscriberIsolation

  function Messages(xs: seq<Snapshot>): (inputs: seq<Input>)
    ensures |inputs| == |xs| && forall i :: 0 <= i < |xs| ==> inputs[i] == Message(xs[i])
  {
    seq(|xs|, i requires 0 <= i < |xs| => Message(xs[i]))
  }

  lemma MessagesSnoc(xs: seq<Snapshot>)
    requires |xs| > 0
    ensures Messages(xs) == Messages(xs[..|xs| - 1]) + [Message(xs[|xs| - 1])]
    ensures HeardKeys(xs) == HeardKeys(xs[..|xs| - 1]) + [KeyOf(xs[|xs| - 1])]
  {
  }

  /** A new publication in a table with a free slot. */
  lemma AddedKey(t: Table, x: Snapshot)
    requires |t.streams| < t.maxStreams && KeyOf(x) !in Keys(t.streams)
    ensures Update(t, x).maxStreams == t.maxStreams && Keys(Update(t, x).streams) == Keys(t.streams) + [KeyOf(x)]
  {
    FindMeansKey(t.streams, KeyOf(x));
    AddSlot(t.streams, Update(t, x).streams[|t.streams|]);
  }

  /** Messages of distinct publications fill the slots in order. */
  lemma {:induction false} FilledKeys(maxStreams: nat, xs: seq<Snapshot>)
    requires |xs| <= Fresh(maxStreams).maxStreams && Distinct(HeardKeys(xs))
    ensures var t := Run(Fresh(maxStreams), Messages(xs));
            t.maxStreams == Fresh(maxStreams).maxStreams && Keys(t.streams) == HeardKeys(xs)
    decreases |xs|
  {
    if |xs| > 0 {
      var front, x := xs[..|xs| - 1], xs[|xs| - 1];
      MessagesSnoc(xs);
      DistinctFront(HeardKeys(front), KeyOf(x));
      FilledKeys(maxStreams, front);
      RunSnoc(Fresh(maxStreams), Messages(front), Message(x));
      AddedKey(Run(Fresh(maxStreams), Messages(front)), x);
    }
  }

  lemma DistinctFront<K>(front: seq<K>, last: K)
    requires Distinct(front + [last])
    ensures Distinct(front) && last !in front
  {
    var all := front + [last];
    assert forall i :: 0 <= i < |front| ==> all[i] == front[i] && all[|front|] == last;
  }

  /** A new publication in a full table takes the place of the least recent. */
  lemma LeastIsEvicted(t: Table, y: Snapshot)
    requires 0 < |t.streams| == t.maxStreams && Distinct(Keys(t.streams)) && KeyOf(y) !in Keys(t.streams)
    ensures var e := LeastRecent(t.streams);
            && Keys(Update(t, y).streams) == SwapRemoved(Keys(t.streams), e) + [KeyOf(y)]
            && Keys(t.streams)[e] !in Keys(Update(t, y).streams)
  {
    var e := LeastRecent(t.streams);
    FindMeansKey(t.streams, KeyOf(y));
    RemoveSlot(t.streams, e);
    var left := SwapRemove(t.streams, e);
    AddSlot(left, Update(t, y).streams[|left|]);
    SwapRemovedDistinct(Keys(t.streams), e);
  }

  /** Which of the publications that filled a table the next one evicts. */
  lemma OneIsEvicted(maxStreams: nat, xs: seq<Snapshot>) returns (e: nat)
    requires |xs| == Fresh(maxStreams).maxStreams + 1 && Distinct(HeardKeys(xs))
    ensures e < |xs| - 1 && Find(Run(Fresh(maxStreams), Messages(xs)).streams, KeyOf(xs[e])).None?
  {
    var front, y := xs[..|xs| - 1], xs[|xs| - 1];
    MessagesSnoc(xs);
    DistinctFront(HeardKeys(front), KeyOf(y));
    FilledKeys(maxStreams, front);
    RunSnoc(Fresh(maxStreams), Messages(front), Message(y));
    var t := Run(Fresh(maxStreams), Messages(front));
    e := LeastRecent(t.streams);
    LeastIsEvicted(t, y);
    assert HeardKeys(front)[e] == KeyOf(xs[e]);
    FindMeansKey(Update(t, y).streams, KeyOf(xs[e]));
  }

  lemma {:induction false} RunEventsSnoc(t: Table, inputs: seq<Input>, input: Input)
    ensures RunEvents(t, inputs + [input]) == RunEvents(t, inputs) + StepEvents(Run(t, inputs), input)
    decreases |inputs|
  {
    if |inputs| > 0 {
      var t' := Subscriber.Step(t, inputs[0]);
      assert (inputs + [input])[1..] == inputs[1..] + [input];
      RunEventsSnoc(t', inputs[1..], input);
      Associative(StepEvents(t, inputs[0]), RunEvents(t', inputs[1..]), StepEvents(Run(t', inputs[1..]), input));
    } else {
      assert inputs + [input] == [input];
      assert [input][1..] == [];
      assert StepEvents(t, input) + [] == [] + StepEvents(t, input);
    }
  }

  lemma {:induction false} ProjectSnoc(inputs: seq<Input>, input: Input, key: Key)
    ensures Project(inputs + [input], key) == Project(inputs, key) + if Concerns(input, key) then [input] else []
  {
    if |inputs| > 0 {
      assert (inputs + [input])[1..] == inputs[1..] + [input];
      ProjectSnoc(inputs[1..], input, key);
    } else {
      assert [input][1..] == [];
      assert inputs + [input] == [input];
    }
  }

  /** Of distinct publications each has one message. */
  lemma {:induction false} ProjectDistinct(xs: seq<Snapshot>, key: Key)
    requires Distinct(HeardKeys(xs))
    ensures key !in HeardKeys(xs) ==> Project(Messages(xs), key) == []
    ensures forall i :: 0 <= i < |xs| && KeyOf(xs[i]) == key ==> Project(Messages(xs), key) == [Message(xs[i])]
    decreases |xs|
  {
    if |xs| > 0 {
      var front, x := xs[..|xs| - 1], xs[|xs| - 1];
      MessagesSnoc(xs);
      DistinctFront(HeardKeys(front), KeyOf(x));
      ProjectDistinct(front, key);
      ProjectSnoc(Messages(front), Message(x), key);
      forall i | 0 <= i < |xs| && KeyOf(xs[i]) == key
        ensures Project(Messages(xs), key) == [Message(xs[i])]
      {
        if i < |front| {
          assert HeardKeys(front)[i] == key;
        }
      }
    }
  }

  /** A message heard twice by a subscriber of its publication alone. */
  lemma HeardTwice(x: Snapshot)
    requires x.stNum != 0
    ensures var events := WatchRun(None, [Message(x), Message(x)]); |events| == 2 && events[1].Retransmission?
  {
    var m := Message(x);
    var w := WatchStep(None, m);
    assert [m, m][1..] == [m] && [m][1..] == [];
    assert WatchRun(w, [m]) == WatchEvents(w, m) + [];
    assert WatchRun(None, [m, m]) == WatchEvents(None, m) + WatchRun(w, [m]);
  }

  /** The events of a publication that a table has forgotten end with a new
      state when it is heard again. */
  lemma HeardAgain(t: Table, inputs: seq<Input>, x: Snapshot)
    requires Find(Run(t, inputs).streams, KeyOf(x)).None?
    ensures var events := EventsOf(RunEvents(t, inputs + [Message(x)]), KeyOf(x));
            |events| > 0 && events[|events| - 1].NewState?
  {
    var event := EventFor(None, x);
    RunEventsSnoc(t, inputs, Message(x));
    EventsOfConcat(RunEvents(t, inputs), [event], KeyOf(x));
    JudgedKeepsKey(None, x);
    assert EventsOf([event], KeyOf(x)) == [event];
  }

  /** One publication more than there are slots: when each has been heard once,
      one of them reads as a new state when its message is repeated. */
  lemma RoomIsNeeded(maxStreams: nat, xs: seq<Snapshot>) returns (e: nat)
    requires |xs| == Fresh(maxStreams).maxStreams + 1 && Distinct(HeardKeys(xs))
    requires forall i :: 0 <= i < |xs| ==> xs[i].stNum != 0
    ensures e < |xs| - 1 && !Isolated(maxStreams, Messages(xs) + [Message(xs[e])], KeyOf(xs[e]))
  {
    e := OneIsEvicted(maxStreams, xs);
    var x, key := xs[e], KeyOf(xs[e]);
    var inputs := Messages(xs) + [Message(x)];
    HeardAgain(Fresh(maxStreams), Messages(xs), x);
    ProjectDistinct(xs, key);
    ProjectSnoc(Messages(xs), Message(x), key);
    assert Project(inputs, key) == [Message(x), Message(x)];
    ProjectedEvents(maxStreams, inputs, key);
    HeardTwice(x);
  }

  /** In a table of one slot a simulation turns a repetition of the original
      into a new state. */
  lemma SimulationDisturbs(original: Snapshot, simulation: Snapshot)
    requires original.gocbRef == simulation.gocbRef && !IsSimulated(original) && IsSimulated(simulation)
    requires original.stNum != 0 && simulation.stNum != 0
    ensures !Isolated(1, [Message(original), Message(simulation), Message(original)], KeyOf(original))
  {
    var xs := [original, simulation];
    assert HeardKeys(xs)[0] == KeyOf(original) && HeardKeys(xs)[1] == KeyOf(simulation);
    var e := RoomIsNeeded(1, xs);
    assert Messages(xs) + [Message(original)] == [Message(original), Message(simulation), Message(original)];
  }

  // ----- Exactly -----

  /** A message of a publication. */
  function MessageOf(key: Key): (x: Snapshot)
    ensures KeyOf(x) == key && x.stNum != 0
  {
    var mac := [0, 0, 0, 0, 0, 0];
    Snapshot(key.0, [], [], 0, 1, 0, 0, [0, 0, 0, 0, 0, 0, 0, 0], key.1, key.1, false, [], mac, mac, None, 0, true)
  }

  /** Messages of `n` publications of a set. */
  lemma {:induction false} SomeOf(keys: set<Key>, n: nat) returns (xs: seq<Snapshot>)
    requires n <= |keys|
    ensures |xs| == n && Distinct(HeardKeys(xs))
    ensures forall i :: 0 <= i < n ==> KeyOf(xs[i]) in keys && xs[i].stNum != 0
    decreases n
  {
    if n == 0 {
      xs := [];
    } else {
      var key :| key in keys;
      var rest := SomeOf(keys - {key}, n - 1);
      xs := rest + [MessageOf(key)];
      HeardKeysSnoc(rest, MessageOf(key));
      assert forall i :: 0 <= i < |rest| ==> HeardKeys(rest)[i] == KeyOf(rest[i]);
      DistinctSnoc(HeardKeys(rest), key);
    }
  }

  /** Publications never disturb each other, in any run of these, if and only if
      the table has a slot for each. */
  lemma RoomExactly(maxStreams: nat, keys: set<Key>)
    ensures (forall inputs, key :: MessagesWithin(inputs, keys) ==> Isolated(maxStreams, inputs, key))
            <==> |keys| <= Fresh(maxStreams).maxStreams
  {
    if |keys| <= Fresh(maxStreams).maxStreams {
      forall inputs, key | MessagesWithin(inputs, keys)
        ensures Isolated(maxStreams, inputs, key)
      {
        Isolation(maxStreams, inputs, keys, key);
      }
    } else {
      var xs := SomeOf(keys, Fresh(maxStreams).maxStreams + 1);
      var e := RoomIsNeeded(maxStreams, xs);
      assert MessagesWithin(Messages(xs) + [Message(xs[e])], keys);
    }
  }
}
