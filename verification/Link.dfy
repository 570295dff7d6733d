/** Publisher and subscriber joined by the wire: sequence numbers and
    supervision across every publish, encode, decode and dispatch. */
module Link {
  import opened Wrappers
  import opened Bytes
  import opened MmsData
  import opened GooseFrame
  import P = Publisher
  import opened Subscriber
  import opened SubscriberIsolation
  import opened GooseMessage
  import opened Receiver

  /** What a subscriber is handed of a publication that arrives at `at`: the
      frame the publisher built, with the padding of the medium, decoded. */
  function Arrival(s: P.State, data: seq<MmsValue>, padding: seq<Byte>, at: nat): Option<Snapshot> {
    var frame := P.PublishedFrame(s, data);
    if frame.Err? then None
    else
      var got := Decoded(frame.value + padding);
      if got.None? then None else Some(SnapshotOf(got.value.0, got.value.1, at))
  }

  /** The message carries everything a publisher in state `s` publishes: its
      references, numbers, flags, time stamp and values, from its addresses and
      with the twelve bits of its VLAN ID. */
  predicate Carries(x: Snapshot, s: P.State, data: seq<MmsValue>, at: nat) {
    && x.gocbRef == s.gocbRef && x.datSet == s.dataSetRef
    && x.goId == (if s.goId.Some? then s.goId.value else s.gocbRef)
    && x.stNum == s.stNum && x.sqNum == s.sqNum && x.confRev == s.confRev && x.timestamp == s.timestamp
    && x.simulation == s.simulation && x.frameSimulation == s.simulation && x.ndsCom == s.needsCommission
    && x.ttlMs == P.TimeAllowedToLive(s) && x.values == data
    && x.dstMac == s.comm.dstMac && (s.comm.srcMac.Some? ==> x.srcMac == s.comm.srcMac.value)
    && x.vlan == CarriedVlan(s.comm.vlan)
    && x.receivedAt == at && x.stateValid
  }

  /** A publication that is built and deliverable arrives with the publisher's
      own numbers, flags and values. */
  lemma ArrivalCarries(s: P.State, data: seq<MmsValue>, padding: seq<Byte>, at: nat)
    requires s.stNum != 0 && P.PublishedFrame(s, data).Ok? && P.Deliverable(s, data)
    ensures Arrival(s, data, padding, at).Some?
    ensures Carries(Arrival(s, data, padding, at).value, s, data, at)
  {
    P.PublicationDelivered(s, data, padding);
  }

  /** Something happens at an instant: an operation of the publisher, whose
      publication arrives at once, or a sweep of the subscriber. */
  datatype Occurrence =
    | Do(op: P.Op, padding: seq<Byte>, at: nat)
    | SweepNow(at: nat)

  /** The publisher, what the subscriber knows of its publication, and the
      instant by which the next publication is due. */
  datatype Link = Link(pub: P.State, watch: Option<Watch>, due: Option<nat>)

  /** A publication that succeeds. */
  predicate Publishes(pub: P.State, o: Occurrence) {
    o.Do? && o.op.PublishAt? && P.PublishedFrame(pub, o.op.data).Ok?
  }

  /** What the subscriber takes in. */
  function Taken(pub: P.State, o: Occurrence): Option<Input> {
    if o.SweepNow? then Some(Sweep(o.at))
    else if o.op.PublishAt? then
      var x := Arrival(pub, o.op.data, o.padding, o.at);
      if x.Some? then Some(Message(x.value)) else None
    else None
  }

  function Watched(w: Option<Watch>, input: Option<Input>): Option<Watch> {
    if input.Some? then WatchStep(w, input.value) else w
  }

  function Raised(w: Option<Watch>, input: Option<Input>): seq<Event> {
    if input.Some? then WatchEvents(w, input.value) else []
  }

  /** Only a publication moves the instant; a data change leaves the old one
      standing. */
  function DueAfter(l: Link, o: Occurrence): Option<nat> {
    if Publishes(l.pub, o) then P.Step(l.pub, o.op).nextPublishAt else l.due
  }

  function PubAfter(pub: P.State, o: Occurrence): P.State {
    if o.Do? then P.Step(pub, o.op) else pub
  }

  function Happen(l: Link, o: Occurrence): Link {
    Link(PubAfter(l.pub, o), Watched(l.watch, Taken(l.pub, o)), DueAfter(l, o))
  }

  /** The events of a run. */
  function Events(l: Link, run: seq<Occurrence>): seq<Event>
    decreases |run|
  {
    if |run| == 0 then []
    else Raised(l.watch, Taken(l.pub, run[0])) + Events(Happen(l, run[0]), run[1..])
  }

  /** Everything the subscriber takes in during a run. */
  function Inputs(pub: P.State, run: seq<Occurrence>): seq<Input>
    decreases |run|
  {
    if |run| == 0 then []
    else
      var input := Taken(pub, run[0]);
      (if input.Some? then [input.value] else []) + Inputs(PubAfter(pub, run[0]), run[1..])
  }

  /** The link is the subscriber's view of the run's inputs. */
  lemma {:induction false} EventsAreWatched(l: Link, run: seq<Occurrence>)
    ensures Events(l, run) == WatchRun(l.watch, Inputs(l.pub, run))
    decreases |run|
  {
    if |run| > 0 {
      var l' := Happen(l, run[0]);
      EventsAreWatched(l', run[1..]);
      assert PubAfter(l.pub, run[0]) == l'.pub;
      TakenFirst(l.watch, Taken(l.pub, run[0]), Inputs(l'.pub, run[1..]));
    }
  }

  lemma TakenFirst(w: Option<Watch>, input: Option<Input>, rest: seq<Input>)
    ensures WatchRun(w, (if input.Some? then [input.value] else []) + rest)
            == Raised(w, input) + WatchRun(Watched(w, input), rest)
  {
    if input.Some? {
      assert ([input.value] + rest)[1..] == rest;
    } else {
      assert [] + rest == rest;
    }
  }

  /** What is built can be decoded, a publication carries the instant it is
      made, and the simulation flag stays, so that the run is of one
      publication. A publication may fail to be built. */
  predicate Sound(pub: P.State, o: Occurrence) {
    o.Do? ==>
      && !o.op.SetSimulation?
      && (o.op.PublishAt? ==> o.op.now == o.at)
      && (Publishes(pub, o) ==> P.Deliverable(pub, o.op.data))
  }

  /** A publication that fails changes nothing and brings nothing. */
  lemma FailedPublication(pub: P.State, o: Occurrence)
    requires o.Do? && o.op.PublishAt? && !Publishes(pub, o)
    ensures PubAfter(pub, o) == pub && Taken(pub, o) == None
  {
    assert P.Publish(pub, o.op.data, o.op.now).1 == pub;
  }

  /** A sound publication is taken in, and numbered as the publisher stood. */
  lemma TakenMessage(pub: P.State, o: Occurrence)
    requires pub.stNum != 0 && Sound(pub, o) && Publishes(pub, o)
    ensures Taken(pub, o).Some? && Taken(pub, o).value.Message?
    ensures Carries(Taken(pub, o).value.x, pub, o.op.data, o.at)
  {
    var data := o.op.data;
    ArrivalCarries(pub, data, o.padding, o.at);
    assert Taken(pub, o) == Some(Message(Arrival(pub, data, o.padding, o.at).value));
  }

  lemma PublishSteps(pub: P.State, data: seq<MmsValue>, now: nat)
    requires P.PublishedFrame(pub, data).Ok?
    ensures P.Step(pub, P.PublishAt(data, now)) == P.AfterPublish(pub, now)
  {
    assert P.Publish(pub, data, now).1 == P.AfterPublish(pub, now);
  }

  /** Only publications, increases and resets touch the numbers. */
  lemma NumbersKept(pub: P.State, op: P.Op)
    requires !op.PublishAt? && !op.Reset?
    ensures var s := P.Step(pub, op);
            if op.IncreaseStNum? then s.stNum == P.NextCounter(pub.stNum) && s.sqNum == 0
            else s.stNum == pub.stNum && s.sqNum == pub.sqNum
  {
  }

  // ----- Sequence numbers -----

  /** These numbers follow on from the last message heard, with `changed`
      telling whether the state changed since. */
  predicate Follows(w: Option<Watch>, stNum: U32, sqNum: U32, changed: bool) {
    && stNum != 0
    && match w
       case None => sqNum == 0
       case Some(heard) =>
         && heard.last.stNum != 0
         && if changed then stNum == P.NextCounter(heard.last.stNum) && sqNum == 0
            else stNum == heard.last.stNum && sqNum == P.NextCounter(heard.last.sqNum)
  }

  /** Valid, and new exactly when its sqNum is 0. */
  predicate WellSequenced(e: Event) {
    !e.Expired? ==> e.state.stateValid && (e.NewState? <==> e.state.sqNum == 0)
  }

  lemma MessageFollows(w: Option<Watch>, x: Snapshot, changed: bool)
    requires Follows(w, x.stNum, x.sqNum, changed) && x.stateValid
    ensures Follows(WatchStep(w, Message(x)), x.stNum, P.NextCounter(x.sqNum), false)
    ensures WellSequenced(EventFor(LastOf(w), x))
  {
  }

  lemma SweepFollows(w: Option<Watch>, now: nat, stNum: U32, sqNum: U32, changed: bool)
    requires Follows(w, stNum, sqNum, changed)
    ensures Follows(WatchStep(w, Sweep(now)), stNum, sqNum, changed)
  {
  }

  function ChangedAfter(pub: P.State, o: Occurrence, changed: bool): bool {
    if Publishes(pub, o) then false
    else if o.Do? && o.op.IncreaseStNum? then true
    else changed
  }

  /** A run without reset in which every state is published before the next. */
  predicate EveryStatePublished(pub: P.State, run: seq<Occurrence>, changed: bool)
    decreases |run|
  {
    |run| == 0
    || (var o := run[0];
        && Sound(pub, o)
        && (o.Do? ==> !o.op.Reset? && (o.op.IncreaseStNum? ==> !changed))
        && EveryStatePublished(PubAfter(pub, o), run[1..], ChangedAfter(pub, o, changed)))
  }

  lemma StepFollows(l: Link, o: Occurrence, changed: bool)
    requires Follows(l.watch, l.pub.stNum, l.pub.sqNum, changed) && Sound(l.pub, o)
    requires o.Do? ==> !o.op.Reset? && (o.op.IncreaseStNum? ==> !changed)
    ensures var l' := Happen(l, o); Follows(l'.watch, l'.pub.stNum, l'.pub.sqNum, ChangedAfter(l.pub, o, changed))
    ensures forall e :: e in Raised(l.watch, Taken(l.pub, o)) ==> WellSequenced(e)
  {
    if Publishes(l.pub, o) {
      TakenMessage(l.pub, o);
      MessageFollows(l.watch, Taken(l.pub, o).value.x, changed);
      PublishSteps(l.pub, o.op.data, o.at);
    } else if o.Do? && o.op.PublishAt? {
      FailedPublication(l.pub, o);
    } else if o.SweepNow? {
      SweepFollows(l.watch, o.at, l.pub.stNum, l.pub.sqNum, changed);
    } else {
      NumbersKept(l.pub, o.op);
    }
  }

  /** Every message of a run is valid, at both counter wraps too, and NewState is
      raised exactly for sqNum 0. */
  lemma {:induction false} EventsWellSequenced(l: Link, run: seq<Occurrence>, changed: bool)
    requires Follows(l.watch, l.pub.stNum, l.pub.sqNum, changed)
    requires EveryStatePublished(l.pub, run, changed)
    ensures forall e :: e in Events(l, run) ==> WellSequenced(e)
    decreases |run|
  {
    if |run| > 0 {
      StepFollows(l, run[0], changed);
      EventsWellSequenced(Happen(l, run[0]), run[1..], ChangedAfter(l.pub, run[0], changed));
    }
  }

  predicate AllSound(pub: P.State, run: seq<Occurrence>)
    decreases |run|
  {
    |run| == 0 || (Sound(pub, run[0]) && AllSound(PubAfter(pub, run[0]), run[1..]))
  }

  lemma {:induction false} PublishedIsSound(pub: P.State, run: seq<Occurrence>, changed: bool)
    requires EveryStatePublished(pub, run, changed)
    ensures AllSound(pub, run)
    decreases |run|
  {
    if |run| > 0 {
      PublishedIsSound(PubAfter(pub, run[0]), run[1..], ChangedAfter(pub, run[0], changed));
    }
  }

  function StreamOf(pub: P.State): Key {
    (pub.gocbRef, pub.simulation)
  }

  lemma TakenConcerns(pub: P.State, o: Occurrence)
    requires pub.stNum != 0 && Sound(pub, o)
    ensures Taken(pub, o).Some? ==> Concerns(Taken(pub, o).value, StreamOf(pub))
  {
    if Publishes(pub, o) {
      TakenMessage(pub, o);
    }
  }

  /** Everything a sound run brings concerns the one publication. */
  lemma {:induction false} InputsConcern(pub: P.State, run: seq<Occurrence>)
    requires pub.stNum != 0 && AllSound(pub, run)
    ensures Project(Inputs(pub, run), StreamOf(pub)) == Inputs(pub, run)
    ensures MessagesWithin(Inputs(pub, run), {StreamOf(pub)})
    decreases |run|
  {
    if |run| > 0 {
      var o := run[0];
      SameStream(pub, o);
      TakenConcerns(pub, o);
      InputsConcern(PubAfter(pub, o), run[1..]);
      ProjectFirst(Taken(pub, o), Inputs(PubAfter(pub, o), run[1..]), StreamOf(pub));
    }
  }

  lemma SameStream(pub: P.State, o: Occurrence)
    requires pub.stNum != 0 && Sound(pub, o)
    ensures var pub' := PubAfter(pub, o);
            pub'.stNum != 0 && StreamOf(pub') == StreamOf(pub) && pub'.comm == pub.comm
  {
    if Publishes(pub, o) {
      PublishSteps(pub, o.op.data, o.at);
    } else if o.Do? && o.op.PublishAt? {
      FailedPublication(pub, o);
    } else if o.Do? {
      OperationKeepsStream(pub, o.op);
    }
  }

  lemma OperationKeepsStream(pub: P.State, op: P.Op)
    requires pub.stNum != 0 && !op.PublishAt? && !op.SetSimulation?
    ensures var pub' := P.Step(pub, op);
            && pub'.stNum != 0 && pub'.gocbRef == pub.gocbRef && pub'.simulation == pub.simulation
            && pub'.comm == pub.comm
  {
  }

  lemma ProjectFirst(input: Option<Input>, rest: seq<Input>, key: Key)
    requires input.Some? ==> Concerns(input.value, key)
    requires Project(rest, key) == rest && MessagesWithin(rest, {key})
    ensures var all := (if input.Some? then [input.value] else []) + rest;
            Project(all, key) == all && MessagesWithin(all, {key})
  {
    if input.Some? {
      assert ([input.value] + rest)[1..] == rest;
    } else {
      assert [] + rest == rest;
    }
  }

  /** Sequencing across the link. A publisher that starts with sqNum 0 and
      publishes every state is heard by a table that never evicts it: whatever
      other publications send, each of its messages is valid and NewState is
      raised exactly for sqNum 0. */
  lemma Sequencing(pub: P.State, run: seq<Occurrence>, maxStreams: nat, inputs: seq<Input>)
    requires pub.stNum != 0 && pub.sqNum == 0 && EveryStatePublished(pub, run, false)
    requires Project(inputs, StreamOf(pub)) == Inputs(pub, run)
    requires NeverEvicted(Fresh(maxStreams), inputs, StreamOf(pub))
    ensures forall e :: e in EventsOf(RunEvents(Fresh(maxStreams), inputs), StreamOf(pub)) ==>
              WellSequenced(e)
  {
    var l := Link(pub, None, None);
    EventsWellSequenced(l, run, false);
    EventsAreWatched(l, run);
    KeptRun(Fresh(maxStreams), inputs, StreamOf(pub));
  }

  /** A publisher heard alone is never evicted, from a table of any size. */
  lemma HeardAlone(pub: P.State, run: seq<Occurrence>, maxStreams: nat)
    requires pub.stNum != 0 && AllSound(pub, run)
    ensures Project(Inputs(pub, run), StreamOf(pub)) == Inputs(pub, run)
    ensures NeverEvicted(Fresh(maxStreams), Inputs(pub, run), StreamOf(pub))
  {
    InputsConcern(pub, run);
    RoomyRun(Fresh(maxStreams), Inputs(pub, run), {StreamOf(pub)}, StreamOf(pub));
  }

  /** A publisher heard alone, in a table of any size. */
  lemma LoneSequencing(pub: P.State, run: seq<Occurrence>, maxStreams: nat)
    requires pub.stNum != 0 && pub.sqNum == 0 && EveryStatePublished(pub, run, false)
    ensures forall e :: e in EventsOf(RunEvents(Fresh(maxStreams), Inputs(pub, run)), StreamOf(pub)) ==>
              WellSequenced(e)
  {
    PublishedIsSound(pub, run, false);
    HeardAlone(pub, run, maxStreams);
    Sequencing(pub, run, maxStreams, Inputs(pub, run));
  }

  // ----- Every publication is heard -----

  /** A successful publication: the publisher's state, the values and the
      instant. */
  datatype Publication = Publication(pub: P.State, data: seq<MmsValue>, at: nat)

  function Publications(pub: P.State, run: seq<Occurrence>): seq<Publication>
    decreases |run|
  {
    if |run| == 0 then []
    else
      (if Publishes(pub, run[0]) then [Publication(pub, run[0].op.data, run[0].at)] else [])
      + Publications(PubAfter(pub, run[0]), run[1..])
  }

  /** The events that deliver a message. */
  function Deliveries(events: seq<Event>): seq<Event> {
    if |events| == 0 then []
    else (if events[0].Expired? then [] else [events[0]]) + Deliveries(events[1..])
  }

  /** The event delivers the publication, whatever the verdict. */
  predicate Delivers(e: Event, p: Publication) {
    !e.Expired? && Carries(e.state.(stateValid := true), p.pub, p.data, p.at)
  }

  /** The events deliver the publications, each once and in order. */
  predicate DeliversAll(events: seq<Event>, pubs: seq<Publication>) {
    var deliveries := Deliveries(events);
    |deliveries| == |pubs| && forall k :: 0 <= k < |pubs| ==> Delivers(deliveries[k], pubs[k])
  }

  lemma {:induction false} DeliveriesConcat(a: seq<Event>, b: seq<Event>)
    ensures Deliveries(a + b) == Deliveries(a) + Deliveries(b)
  {
    if |a| == 0 {
      assert a + b == b;
    } else {
      assert (a + b)[1..] == a[1..] + b;
      DeliveriesConcat(a[1..], b);
    }
  }

  lemma DeliversConcat(a: seq<Event>, b: seq<Event>, p: seq<Publication>, q: seq<Publication>)
    requires DeliversAll(a, p) && DeliversAll(b, q)
    ensures DeliversAll(a + b, p + q)
  {
    DeliveriesConcat(a, b);
  }

  lemma MessageDelivers(last: Option<Snapshot>, x: Snapshot, p: Publication)
    requires Carries(x, p.pub, p.data, p.at)
    ensures DeliversAll([EventFor(last, x)], [p])
  {
    var e := EventFor(last, x);
    assert Deliveries([e]) == [e];
  }

  lemma SweepDelivers(w: Option<Watch>, now: nat)
    ensures DeliversAll(WatchEvents(w, Sweep(now)), [])
  {
    if w.Some? {
      assert Deliveries([Expired(w.value.last)]) == [];
    }
  }

  lemma StepDelivers(l: Link, o: Occurrence)
    requires l.pub.stNum != 0 && Sound(l.pub, o)
    ensures DeliversAll(Raised(l.watch, Taken(l.pub, o)),
                        if Publishes(l.pub, o) then [Publication(l.pub, o.op.data, o.at)] else [])
  {
    if Publishes(l.pub, o) {
      TakenMessage(l.pub, o);
      MessageDelivers(LastOf(l.watch), Taken(l.pub, o).value.x, Publication(l.pub, o.op.data, o.at));
    } else if o.SweepNow? {
      SweepDelivers(l.watch, o.at);
    } else if o.op.PublishAt? {
      FailedPublication(l.pub, o);
    }
  }

  /** Every publication of a sound run, and nothing else, is delivered, in
      order. */
  lemma {:induction false} EveryPublicationHeard(l: Link, run: seq<Occurrence>)
    requires l.pub.stNum != 0 && AllSound(l.pub, run)
    ensures DeliversAll(Events(l, run), Publications(l.pub, run))
    decreases |run|
  {
    if |run| > 0 {
      var o, l' := run[0], Happen(l, run[0]);
      SameStream(l.pub, o);
      StepDelivers(l, o);
      EveryPublicationHeard(l', run[1..]);
      DeliversConcat(Raised(l.watch, Taken(l.pub, o)), Events(l', run[1..]),
                     if Publishes(l.pub, o) then [Publication(l.pub, o.op.data, o.at)] else [],
                     Publications(l'.pub, run[1..]));
    }
  }

  /** The same as a table hears it that never evicts the publication. */
  lemma Delivery(pub: P.State, run: seq<Occurrence>, maxStreams: nat, inputs: seq<Input>)
    requires pub.stNum != 0 && AllSound(pub, run)
    requires Project(inputs, StreamOf(pub)) == Inputs(pub, run)
    requires NeverEvicted(Fresh(maxStreams), inputs, StreamOf(pub))
    ensures DeliversAll(EventsOf(RunEvents(Fresh(maxStreams), inputs), StreamOf(pub)), Publications(pub, run))
  {
    var l := Link(pub, None, None);
    EveryPublicationHeard(l, run);
    EventsAreWatched(l, run);
    KeptRun(Fresh(maxStreams), inputs, StreamOf(pub));
  }

  // ----- States that are never published -----

  /** stNum after `k` data changes. */
  function AfterChanges(stNum: U32, k: nat): U32 {
    if k == 0 then stNum else P.NextCounter(AfterChanges(stNum, k - 1))
  }

  lemma {:induction false} AfterChangesClosed(stNum: U32, k: nat)
    requires stNum != 0
    ensures AfterChanges(stNum, k) == (stNum as int - 1 + k) % U32_MAX + 1
  {
    if k > 0 {
      AfterChangesClosed(stNum, k - 1);
    }
  }

  /** Skipping states, exactly: of `k` changes only the last is published. Whole
      turns of the counter aside, the message is valid if and only if stNum moved
      up without passing its maximum, or stepped from its maximum to 1; and it is
      a new state if and only if stNum moved at all. */
  lemma SkippedStates(w: Watch, x: Snapshot, k: nat)
    requires w.last.stNum != 0 && k >= 1
    requires x.stNum == AfterChanges(w.last.stNum, k) && x.sqNum == 0 && x.stateValid
    ensures var e := EventFor(Some(w.last), x);
            var left := U32_MAX - w.last.stNum;
            var turn := k % U32_MAX;
            && (e.NewState? <==> turn != 0)
            && (e.state.stateValid <==> 1 <= turn <= left || (left == 0 && turn == 1))
  {
    AfterChangesClosed(w.last.stNum, k);
    TurnOf(w.last.stNum, k);
    SkippedByTurn(w.last, x, k % U32_MAX);
  }

  lemma SkippedByTurn(last: Snapshot, x: Snapshot, turn: nat)
    requires last.stNum != 0 && turn < U32_MAX && x.sqNum == 0 && x.stateValid
    requires x.stNum == if turn <= U32_MAX - last.stNum then last.stNum + turn else last.stNum + turn - U32_MAX
    ensures var e := EventFor(Some(last), x);
            var left := U32_MAX - last.stNum;
            && (e.NewState? <==> turn != 0)
            && (e.state.stateValid <==> 1 <= turn <= left || (left == 0 && turn == 1))
  {
  }

  lemma TurnOf(stNum: U32, k: nat)
    requires stNum != 0
    ensures var turn := k % U32_MAX;
            (stNum as int - 1 + k) % U32_MAX + 1
            == if turn <= U32_MAX - stNum then stNum + turn else stNum + turn - U32_MAX
  {
  }

  /** Two changes across the maximum, the first never published, read as a
      rollback. */
  lemma SkippedAcrossWrap(w: Watch, x: Snapshot)
    requires w.last.stNum == U32_MAX - 1 && x.stateValid && x.sqNum == 0
    requires x.stNum == AfterChanges(U32_MAX - 1, 2)
    ensures x.stNum == 1 && !EventFor(Some(w.last), x).state.stateValid
  {
    AfterChangesClosed(U32_MAX - 1, 2);
  }
}
