/** A publisher and a receiver joined by the medium, from the call that publishes
    to the calls of the listeners. */
module Transmission {
  import opened Wrappers
  import opened Sequences
  import P = Publisher
  import opened Subscriber
  import opened SubscriberIsolation
  import opened Receiver
  import opened ReceiveLoop
  import opened Link
  import opened LinkSupervision

  /** What an occurrence makes a polling receiver do. */
  function PollsAt(pub: P.State, o: Occurrence): seq<Poll> {
    if o.SweepNow? then [Poll(None, o.at)]
    else if Publishes(pub, o) then [Poll(Some(P.PublishedFrame(pub, o.op.data).value + o.padding), o.at)]
    else []
  }

  function PollsOf(pub: P.State, run: seq<Occurrence>): seq<Poll>
    decreases |run|
  {
    if |run| == 0 then [] else PollsAt(pub, run[0]) + PollsOf(PubAfter(pub, run[0]), run[1..])
  }

  function PubRun(pub: P.State, run: seq<Occurrence>): P.State
    decreases |run|
  {
    if |run| == 0 then pub else PubRun(PubAfter(pub, run[0]), run[1..])
  }

  /** The run as a receiver sees it, which sweeps after every frame. */
  function SweptRun(pub: P.State, run: seq<Occurrence>): seq<Occurrence>
    decreases |run|
  {
    if |run| == 0 then []
    else
      [run[0]] + (if Publishes(pub, run[0]) then [SweepNow(run[0].at)] else [])
      + SweptRun(PubAfter(pub, run[0]), run[1..])
  }

  /** The filters accept what the publisher sends. */
  predicate Wants(f: Filters, pub: P.State) {
    && MatchesFrame(f, pub.comm.appId, pub.comm.dstMac)
    && MatchesGocbRef(f, pub.gocbRef)
    && Accepts(f.simulation, pub.simulation)
  }

  // ----- What a subscriber takes in -----

  /** A publication is handed to a subscriber that wants it. */
  lemma WantedArrives(f: Filters, pub: P.State, o: Occurrence)
    requires pub.stNum != 0 && Sound(pub, o) && Publishes(pub, o) && Wants(f, pub)
    ensures var octets := P.PublishedFrame(pub, o.op.data).value + o.padding;
            Polled(f, Some(octets), o.at) == Arrival(pub, o.op.data, o.padding, o.at)
            && Arrival(pub, o.op.data, o.padding, o.at).Some?
  {
    P.PublicationDelivered(pub, o.op.data, o.padding);
  }

  lemma {:induction false} InputsOfConcat(f: Filters, a: seq<Poll>, b: seq<Poll>)
    ensures InputsOf(f, a + b) == InputsOf(f, a) + InputsOf(f, b)
    decreases |b|
  {
    if |b| == 0 {
      assert a + b == a;
      assert InputsOf(f, a) + [] == InputsOf(f, a);
    } else {
      var front := b[..|b| - 1];
      InputsOfConcat(f, a, front);
      assert (a + b)[..|a + b| - 1] == a + front;
      Associative(InputsOf(f, a), InputsOf(f, front), PollInputs(f, b[|b| - 1]));
    }
  }

  lemma InputsOfOne(f: Filters, poll: Poll)
    ensures InputsOf(f, [poll]) == PollInputs(f, poll)
  {
    assert [poll][..0] == [];
    assert [] + PollInputs(f, poll) == PollInputs(f, poll);
  }

  function InputOf(input: Option<Input>): seq<Input> {
    if input.Some? then [input.value] else []
  }

  /** What a wanting subscriber takes in of an occurrence. */
  lemma PolledAt(f: Filters, pub: P.State, o: Occurrence)
    requires pub.stNum != 0 && Sound(pub, o) && Wants(f, pub)
    ensures InputsOf(f, PollsAt(pub, o))
            == InputOf(Taken(pub, o)) + if Publishes(pub, o) then [Sweep(o.at)] else []
  {
    if o.SweepNow? {
      InputsOfOne(f, Poll(None, o.at));
      assert [] + [Sweep(o.at)] == [Sweep(o.at)] + [];
    } else if Publishes(pub, o) {
      var octets := P.PublishedFrame(pub, o.op.data).value + o.padding;
      WantedArrives(f, pub, o);
      InputsOfOne(f, Poll(Some(octets), o.at));
    }
  }

  lemma InputsFirst(pub: P.State, o: Occurrence, rest: seq<Occurrence>)
    ensures Inputs(pub, [o] + rest) == InputOf(Taken(pub, o)) + Inputs(PubAfter(pub, o), rest)
  {
    assert ([o] + rest)[1..] == rest;
  }

  /** The inputs of the swept run, one occurrence at a time. */
  lemma SweptInputs(pub: P.State, o: Occurrence, rest: seq<Occurrence>)
    ensures Inputs(pub, [o] + (if Publishes(pub, o) then [SweepNow(o.at)] else []) + rest)
            == InputOf(Taken(pub, o)) + (if Publishes(pub, o) then [Sweep(o.at)] else [])
               + Inputs(PubAfter(pub, o), rest)
  {
    var pub' := PubAfter(pub, o);
    if Publishes(pub, o) {
      var sweep := SweepNow(o.at);
      Associative([o], [sweep], rest);
      InputsFirst(pub, o, [sweep] + rest);
      InputsFirst(pub', sweep, rest);
      Associative(InputOf(Taken(pub, o)), [Sweep(o.at)], Inputs(pub', rest));
    } else {
      assert [o] + [] + rest == [o] + rest;
      InputsFirst(pub, o, rest);
      assert InputOf(Taken(pub, o)) + [] == InputOf(Taken(pub, o));
    }
  }

  /** A subscriber that wants the publication takes in exactly what the link
      says, with a sweep after every message. */
  lemma {:induction false} PolledInputs(f: Filters, pub: P.State, run: seq<Occurrence>)
    requires pub.stNum != 0 && AllSound(pub, run) && Wants(f, pub)
    ensures InputsOf(f, PollsOf(pub, run)) == Inputs(pub, SweptRun(pub, run))
    decreases |run|
  {
    if |run| > 0 {
      var o, pub' := run[0], PubAfter(pub, run[0]);
      SameStream(pub, o);
      PolledInputs(f, pub', run[1..]);
      PolledAt(f, pub, o);
      InputsOfConcat(f, PollsAt(pub, o), PollsOf(pub', run[1..]));
      SweptInputs(pub, o, SweptRun(pub', run[1..]));
    }
  }

  // ----- The swept run keeps its promises -----

  lemma SoundFirst(pub: P.State, o: Occurrence, rest: seq<Occurrence>)
    requires Sound(pub, o) && AllSound(PubAfter(pub, o), rest)
    ensures AllSound(pub, [o] + rest)
    ensures Publications(pub, [o] + rest)
            == (if Publishes(pub, o) then [Publication(pub, o.op.data, o.at)] else [])
               + Publications(PubAfter(pub, o), rest)
  {
    assert ([o] + rest)[1..] == rest;
  }

  lemma SweptOnce(pub: P.State, o: Occurrence, rest: seq<Occurrence>)
    requires Sound(pub, o) && AllSound(PubAfter(pub, o), rest)
    ensures var swept := [o] + (if Publishes(pub, o) then [SweepNow(o.at)] else []) + rest;
            AllSound(pub, swept) && Publications(pub, swept) == Publications(pub, [o] + rest)
  {
    var pub' := PubAfter(pub, o);
    SoundFirst(pub, o, rest);
    if Publishes(pub, o) {
      var sweep := SweepNow(o.at);
      SoundFirst(pub', sweep, rest);
      assert [] + Publications(pub', rest) == Publications(pub', rest);
      SoundFirst(pub, o, [sweep] + rest);
      Associative([o], [sweep], rest);
    } else {
      assert [o] + [] + rest == [o] + rest;
    }
  }

  /** The sweeps of the receiver add no publication. */
  lemma {:induction false} SweptSound(pub: P.State, run: seq<Occurrence>)
    requires AllSound(pub, run)
    ensures AllSound(pub, SweptRun(pub, run)) && Publications(pub, SweptRun(pub, run)) == Publications(pub, run)
    decreases |run|
  {
    if |run| > 0 {
      var o, pub' := run[0], PubAfter(pub, run[0]);
      var rest := SweptRun(pub', run[1..]);
      SweptSound(pub', run[1..]);
      SweptOnce(pub, o, rest);
      SoundFirst(pub, o, rest);
    }
  }

  lemma {:induction false} SweptPublished(pub: P.State, run: seq<Occurrence>, changed: bool)
    requires EveryStatePublished(pub, run, changed)
    ensures EveryStatePublished(pub, SweptRun(pub, run), changed)
    decreases |run|
  {
    if |run| > 0 {
      var o, pub' := run[0], PubAfter(pub, run[0]);
      var after := ChangedAfter(pub, o, changed);
      SweptPublished(pub', run[1..], after);
      var rest := SweptRun(pub', run[1..]);
      if Publishes(pub, o) {
        PublishedFirst(pub', SweepNow(o.at), rest, after);
        PublishedFirst(pub, o, [SweepNow(o.at)] + rest, changed);
        Associative([o], [SweepNow(o.at)], rest);
      } else {
        PublishedFirst(pub, o, rest, changed);
        assert [o] + [] + rest == [o] + rest;
      }
    }
  }

  lemma PublishedFirst(pub: P.State, o: Occurrence, rest: seq<Occurrence>, changed: bool)
    requires Sound(pub, o) && (o.Do? ==> !o.op.Reset? && (o.op.IncreaseStNum? ==> !changed))
    requires EveryStatePublished(PubAfter(pub, o), rest, ChangedAfter(pub, o, changed))
    ensures EveryStatePublished(pub, [o] + rest, changed)
  {
    assert ([o] + rest)[1..] == rest;
  }

  /** Whether a run is punctual does not depend on what the subscriber knows. */
  lemma {:induction false} PunctualUnwatched(l: Link, w: Option<Watch>, run: seq<Occurrence>, clock: nat)
    requires Punctual(l, run, clock)
    ensures Punctual(l.(watch := w), run, clock)
    decreases |run|
  {
    if |run| > 0 {
      PunctualUnwatched(Happen(l, run[0]), Happen(l.(watch := w), run[0]).watch, run[1..], run[0].at);
    }
  }

  lemma PunctualFirst(l: Link, o: Occurrence, rest: seq<Occurrence>, clock: nat)
    requires Sound(l.pub, o) && clock <= o.at && (l.due.Some? ==> o.at <= l.due.value)
    requires Publishes(l.pub, o) ==> Covers(l.pub)
    requires Punctual(Happen(l, o), rest, o.at)
    ensures Punctual(l, [o] + rest, clock)
  {
    assert ([o] + rest)[1..] == rest;
  }

  lemma SweptFirst(l: Link, o: Occurrence, rest: seq<Occurrence>, clock: nat)
    requires Publishes(l.pub, o) && Covers(l.pub) && Sound(l.pub, o)
    requires clock <= o.at && (l.due.Some? ==> o.at <= l.due.value)
    requires Punctual(Happen(l, o), rest, o.at)
    ensures Punctual(l, [o] + [SweepNow(o.at)] + rest, clock)
  {
    var l', sweep := Happen(l, o), SweepNow(o.at);
    PublishSteps(l.pub, o.op.data, o.at);
    PunctualUnwatched(l', Happen(l', sweep).watch, rest, o.at);
    PunctualFirst(l', sweep, rest, o.at);
    PunctualFirst(l, o, [sweep] + rest, clock);
    Associative([o], [sweep], rest);
  }

  lemma {:induction false} SweptPunctual(l: Link, run: seq<Occurrence>, clock: nat)
    requires Punctual(l, run, clock)
    ensures Punctual(l, SweptRun(l.pub, run), clock)
    decreases |run|
  {
    if |run| > 0 {
      var o, l' := run[0], Happen(l, run[0]);
      SweptPunctual(l', run[1..], o.at);
      var rest := SweptRun(l'.pub, run[1..]);
      if Publishes(l.pub, o) {
        SweptFirst(l, o, rest, clock);
      } else {
        PunctualFirst(l, o, rest, clock);
        assert [o] + [] + rest == [o] + rest;
      }
    }
  }

  // ----- From the publisher's calls to the listeners' -----

  /** A new subscriber that wants the publication hears every message valid, and
      as new exactly those with sqNum 0. */
  lemma HeardInSequence(f: Filters, pub: P.State, run: seq<Occurrence>, maxStreams: nat)
    requires pub.stNum != 0 && pub.sqNum == 0 && EveryStatePublished(pub, run, false) && Wants(f, pub)
    ensures forall e :: e in EventsOf(RunEvents(Fresh(maxStreams), InputsOf(f, PollsOf(pub, run))), StreamOf(pub)) ==>
              WellSequenced(e)
  {
    PublishedIsSound(pub, run, false);
    PolledInputs(f, pub, run);
    SweptPublished(pub, run, false);
    LoneSequencing(pub, SweptRun(pub, run), maxStreams);
  }

  /** A new subscriber that wants the publication hears every message of it, and
      nothing else of it but expiries, in order. */
  lemma HeardOneByOne(f: Filters, pub: P.State, run: seq<Occurrence>, maxStreams: nat)
    requires pub.stNum != 0 && AllSound(pub, run) && Wants(f, pub)
    ensures DeliversAll(EventsOf(RunEvents(Fresh(maxStreams), InputsOf(f, PollsOf(pub, run))), StreamOf(pub)),
                        Publications(pub, run))
  {
    PolledInputs(f, pub, run);
    SweptSound(pub, run);
    HeardAlone(pub, SweptRun(pub, run), maxStreams);
    Delivery(pub, SweptRun(pub, run), maxStreams, Inputs(pub, SweptRun(pub, run)));
  }

  /** A new subscriber that wants a punctual publication hears of no expiry. */
  lemma HeardInTime(f: Filters, pub: P.State, run: seq<Occurrence>, clock: nat, maxStreams: nat)
    requires pub.stNum != 0 && Punctual(Link(pub, None, None), run, clock) && Wants(f, pub)
    ensures forall e :: e in EventsOf(RunEvents(Fresh(maxStreams), InputsOf(f, PollsOf(pub, run))), StreamOf(pub)) ==>
              !e.Expired?
  {
    var l := Link(pub, None, None);
    PunctualIsSound(l, run, clock);
    PolledInputs(f, pub, run);
    SweptPunctual(l, run, clock);
    LoneSupervision(pub, SweptRun(pub, run), clock, maxStreams);
  }

  lemma RunsOn(pub: P.State, run: seq<Occurrence>, i: nat)
    requires i < |run|
    ensures PubRun(pub, run[i..]) == PubRun(PubAfter(pub, run[i]), run[i + 1..])
    ensures PollsOf(pub, run[i..]) == PollsAt(pub, run[i]) + PollsOf(PubAfter(pub, run[i]), run[i + 1..])
  {
    assert run[i..][1..] == run[i + 1..];
  }

  /** Carries out one occurrence at the publisher and returns what it gives the
      receiver to poll. */
  method Occur(p: P.GoosePublisher, o: Occurrence) returns (polls: seq<Poll>)
    requires p.Valid()
    modifies p
    ensures p.Valid() && p.Abs() == PubAfter(old(p.Abs()), o)
    ensures polls == PollsAt(old(p.Abs()), o)
  {
    match o
    case SweepNow(at) => return [Poll(None, at)];
    case Do(op, padding, at) =>
      var frames := P.Perform(p, op);
      if |frames| == 1 && frames[0].Ok? {
        return [Poll(Some(frames[0].value + padding), at)];
      }
      return [];
  }

  method PublishAll(p: P.GoosePublisher, run: seq<Occurrence>) returns (polls: seq<Poll>)
    requires p.Valid()
    modifies p
    ensures p.Valid() && p.Abs() == PubRun(old(p.Abs()), run)
    ensures polls == PollsOf(old(p.Abs()), run)
  {
    polls := [];
    ghost var s := p.Abs();
    var i := 0;
    assert run[0..] == run;
    while i < |run|
      invariant 0 <= i <= |run|
      invariant p.Valid() && p.Abs() == s
      invariant PubRun(s, run[i..]) == PubRun(old(p.Abs()), run)
      invariant polls + PollsOf(s, run[i..]) == PollsOf(old(p.Abs()), run)
    {
      RunsOn(s, run, i);
      var more := Occur(p, run[i]);
      s := PubAfter(s, run[i]);
      Associative(polls, more, PollsOf(s, run[i + 1..]));
      polls := polls + more;
      i := i + 1;
    }
  }

  /** Publishes a run and polls the receiver with what arrives. The two share no
      state, so that handling each frame as it is sent comes to the same. */
  method Transmit(p: P.GoosePublisher, r: GooseReceiver, run: seq<Occurrence>)
    requires p.Valid() && r.Valid()
    modifies p, r.Owned()
    ensures p.Valid() && p.Abs() == PubRun(old(p.Abs()), run)
    ensures r.Valid() && r.subscribers == old(r.subscribers)
    ensures forall k :: 0 <= k < |r.subscribers| && r.subscribers[k] != null ==>
                          RanOver(r.subscribers[k], InputsOf(r.subscribers[k].filters, PollsOf(old(p.Abs()), run)))
  {
    var polls := PublishAll(p, run);
    PollAll(r, polls);
  }

  /** A subscriber that has heard nothing. */
  ghost predicate IsNew(sub: GooseSubscriber)
    reads sub
  {
    sub.Abs() == Fresh(sub.maxStreams) && sub.log == []
  }

  ghost predicate InSequence(log: seq<Event>, key: Key) {
    forall e :: e in EventsOf(log, key) ==> WellSequenced(e)
  }

  ghost predicate InTime(log: seq<Event>, key: Key) {
    forall e :: e in EventsOf(log, key) ==> !e.Expired?
  }

  /** From the publisher's calls to the listeners': every publication is heard
      by every new subscriber that wants it and has a listener, once and in
      order; in sequence when the publisher publishes every state, and without
      an expiry when it is punctual. */
  method TransmitToNew(p: P.GoosePublisher, r: GooseReceiver, run: seq<Occurrence>, ghost clock: nat)
    requires p.Valid() && r.Valid()
    requires forall k :: 0 <= k < |r.subscribers| && r.subscribers[k] != null ==> IsNew(r.subscribers[k])
    modifies p, r.Owned()
    ensures p.Valid() && r.Valid() && r.subscribers == old(r.subscribers)
    ensures AllSound(old(p.Abs()), run) ==>
              forall k :: 0 <= k < |r.subscribers| && r.subscribers[k] != null ==>
                r.subscribers[k].hasListener && Wants(r.subscribers[k].filters, old(p.Abs())) ==>
                  DeliversAll(EventsOf(r.subscribers[k].log, StreamOf(old(p.Abs()))),
                              Publications(old(p.Abs()), run))
    ensures old(p.sqNum) == 0 && EveryStatePublished(old(p.Abs()), run, false) ==>
              forall k :: 0 <= k < |r.subscribers| && r.subscribers[k] != null ==>
                Wants(r.subscribers[k].filters, old(p.Abs())) ==>
                  InSequence(r.subscribers[k].log, StreamOf(old(p.Abs())))
    ensures Punctual(Link(old(p.Abs()), None, None), run, clock) ==>
              forall k :: 0 <= k < |r.subscribers| && r.subscribers[k] != null ==>
                Wants(r.subscribers[k].filters, old(p.Abs())) ==>
                  InTime(r.subscribers[k].log, StreamOf(old(p.Abs())))
  {
    ghost var pub := p.Abs();
    Transmit(p, r, run);
    forall k | 0 <= k < |r.subscribers| && r.subscribers[k] != null && Wants(r.subscribers[k].filters, pub)
      ensures r.subscribers[k].hasListener && AllSound(pub, run) ==>
                DeliversAll(EventsOf(r.subscribers[k].log, StreamOf(pub)), Publications(pub, run))
      ensures pub.sqNum == 0 && EveryStatePublished(pub, run, false) ==>
                InSequence(r.subscribers[k].log, StreamOf(pub))
      ensures Punctual(Link(pub, None, None), run, clock) ==> InTime(r.subscribers[k].log, StreamOf(pub))
    {
      var sub := r.subscribers[k];
      var heard := Heard(sub.hasListener, RunEvents(Fresh(sub.maxStreams), InputsOf(sub.filters, PollsOf(pub, run))));
      assert [] + heard == heard;
      if AllSound(pub, run) {
        HeardOneByOne(sub.filters, pub, run, sub.maxStreams);
      }
      if pub.sqNum == 0 && EveryStatePublished(pub, run, false) {
        HeardInSequence(sub.filters, pub, run, sub.maxStreams);
      }
      if Punctual(Link(pub, None, None), run, clock) {
        HeardInTime(sub.filters, pub, run, clock, sub.maxStreams);
      }
    }
  }
}
