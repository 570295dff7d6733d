/** Supervision across the link: when timeAllowedToLive covers the interval a
    publisher keeps, no sweep reports an expiry. */
module LinkSupervision {
  import opened Wrappers
  import opened Bytes
  import opened Numbers
  import opened MmsData
  import P = Publisher
  import opened Subscriber
  import opened SubscriberIsolation
  import opened Link

  /** The announced time covers the interval to the next publication. */
  predicate Covers(s: P.State) {
    Millis(P.Interval(s.phase, s.intervals)) <= P.TimeAllowedToLive(s)
  }

  /** The announced time covers the interval exactly when the interval does not
      exceed the override or, without one, the range of the field: twice the
      interval is announced, so the cap never falls below a representable one. */
  lemma CoversExactly(s: P.State)
    ensures Covers(s) <==>
              Millis(P.Interval(s.phase, s.intervals))
              <= if s.ttlOverride.Some? then s.ttlOverride.value else U32_MAX
  {
  }

  lemma MillisMonotone(a: nat, b: nat)
    requires a <= b
    ensures Millis(a) <= Millis(b)
  {
  }

  /** Up to which instant a message is in time. */
  lemma InTimeUntil(x: Snapshot, due: nat)
    requires x.receivedAt <= due
    ensures Millis(due - x.receivedAt) <= x.ttlMs <==>
              forall at :: x.receivedAt <= at <= due ==> !Overdue(x, at)
  {
    if Millis(due - x.receivedAt) <= x.ttlMs {
      forall at | x.receivedAt <= at <= due
        ensures !Overdue(x, at)
      {
        MillisMonotone(at - x.receivedAt, due - x.receivedAt);
      }
    } else {
      assert Overdue(x, due);
    }
  }

  /** Supervision of one publication, exactly: no sweep up to the next one
      reports it if and only if its announced time covers the interval. */
  lemma OnePublication(s: P.State, data: seq<MmsValue>, padding: seq<Byte>, now: nat)
    requires s.stNum != 0 && P.PublishedFrame(s, data).Ok? && P.Deliverable(s, data)
    ensures var next := P.AfterPublish(s, now).nextPublishAt;
            && next.Some? && next.value >= now
            && Arrival(s, data, padding, now).Some?
            && (Covers(s) <==>
                  forall at :: now <= at <= next.value ==> !Overdue(Arrival(s, data, padding, now).value, at))
  {
    ArrivalCarries(s, data, padding, now);
    InTimeUntil(Arrival(s, data, padding, now).value, now + P.Interval(s.phase, s.intervals));
  }

  /** When a message becomes overdue: with the first millisecond beyond its
      announced time. */
  lemma FirstOverdue(x: Snapshot, at: nat)
    ensures Overdue(x, at) <==> at >= x.receivedAt + (x.ttlMs + 1) * NANOS_PER_MILLI
  {
  }

  /** Without an override a message becomes overdue with the first millisecond
      beyond twice its interval in whole milliseconds. */
  lemma OverdueBeyondTwice(s: P.State, data: seq<MmsValue>, padding: seq<Byte>, now: nat, at: nat)
    requires s.stNum != 0 && P.PublishedFrame(s, data).Ok? && P.Deliverable(s, data)
    requires s.ttlOverride.None? && 2 * Millis(P.Interval(s.phase, s.intervals)) <= U32_MAX
    ensures var x := Arrival(s, data, padding, now);
            && x.Some?
            && (Overdue(x.value, at) <==>
                  at >= now + (2 * Millis(P.Interval(s.phase, s.intervals)) + 1) * NANOS_PER_MILLI)
  {
    ArrivalCarries(s, data, padding, now);
    FirstOverdue(Arrival(s, data, padding, now).value, at);
  }

  // ----- A lost publication -----

  /** The time from a publication to the one after the next. */
  function TwoIntervals(s: P.State): nat {
    P.Interval(s.phase, s.intervals) + P.Interval(P.Advance(s.phase), s.intervals)
  }

  /** When the publication after the next is due, with both made on time. */
  function DueAfterNext(s: P.State, now: nat): (due: nat)
    ensures due == now + TwoIntervals(s)
  {
    var next := P.AfterPublish(s, now);
    P.AfterPublish(next, next.nextPublishAt.value).nextPublishAt.value
  }

  /** The announced time covers the interval to the publication after the next. */
  predicate CoversLoss(s: P.State) {
    Millis(TwoIntervals(s)) <= P.TimeAllowedToLive(s)
  }

  /** One lost publication, exactly: when the publication after this one is made
      on time and lost, no sweep up to the one after it finds this one overdue if
      and only if its announced time covers both intervals. */
  lemma OneLoss(s: P.State, data: seq<MmsValue>, padding: seq<Byte>, now: nat)
    requires s.stNum != 0 && P.PublishedFrame(s, data).Ok? && P.Deliverable(s, data)
    ensures DueAfterNext(s, now) == now + TwoIntervals(s) && Arrival(s, data, padding, now).Some?
    ensures CoversLoss(s) <==>
              forall at :: now <= at <= DueAfterNext(s, now) ==> !Overdue(Arrival(s, data, padding, now).value, at)
  {
    ArrivalCarries(s, data, padding, now);
    InTimeUntil(Arrival(s, data, padding, now).value, now + TwoIntervals(s));
  }

  /** With intervals of whole milliseconds and no override a loss is covered
      exactly when the next interval is no longer, so never while the intervals
      still grow. */
  lemma LossInWholeMillis(s: P.State)
    requires s.ttlOverride.None? && 2 * Millis(P.Interval(s.phase, s.intervals)) <= U32_MAX
    requires P.Interval(s.phase, s.intervals) % NANOS_PER_MILLI == 0
    requires P.Interval(P.Advance(s.phase), s.intervals) % NANOS_PER_MILLI == 0
    ensures CoversLoss(s) <==> P.Interval(P.Advance(s.phase), s.intervals) <= P.Interval(s.phase, s.intervals)
  {
  }

  /** With the default intervals only the stable phase covers a loss. */
  lemma LossByDefault(s: P.State)
    requires s.ttlOverride.None? && s.intervals == P.DEFAULT_INTERVALS
    ensures CoversLoss(s) <==> s.phase == P.Stable
  {
    LossInWholeMillis(s);
  }

  /** An overdue message is reported by a sweep. */
  lemma SweepReports(l: Link, at: nat)
    requires l.watch.Some? && !l.watch.value.fired && Overdue(l.watch.value.last, at)
    ensures Events(l, [SweepNow(at)]) == [Expired(l.watch.value.last)]
  {
    var sweep := SweepNow(at);
    assert [sweep][1..] == [];
    assert Events(Happen(l, sweep), []) == [];
  }

  lemma WatchedMessage(l: Link, o: Occurrence)
    requires l.pub.stNum != 0 && (l.watch.Some? ==> !l.watch.value.fired)
    requires Sound(l.pub, o) && Publishes(l.pub, o)
    ensures var w := Happen(l, o).watch;
            && w.Some? && !w.value.fired
            && w.value.last.receivedAt == o.at && w.value.last.ttlMs == P.TimeAllowedToLive(l.pub)
  {
    TakenMessage(l.pub, o);
  }

  /** A loss that is not covered is reported by a sweep at the instant the
      publication after the lost one is due. */
  lemma LossIsReported(l: Link, o: Occurrence)
    requires l.pub.stNum != 0 && (l.watch.Some? ==> !l.watch.value.fired)
    requires Sound(l.pub, o) && Publishes(l.pub, o) && !CoversLoss(l.pub)
    ensures var l' := Happen(l, o);
            && l'.watch.Some?
            && Events(l', [SweepNow(DueAfterNext(l.pub, o.at))]) == [Expired(l'.watch.value.last)]
  {
    WatchedMessage(l, o);
    SweepReports(Happen(l, o), o.at + TwoIntervals(l.pub));
  }

  /** The first message of a state by default: the second is due after 4 ms and
      the third after 12 ms, and when the second is lost a sweep after 9 ms
      reports the first. */
  lemma FirstLossIsReported(l: Link, o: Occurrence)
    requires l.pub.stNum != 0 && (l.watch.Some? ==> !l.watch.value.fired)
    requires Sound(l.pub, o) && Publishes(l.pub, o)
    requires l.pub.phase == P.T1 && l.pub.intervals == P.DEFAULT_INTERVALS && l.pub.ttlOverride.None?
    ensures var l' := Happen(l, o);
            && l'.due == Some(o.at + 4 * NANOS_PER_MILLI) && DueAfterNext(l.pub, o.at) == o.at + 12 * NANOS_PER_MILLI
            && l'.watch.Some?
            && Events(l', [SweepNow(o.at + 9 * NANOS_PER_MILLI)]) == [Expired(l'.watch.value.last)]
  {
    PublishSteps(l.pub, o.op.data, o.at);
    WatchedMessage(l, o);
    SweepReports(Happen(l, o), o.at + 9 * NANOS_PER_MILLI);
  }

  // ----- Runs -----

  /** The last message heard stays in time until the next is due. */
  predicate Supervised(w: Option<Watch>, due: Option<nat>, clock: nat) {
    w.Some? ==>
      && due.Some? && !w.value.fired
      && w.value.last.receivedAt <= clock
      && w.value.last.receivedAt <= due.value
      && Millis(due.value - w.value.last.receivedAt) <= w.value.last.ttlMs
  }

  /** A run in which time never passes the instant the publisher announced for
      its next publication, and every publication announces a time that covers
      its interval. A data change may be published at any instant up to that
      one. */
  predicate Punctual(l: Link, run: seq<Occurrence>, clock: nat)
    decreases |run|
  {
    |run| == 0
    || (var o := run[0];
        && Sound(l.pub, o)
        && clock <= o.at
        && (l.due.Some? ==> o.at <= l.due.value)
        && (Publishes(l.pub, o) ==> Covers(l.pub))
        && Punctual(Happen(l, o), run[1..], o.at))
  }

  lemma PublishSupervised(w: Option<Watch>, s: P.State, x: Snapshot, data: seq<MmsValue>, at: nat)
    requires w.Some? ==> !w.value.fired
    requires Carries(x, s, data, at) && Covers(s)
    ensures Supervised(WatchStep(w, Message(x)), P.AfterPublish(s, at).nextPublishAt, at)
    ensures forall e :: e in WatchEvents(w, Message(x)) ==> !e.Expired?
  {
  }

  lemma SweepSupervised(w: Option<Watch>, due: Option<nat>, clock: nat, at: nat)
    requires Supervised(w, due, clock) && clock <= at && (due.Some? ==> at <= due.value)
    ensures WatchStep(w, Sweep(at)) == w && WatchEvents(w, Sweep(at)) == []
    ensures Supervised(w, due, at)
  {
    if w.Some? {
      MillisMonotone(at - w.value.last.receivedAt, due.value - w.value.last.receivedAt);
    }
  }

  lemma StepSupervised(l: Link, o: Occurrence, clock: nat)
    requires l.pub.stNum != 0 && Supervised(l.watch, l.due, clock) && Sound(l.pub, o)
    requires clock <= o.at && (l.due.Some? ==> o.at <= l.due.value) && (Publishes(l.pub, o) ==> Covers(l.pub))
    ensures var l' := Happen(l, o); l'.pub.stNum != 0 && Supervised(l'.watch, l'.due, o.at)
    ensures forall e :: e in Raised(l.watch, Taken(l.pub, o)) ==> !e.Expired?
  {
    SameStream(l.pub, o);
    SweepSupervised(l.watch, l.due, clock, o.at);
    if Publishes(l.pub, o) {
      TakenMessage(l.pub, o);
      PublishSteps(l.pub, o.op.data, o.at);
      PublishSupervised(l.watch, l.pub, Taken(l.pub, o).value.x, o.op.data, o.at);
    } else if o.Do? && o.op.PublishAt? {
      FailedPublication(l.pub, o);
    }
  }

  /** Supervision across the link: in a punctual run, whatever data changes,
      resets and interval changes it holds, no sweep reports an expiry. */
  lemma {:induction false} Supervision(l: Link, run: seq<Occurrence>, clock: nat)
    requires l.pub.stNum != 0 && Supervised(l.watch, l.due, clock) && Punctual(l, run, clock)
    ensures forall e :: e in Events(l, run) ==> !e.Expired?
    decreases |run|
  {
    if |run| > 0 {
      StepSupervised(l, run[0], clock);
      Supervision(Happen(l, run[0]), run[1..], run[0].at);
    }
  }

  /** The same, as a table that never evicts the publication sees the run from
      the publisher's first message on. */
  lemma NoExpiryReported(pub: P.State, run: seq<Occurrence>, clock: nat, maxStreams: nat, inputs: seq<Input>)
    requires pub.stNum != 0 && Punctual(Link(pub, None, None), run, clock)
    requires Project(inputs, StreamOf(pub)) == Inputs(pub, run)
    requires NeverEvicted(Fresh(maxStreams), inputs, StreamOf(pub))
    ensures forall e :: e in EventsOf(RunEvents(Fresh(maxStreams), inputs), StreamOf(pub)) ==>
              !e.Expired?
  {
    var l := Link(pub, None, None);
    Supervision(l, run, clock);
    EventsAreWatched(l, run);
    KeptRun(Fresh(maxStreams), inputs, StreamOf(pub));
  }

  lemma {:induction false} PunctualIsSound(l: Link, run: seq<Occurrence>, clock: nat)
    requires Punctual(l, run, clock)
    ensures AllSound(l.pub, run)
    decreases |run|
  {
    if |run| > 0 {
      PunctualIsSound(Happen(l, run[0]), run[1..], run[0].at);
    }
  }

  /** A publisher heard alone, in a table of any size. */
  lemma LoneSupervision(pub: P.State, run: seq<Occurrence>, clock: nat, maxStreams: nat)
    requires pub.stNum != 0 && Punctual(Link(pub, None, None), run, clock)
    ensures forall e :: e in EventsOf(RunEvents(Fresh(maxStreams), Inputs(pub, run)), StreamOf(pub)) ==> !e.Expired?
  {
    PunctualIsSound(Link(pub, None, None), run, clock);
    HeardAlone(pub, run, maxStreams);
    NoExpiryReported(pub, run, clock, maxStreams, Inputs(pub, run));
  }

  /** A publication whose announced time falls short is reported by a sweep at
      the very instant the next one is due. */
  lemma ShortTimeIsReported(l: Link, o: Occurrence)
    requires l.pub.stNum != 0 && (l.watch.Some? ==> !l.watch.value.fired)
    requires Sound(l.pub, o) && Publishes(l.pub, o) && !Covers(l.pub)
    ensures var l' := Happen(l, o);
            && l'.due.Some? && l'.watch.Some?
            && Events(l', [SweepNow(l'.due.value)]) == [Expired(l'.watch.value.last)]
  {
    WatchedMessage(l, o);
    PublishSteps(l.pub, o.op.data, o.at);
    SweepReports(Happen(l, o), Happen(l, o).due.value);
  }
}
