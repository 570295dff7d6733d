/** The receiver over a whole run of polling steps: every subscriber ends as a
    subscriber that took in the run's inputs one by one. */
module ReceiveLoop {
  import opened Wrappers
  import opened Bytes
  import opened Sequences
  import opened Subscriber
  import opened Receiver

  /** A polling step: the octets of a frame, or none, at an instant. */
  datatype Poll = Poll(frame: Option<seq<Byte>>, now: nat)

  function PollInputs(f: Filters, poll: Poll): seq<Input> {
    var x := Polled(f, poll.frame, poll.now);
    (if x.Some? then [Message(x.value)] else []) + [Sweep(poll.now)]
  }

  /** Everything a subscriber with these filters takes in. */
  function InputsOf(f: Filters, polls: seq<Poll>): seq<Input> {
    if |polls| == 0 then [] else InputsOf(f, polls[..|polls| - 1]) + PollInputs(f, polls[|polls| - 1])
  }

  lemma {:induction false} RunConcat(t: Table, a: seq<Input>, b: seq<Input>)
    ensures Run(t, a + b) == Run(Run(t, a), b)
    ensures RunEvents(t, a + b) == RunEvents(t, a) + RunEvents(Run(t, a), b)
    decreases |a|
  {
    if |a| == 0 {
      assert a + b == b;
      assert [] + RunEvents(t, b) == RunEvents(t, b);
    } else {
      assert (a + b)[1..] == a[1..] + b;
      RunConcat(Step(t, a[0]), a[1..], b);
      Associative(StepEvents(t, a[0]), RunEvents(Step(t, a[0]), a[1..]), RunEvents(Run(t, a), b));
    }
  }

  lemma RunOne(t: Table, input: Input)
    ensures Run(t, [input]) == Step(t, input) && RunEvents(t, [input]) == StepEvents(t, input)
  {
    assert [input][1..] == [];
    assert StepEvents(t, input) + [] == StepEvents(t, input);
  }

  /** One polling step is the delivery and the sweep. */
  lemma PollRuns(t: Table, f: Filters, poll: Poll)
    ensures var x, inputs := Polled(f, poll.frame, poll.now), PollInputs(f, poll);
            && Run(t, inputs) == Step(AfterDelivery(t, x), Sweep(poll.now))
            && RunEvents(t, inputs) == DeliveryEvents(t, x) + SweepEvents(AfterDelivery(t, x).streams, poll.now)
  {
    var x := Polled(f, poll.frame, poll.now);
    var sweep := [Sweep(poll.now)];
    if x.Some? {
      RunOne(t, Message(x.value));
      RunOne(Step(t, Message(x.value)), Sweep(poll.now));
      RunConcat(t, [Message(x.value)], sweep);
    } else {
      RunOne(t, Sweep(poll.now));
      assert [] + sweep == sweep;
      assert [] + SweepEvents(t.streams, poll.now) == SweepEvents(t.streams, poll.now);
    }
  }

  /** The listener calls of a subscriber. */
  function Heard(hasListener: bool, events: seq<Event>): seq<Event> {
    if hasListener then events else []
  }

  /** The state and the log after `n` steps give those after one more. */
  lemma PollOn(t0: Table, log0: seq<Event>, t: Table, log: seq<Event>, f: Filters, listens: bool, polls: seq<Poll>,
               n: nat)
    requires n < |polls|
    requires t == Run(t0, InputsOf(f, polls[..n]))
    requires log == log0 + Heard(listens, RunEvents(t0, InputsOf(f, polls[..n])))
    ensures var x, now := Polled(f, polls[n].frame, polls[n].now), polls[n].now;
            var inputs := InputsOf(f, polls[..n + 1]);
            && Step(AfterDelivery(t, x), Sweep(now)) == Run(t0, inputs)
            && log + Heard(listens, DeliveryEvents(t, x) + SweepEvents(AfterDelivery(t, x).streams, now))
               == log0 + Heard(listens, RunEvents(t0, inputs))
  {
    var before, step := InputsOf(f, polls[..n]), PollInputs(f, polls[n]);
    assert polls[..n + 1][..n] == polls[..n];
    RunConcat(t0, before, step);
    PollRuns(t, f, polls[n]);
    if listens {
      Associative(log0, RunEvents(t0, before), RunEvents(t, step));
    } else {
      assert log0 + [] == log0;
    }
  }

  /** A subscriber took in these inputs. */
  twostate predicate RanOver(sub: GooseSubscriber, inputs: seq<Input>)
    reads sub
  {
    && sub.Abs() == Run(old(sub.Abs()), inputs)
    && sub.log == old(sub.log) + Heard(sub.hasListener, RunEvents(old(sub.Abs()), inputs))
  }

  /** Polls through a run of frames and instants, whatever octets they hold. */
  method PollAll(r: GooseReceiver, polls: seq<Poll>)
    requires r.Valid()
    modifies r.Owned()
    ensures r.Valid() && r.subscribers == old(r.subscribers)
    ensures forall k :: 0 <= k < |r.subscribers| && r.subscribers[k] != null ==>
                          RanOver(r.subscribers[k], InputsOf(r.subscribers[k].filters, polls))
  {
    var i := 0;
    while i < |polls|
      invariant 0 <= i <= |polls|
      invariant r.Valid() && r.subscribers == old(r.subscribers)
      invariant forall k :: 0 <= k < |r.subscribers| && r.subscribers[k] != null ==>
                  RanOver(r.subscribers[k], InputsOf(r.subscribers[k].filters, polls[..i]))
    {
      label Before:
      var _ := r.TickAt(polls[i].frame, polls[i].now);
      forall k | 0 <= k < |r.subscribers| && r.subscribers[k] != null
        ensures RanOver(r.subscribers[k], InputsOf(r.subscribers[k].filters, polls[..i + 1]))
      {
        var sub := r.subscribers[k];
        PollOn(old(sub.Abs()), old(sub.log), old@Before(sub.Abs()), old@Before(sub.log), sub.filters, sub.hasListener,
               polls, i);
      }
      i := i + 1;
    }
    assert polls[..i] == polls;
  }
}
