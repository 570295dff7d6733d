/** Expired is raised at most once per arming, in every run, evictions
    included. */
module SubscriberExpiry {
  import opened Sequences
  import opened Subscriber
  import opened SubscriberHistory
  import opened SubscriberIsolation

  /** A message that is no repetition or regression of the sqNum. */
  predicate Rearms(t: Table, input: Input, key: Key) {
    input.Message? && KeyOf(input.x) == key && !SqNumRollback(Previous(t, key), input.x)
  }

  /** The expiry of a publication has been reported. */
  predicate Reported(t: Table, key: Key) {
    Lookup(t.streams, key).Some? && Lookup(t.streams, key).value.fired
  }

  /** A sweep reports a publication. */
  predicate Reports(t: Table, input: Input, key: Key) {
    input.Sweep? && EventsOf(StepEvents(t, input), key) != []
  }

  /** The tables of a run, one ahead of each input and one behind the last. */
  predicate Trace(states: seq<Table>, inputs: seq<Input>) {
    && |states| == |inputs| + 1
    && forall n :: 0 <= n < |inputs| ==> states[n + 1] == Step(states[n], inputs[n])
  }

  /** Every run has such tables. */
  lemma {:induction false} RunIsTraced(t: Table, inputs: seq<Input>) returns (states: seq<Table>)
    ensures Trace(states, inputs) && states[0] == t && states[|inputs|] == Run(t, inputs)
    decreases |inputs|
  {
    if |inputs| == 0 {
      states := [t];
    } else {
      var front, last := inputs[..|inputs| - 1], inputs[|inputs| - 1];
      var before := RunIsTraced(t, front);
      states := before + [Step(before[|front|], last)];
      TraceSnoc(before, front, last);
      assert inputs == front + [last];
      RunSnoc(t, front, last);
    }
  }

  lemma TraceSnoc(states: seq<Table>, inputs: seq<Input>, input: Input)
    requires Trace(states, inputs)
    ensures Trace(states + [Step(states[|inputs|], input)], inputs + [input])
  {
    var next := Step(states[|inputs|], input);
    forall n | 0 <= n < |inputs + [input]|
      ensures (states + [next])[n + 1] == Step((states + [next])[n], (inputs + [input])[n])
    {
      if n < |inputs| {
        assert states[n + 1] == Step(states[n], inputs[n]);
      }
    }
  }

  /** The input re-arms the expiry of a publication or evicts it. */
  predicate Interrupts(t: Table, input: Input, key: Key) {
    Rearms(t, input, key) || Evicts(t, input, key)
  }

  /** A report stays on record unless the publication is re-armed or evicted. */
  lemma StepKeepsReport(t: Table, input: Input, key: Key)
    requires Distinct(Keys(t.streams)) && Reported(t, key) && !Interrupts(t, input, key)
    ensures Reported(Step(t, input), key)
  {
    StepIsolated(t, input, key);
  }

  /** A report goes on record, and nothing on record is reported. */
  lemma ReportIsRecorded(t: Table, input: Input, key: Key)
    requires Distinct(Keys(t.streams)) && Reports(t, input, key)
    ensures !Reported(t, key) && Reported(Step(t, input), key)
  {
    SweepEventsOf(t.streams, input.now, key);
    SweptLookup(t.streams, input.now, key);
  }

  lemma {:induction false} DistinctThroughout(states: seq<Table>, inputs: seq<Input>, n: nat)
    requires Trace(states, inputs) && Distinct(Keys(states[0].streams)) && n <= |inputs|
    ensures Distinct(Keys(states[n].streams))
  {
    if n > 0 {
      DistinctThroughout(states, inputs, n - 1);
      StepDistinct(states[n - 1], inputs[n - 1]);
    }
  }

  /** A report that is no longer on record was interrupted. */
  lemma {:induction false} ReportLost(states: seq<Table>, inputs: seq<Input>, i: nat, j: nat, key: Key)
    returns (m: nat)
    requires Trace(states, inputs) && Distinct(Keys(states[0].streams)) && i <= j <= |inputs|
    requires Reported(states[i], key) && !Reported(states[j], key)
    ensures i <= m < j && Interrupts(states[m], inputs[m], key)
    decreases j
  {
    if Reported(states[j - 1], key) {
      m := j - 1;
      DistinctThroughout(states, inputs, m);
      if !Interrupts(states[m], inputs[m], key) {
        StepKeepsReport(states[m], inputs[m], key);
      }
    } else {
      m := ReportLost(states, inputs, i, j - 1, key);
    }
  }

  /** Between two reports of a publication lies a message of it that is no
      sqNum repetition or regression, or its eviction. */
  lemma ExpiredOncePerArming(states: seq<Table>, inputs: seq<Input>, i: nat, j: nat, key: Key)
    requires Trace(states, inputs) && Distinct(Keys(states[0].streams)) && i < j < |inputs|
    requires Reports(states[i], inputs[i], key) && Reports(states[j], inputs[j], key)
    ensures exists m :: i < m < j && Interrupts(states[m], inputs[m], key)
  {
    DistinctThroughout(states, inputs, i);
    DistinctThroughout(states, inputs, j);
    ReportIsRecorded(states[i], inputs[i], key);
    ReportIsRecorded(states[j], inputs[j], key);
    var m := ReportLost(states, inputs, i + 1, j, key);
  }
}
