/** Reading a counted journal from a server that resumes ahead of the cursor
    entry and counts what it sends again. */
module JournalAhead {
  import opened Wrappers
  import opened Numbers
  import opened Sequences
  import opened RecencyList
  import opened Journal
  import opened JournalExact

  /** A page that begins at or ahead of the cursor, with all it holds counted. */
  predicate PageAhead(a: Answer, log: seq<Entry>, q: Query, from: nat, to: nat)
    requires MaxOf(q.stop).Some?
  {
    var limit := Min(|log|, from + MaxOf(q.stop).value);
    && from <= Behind(log, q) && from <= to <= limit
    && a.page == log[from..to]
    && (a.more <==> to < limit)
  }

  ghost predicate ServesAhead(server: Server, log: seq<Entry>, q: Query) {
    forall n: nat, r: Query {:trigger server(n, r)} ::
      SameSelection(q, r) && Known(log, r) && MaxOf(r.stop).Some? ==>
        server(n, r).Ok? && exists from, to :: PageAhead(server(n, r).value, log, r, from, to)
  }

  /** The page ends ahead of the cursor entry, so that it does not hold it. */
  predicate EndsAhead(a: Answer, log: seq<Entry>, q: Query) {
    |a.page| > 0 && LastIndex(Ids(log), a.page[|a.page| - 1].id) < Behind(log, q)
  }

  /** From request `k` on no page ends ahead of its cursor. */
  ghost predicate ReachesFrom(server: Server, k: nat, log: seq<Entry>, q: Query) {
    forall n: nat, r: Query {:trigger server(n, r)} ::
      n >= k && SameSelection(q, r) && Known(log, r) && server(n, r).Ok? ==> !EndsAhead(server(n, r).value, log, r)
  }

  lemma EndsAheadMeans(a: Answer, log: seq<Entry>, q: Query, from: nat, to: nat)
    requires Distinct(Ids(log)) && from <= to <= |log| && a.page == log[from..to]
    ensures EndsAhead(a, log, q) <==> from < to < Behind(log, q)
  {
    if from < to {
      assert a.page[|a.page| - 1] == log[to - 1];
      assert Ids(log)[to - 1] == log[to - 1].id;
      LastIndexDistinct(Ids(log), to - 1);
    }
  }

  // ----- A page that adds nothing -----

  lemma {:induction false} UnseenNone(page: seq<Entry>, received: set<EntryId>)
    requires forall i :: 0 <= i < |page| ==> page[i].id in received
    ensures Unseen(page, received) == []
  {
    if |page| > 0 {
      UnseenNone(page[..|page| - 1], received);
    }
  }

  lemma ReceivedAlready(log: seq<Entry>, b0: nat, b: nat, from: nat, to: nat, resumed: seq<Entry>)
    requires b0 <= from <= to <= b <= |log| && Subsequence(resumed, log[from..to])
    ensures Unseen(resumed, IdSet(log[b0..b])) == []
  {
    SubsequenceWithin(resumed, log[from..to]);
    forall i | 0 <= i < |resumed|
      ensures resumed[i].id in IdSet(log[b0..b])
    {
      assert resumed[i] in log[from..to];
      var k :| from <= k < to && log[k] == resumed[i];
      assert log[b0..b][k - b0] == resumed[i];
    }
    UnseenNone(resumed, IdSet(log[b0..b]));
  }

  /** A page that brings nothing new ends the walk or stops it. */
  lemma NothingNew(log: seq<Entry>, q: Query, p: Progress, b0: nat, b: nat, a: Answer, from: nat, to: nat)
    requires Reached(log, q, p, b0, b) && from <= to <= |log| && a.page == log[from..to]
    requires from == to || (b0 <= from && to <= b)
    ensures var turn := Absorb(q.stop, p, a); turn.Stuck? || turn == Done(log[b0..b])
  {
    AfterCursorSubsequence(a.page, p.next.after);
    if from < to {
      ReceivedAlready(log, b0, b, from, to, AfterCursor(a.page, p.next.after));
    }
    NothingAdded(q.stop, p, a);
  }

  lemma NothingAdded(stop: Option<RangeStop>, p: Progress, a: Answer)
    requires Unseen(AfterCursor(a.page, p.next.after), p.received) == []
    ensures var turn := Absorb(stop, p, a); turn.Stuck? || turn == Done(p.all)
  {
    assert Counted(stop, |p.all|, Timely(stop, [])) == [];
    assert p.all + [] == p.all;
  }

  // ----- A page that reaches its cursor -----

  lemma SettleAny(log: seq<Entry>, q: Query, p: Progress, b: nat, to: nat, more: bool)
    requires MaxOf(q.stop).Some? && b <= to <= |log| && |p.all| + (to - b) <= MaxOf(q.stop).value
    ensures var turn := Settle(q.stop, p, log[b..to], log[b..to], more);
            turn.Done? ==> turn.all == p.all + log[b..to]
  {
    assert log[b..to][..to - b] == log[b..to];
  }

  lemma Reaching(log: seq<Entry>, q: Query, p: Progress, b0: nat, b: nat, a: Answer, from: nat, to: nat)
    requires Distinct(Ids(log)) && MaxOf(q.stop).Some? && Reached(log, q, p, b0, b)
    requires from <= b <= to <= Limit(log, p.next) && a.page == log[from..to]
    ensures var turn := Absorb(q.stop, p, a);
            && (turn.Done? ==> turn.all == log[b0..to])
            && (turn.Continue? ==> b < to && Reached(log, q, turn.p, b0, to))
  {
    PageSeen(log, q, p, b0, b, a, from, to);
    SettleAny(log, q, p, b, to, a.more);
    Slices(log, b0, b, to);
    var turn := Absorb(q.stop, p, a);
    assert turn == Settle(q.stop, p, log[b..to], log[b..to], a.more);
    if turn.Continue? {
      ReachedNext(log, q, p, b0, b, a, from, to, turn.p);
    }
  }

  // ----- The walk -----

  /** The stretch of the log that has been read is a beginning of the selection. */
  lemma StretchIsPrefix(log: seq<Entry>, q: Query, e: nat)
    requires Behind(log, q) <= e <= Limit(log, q)
    ensures log[Behind(log, q)..e] <= Selection(log, |log|, q)
  {
  }

  lemma TurnAhead(log: seq<Entry>, q: Query, p: Progress, b0: nat, b: nat, a: Answer, from: nat, to: nat)
    requires Distinct(Ids(log)) && MaxOf(q.stop).Some? && Reached(log, q, p, b0, b)
    requires PageAhead(a, log, p.next, from, to) && (b0 == 0 || !EndsAhead(a, log, p.next))
    ensures var turn := Absorb(q.stop, p, a);
            && (turn.Done? ==> turn.all <= Selection(log, |log|, q))
            && (turn.Continue? ==> b < to && Reached(log, q, turn.p, b0, to))
  {
    EndsAheadMeans(a, log, p.next, from, to);
    LimitKept(log, q, p, b0, b);
    if to < b || from == to {
      NothingNew(log, q, p, b0, b, a, from, to);
      StretchIsPrefix(log, q, b);
    } else {
      Reaching(log, q, p, b0, b, a, from, to);
      StretchIsPrefix(log, q, to);
    }
  }

  lemma AnsweredAhead(server: Server, k: nat, log: seq<Entry>, q: Query, r: Query)
    returns (a: Answer, from: nat, to: nat)
    requires ServesAhead(server, log, q) && SameSelection(q, r) && Known(log, r) && MaxOf(r.stop).Some?
    ensures server(k, r) == Ok(a) && PageAhead(a, log, r, from, to)
  {
    a := server(k, r).value;
    from, to :| PageAhead(a, log, r, from, to);
  }

  /** Where a walk stands that has taken up a beginning of the selection. */
  predicate Begun(log: seq<Entry>, q: Query, p: Progress) {
    Reached(log, q, p, Behind(log, q), Behind(log, p.next))
  }

  lemma AheadFrom(server: Server, k: nat, log: seq<Entry>, q: Query, p: Progress)
    requires Distinct(Ids(log)) && MaxOf(q.stop).Some? && ServesAhead(server, log, q) && Begun(log, q, p)
    requires Behind(log, q) == 0 || ReachesFrom(server, k, log, q)
    ensures var r := Read(server, k, q.stop, p).result; r.Ok? ==> r.value <= Selection(log, |log|, q)
  {
    var inv, good := (w: Progress) => Begun(log, q, w), (all: seq<Entry>) => all <= Selection(log, |log|, q);
    forall n: nat, w: Progress | n >= k && inv(w)
      ensures AnswerKeeps(server, q.stop, n, w, inv, good, true)
    {
      var a, from, to := AnsweredAhead(server, n, log, q, w.next);
      TurnAhead(log, q, w, Behind(log, q), Behind(log, w.next), a, from, to);
    }
    ReadKeeps(server, k, q.stop, p, inv, good, true);
  }

  /** Without a cursor to begin with, whatever a server of this kind repeats, the
      result is a beginning of the selection. */
  lemma AheadWithoutCursor(server: Server, log: seq<Entry>, q: Query)
    requires Distinct(Ids(log)) && MaxOf(q.stop).Some? && q.after.None? && ServesAhead(server, log, q)
    ensures var r := Read(server, 0, q.stop, Start(q)).result; r.Ok? ==> r.value <= Selection(log, |log|, q)
  {
    StartReached(log, q);
    AheadFrom(server, 0, log, q, Start(q));
  }

  // ----- A first page that ends ahead of the cursor -----

  /** A result holds everything the walk held. */
  lemma ReadExtends(server: Server, k: nat, stop: Option<RangeStop>, p: Progress)
    ensures var r := Read(server, k, stop, p).result; r.Ok? ==> p.all <= r.value
  {
    var inv, good := (w: Progress) => p.all <= w.all, (all: seq<Entry>) => p.all <= all;
    forall n: nat, w: Progress | n >= k && inv(w)
      ensures AnswerKeeps(server, stop, n, w, inv, good, true)
    {
    }
    ReadKeeps(server, k, stop, p, inv, good, true);
  }

  lemma CursorMissing(log: seq<Entry>, q: Query, from: nat, to: nat)
    requires Distinct(Ids(log)) && Known(log, q) && from <= to < Behind(log, q)
    ensures AfterCursor(log[from..to], q.after) == log[from..to]
  {
    BehindIsCursor(log, q);
    var page, id, ids := log[from..to], q.after.value.id, Ids(log);
    assert ids[Behind(log, q) - 1] == id;
    assert forall i :: 0 <= i < |page| ==> Ids(page)[i] == ids[from + i] != id;
    LastIndexIsLast(Ids(page), id);
  }

  lemma SettleWhole(stop: Option<RangeStop>, p: Progress, page: seq<Entry>, more: bool)
    requires MaxOf(stop).Some? && p.all == [] && |page| <= MaxOf(stop).value
    ensures var turn := Settle(stop, p, page, page, more);
            && (turn.Done? ==> turn.all == page) && (turn.Continue? ==> turn.p.all == page)
            && (!more ==> turn.Done?)
  {
    assert page[..|page|] == page;
    assert Counted(stop, 0, Timely(stop, page)) == page;
    assert p.all + page == page;
  }

  lemma KeptWhole(q: Query, p: Progress, a: Answer, page: seq<Entry>)
    requires MaxOf(q.stop).Some? && p.all == [] && |page| <= MaxOf(q.stop).value
    requires AfterCursor(a.page, p.next.after) == page && Unseen(page, p.received) == page
    ensures var turn := Absorb(q.stop, p, a);
            && (turn.Done? ==> turn.all == page) && (turn.Continue? ==> turn.p.all == page)
            && (!a.more ==> turn.Done?)
  {
    SettleWhole(q.stop, p, page, a.more);
    assert Absorb(q.stop, p, a) == Settle(q.stop, p, page, page, a.more);
  }

  lemma FirstIsUnseen(log: seq<Entry>, from: nat, to: nat)
    requires Distinct(Ids(log)) && from <= to <= |log|
    ensures Unseen(log[from..to], {}) == log[from..to]
  {
    StretchIsNew(log, from, from, to);
    assert log[from..from] == [] && IdSet([]) == {};
    UnseenAll(log[from..to], {});
  }

  /** Such a page is kept whole. */
  lemma FirstPageKept(log: seq<Entry>, q: Query, a: Answer, from: nat, to: nat)
    requires Distinct(Ids(log)) && Known(log, q) && MaxOf(q.stop).Some?
    requires PageAhead(a, log, q, from, to) && from < to < Behind(log, q)
    ensures var turn := Absorb(q.stop, Start(q), a);
            && (turn.Done? ==> turn.all == log[from..to]) && (turn.Continue? ==> turn.p.all == log[from..to])
            && (!a.more ==> turn.Done?)
  {
    CursorMissing(log, q, from, to);
    FirstIsUnseen(log, from, to);
    KeptWhole(q, Start(q), a, log[from..to]);
  }

  lemma NotSelected(log: seq<Entry>, q: Query, from: nat, to: nat, value: seq<Entry>)
    requires Distinct(Ids(log)) && from < to <= |log| && from < Behind(log, q) && log[from..to] <= value
    ensures !(value <= Selection(log, |log|, q))
  {
    var b, selected := Behind(log, q), Selection(log, |log|, q);
    assert value[0] == log[from..to][0] == log[from];
    if |selected| > 0 {
      assert selected[0] == log[b];
      assert Ids(log)[from] != Ids(log)[b];
    }
  }

  lemma CutIsNotSelected(server: Server, log: seq<Entry>, q: Query)
    requires Distinct(Ids(log)) && MaxOf(q.stop).Some? && Known(log, q) && ServesAhead(server, log, q)
    requires server(0, q).Ok? && EndsAhead(server(0, q).value, log, q)
    ensures var r := Read(server, 0, q.stop, Start(q)).result; r.Ok? ==> !(r.value <= Selection(log, |log|, q))
  {
    var a, from, to := AnsweredAhead(server, 0, log, q, q);
    EndsAheadMeans(a, log, q, from, to);
    FirstPageKept(log, q, a, from, to);
    var turn, r := Absorb(q.stop, Start(q), a), Read(server, 0, q.stop, Start(q)).result;
    ReadTurn(server, 0, q.stop, Start(q), a);
    if turn.Continue? {
      ReadExtends(server, 1, q.stop, turn.p);
    }
    if r.Ok? {
      NotSelected(log, q, from, to, r.value);
    }
  }

  lemma ReachedIsSelected(server: Server, log: seq<Entry>, q: Query)
    requires Distinct(Ids(log)) && MaxOf(q.stop).Some? && Known(log, q) && ServesAhead(server, log, q)
    requires ReachesFrom(server, 1, log, q) && server(0, q).Ok? && !EndsAhead(server(0, q).value, log, q)
    ensures var r := Read(server, 0, q.stop, Start(q)).result; r.Ok? ==> r.value <= Selection(log, |log|, q)
  {
    var p, b := Start(q), Behind(log, q);
    var a, from, to := AnsweredAhead(server, 0, log, q, q);
    StartReached(log, q);
    TurnAhead(log, q, p, b, b, a, from, to);
    ReadTurn(server, 0, q.stop, p, a);
    var turn := Absorb(q.stop, p, a);
    if turn.Continue? {
      AheadFrom(server, 1, log, q, turn.p);
    }
  }

  /** With a server of this kind whose continuations reach their cursors, a
      result is a beginning of the selection if and only if the first page does
      not end ahead of the cursor. A page that does is kept whole. */
  lemma AheadExactly(server: Server, log: seq<Entry>, q: Query)
    requires Distinct(Ids(log)) && MaxOf(q.stop).Some? && Known(log, q) && ServesAhead(server, log, q)
    requires ReachesFrom(server, 1, log, q) && Read(server, 0, q.stop, Start(q)).result.Ok?
    ensures server(0, q).Ok?
    ensures Read(server, 0, q.stop, Start(q)).result.value <= Selection(log, |log|, q)
            <==> !EndsAhead(server(0, q).value, log, q)
  {
    if EndsAhead(server(0, q).value, log, q) {
      CutIsNotSelected(server, log, q);
    } else {
      ReachedIsSelected(server, log, q);
    }
  }

  /** A server that always resumes with the first entry. */
  function FromTheStart(log: seq<Entry>): Server {
    (n: nat, r: Query) =>
      var limit := if MaxOf(r.stop).Some? then Min(|log|, MaxOf(r.stop).value) else |log|;
      Ok(Answer(log[..limit], false))
  }

  lemma FromTheStartServes(log: seq<Entry>, q: Query)
    ensures ServesAhead(FromTheStart(log), log, q)
  {
    var server := FromTheStart(log);
    forall n: nat, r: Query | SameSelection(q, r) && Known(log, r) && MaxOf(r.stop).Some?
      ensures server(n, r).Ok? && exists from, to :: PageAhead(server(n, r).value, log, r, from, to)
    {
      assert PageAhead(server(n, r).value, log, r, 0, Min(|log|, MaxOf(r.stop).value));
    }
  }

  lemma AfterSecond(log: seq<Entry>, q: Query)
    requires |log| == 3 && Distinct(Ids(log)) && q.stop == Some(Count(1))
    requires q.after.Some? && q.after.value.id == log[1].id
    ensures Known(log, q) && Behind(log, q) == 2 && Selection(log, 3, q) == [log[2]]
  {
    assert Ids(log)[1] == log[1].id;
    LastIndexDistinct(Ids(log), 1);
    assert log[2..3] == [log[2]];
  }

  /** The smallest read that returns an entry the query excludes: of three
      entries, after the second one, one is asked for, and the first comes. */
  lemma AheadReturnsExcluded(log: seq<Entry>, q: Query)
    requires |log| == 3 && Distinct(Ids(log)) && q.stop == Some(Count(1))
    requires q.after.Some? && q.after.value.id == log[1].id
    ensures ServesAhead(FromTheStart(log), log, q)
    ensures Read(FromTheStart(log), 0, q.stop, Start(q)).result == Ok([log[0]])
    ensures Selection(log, 3, q) == [log[2]]
  {
    var a := Answer(log[0..1], false);
    FromTheStartServes(log, q);
    AfterSecond(log, q);
    FirstPageKept(log, q, a, 0, 1);
    ReadTurn(FromTheStart(log), 0, q.stop, Start(q), a);
    assert log[0..1] == [log[0]];
  }
}
