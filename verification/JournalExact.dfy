/** Reading a journal from a server that keeps to its selection. */
module JournalExact {
  import opened Wrappers
  import opened Numbers
  import opened Sequences
  import opened RecencyList
  import opened Journal

  /** The first `n` entries are within the end time, the others past it. Every
      list of a server that applies the end time is of this form, and so is
      every list in the order of time. */
  predicate EndsAt(log: seq<Entry>, n: nat, stop: Option<RangeStop>) {
    && n <= |log|
    && (EndOf(stop).None? ==> n == |log|)
    && (EndOf(stop).Some? ==>
          && (forall i :: 0 <= i < n ==> log[i].timeMs <= EndOf(stop).value)
          && (forall i :: n <= i < |log| ==> log[i].timeMs > EndOf(stop).value))
  }

  /** The cursor of a request is an entry of the log. */
  predicate Known(log: seq<Entry>, q: Query) {
    q.after.Some? ==> q.after.value.id in Ids(log)
  }

  /** How many entries of the log a request has behind it. */
  function Behind(log: seq<Entry>, q: Query): (n: nat)
    ensures n <= |log|
  {
    if q.after.None? then 0 else LastIndex(Ids(log), q.after.value.id)
  }

  /** Where the selection of a request ends. */
  function Limit(log: seq<Entry>, q: Query): nat {
    if MaxOf(q.stop).Some? then Min(|log|, Behind(log, q) + MaxOf(q.stop).value) else |log|
  }

  /** A page is a stretch of the log that reaches from behind the cursor past it.
      It may begin with the cursor entry, or with any entries ahead of it such
      as those of the same time, which an entry count does not include. It
      passes the cursor while more follow. */
  predicate PageOf(a: Answer, log: seq<Entry>, q: Query, from: nat, to: nat) {
    && from <= Behind(log, q) <= to <= Limit(log, q)
    && a.page == log[from..to]
    && (a.more <==> to < Limit(log, q))
    && (a.more ==> to > Behind(log, q))
  }

  predicate SameSelection(q: Query, r: Query) {
    && q.start == r.start && q.variables == r.variables
    && EndOf(q.stop) == EndOf(r.stop)
    && (MaxOf(q.stop).Some? <==> MaxOf(r.stop).Some?)
  }

  ghost predicate Serves(server: Server, log: seq<Entry>, q: Query) {
    forall n: nat, r: Query {:trigger server(n, r)} :: SameSelection(q, r) && Known(log, r) ==>
      server(n, r).Ok? && exists from, to :: PageOf(server(n, r).value, log, r, from, to)
  }

  /** What a query selects. */
  function Selection(log: seq<Entry>, n: nat, q: Query): seq<Entry>
    requires n <= |log|
  {
    var from, to := Behind(log, q), Min(n, Limit(log, q));
    if from <= to then log[from..to] else []
  }

  // ----- The position of the cursor -----

  lemma LastIndexDistinct(ids: seq<EntryId>, k: nat)
    requires Distinct(ids) && k < |ids|
    ensures LastIndex(ids, ids[k]) == k + 1
  {
    LastIndexIsLast(ids, ids[k]);
  }

  lemma BehindIsCursor(log: seq<Entry>, q: Query)
    requires q.after.Some? && Known(log, q)
    ensures Behind(log, q) > 0 && log[Behind(log, q) - 1].id == q.after.value.id
  {
    LastIndexIsLast(Ids(log), q.after.value.id);
    assert Ids(log)[Behind(log, q) - 1] == q.after.value.id;
  }

  lemma CursorAt(ids: seq<EntryId>, at: nat, from: nat, to: nat)
    requires Distinct(ids) && from <= at + 1 <= to <= |ids|
    ensures LastIndex(ids[from..to], ids[at]) == at + 1 - from
  {
    var page, id := ids[from..to], ids[at];
    var k := LastIndex(page, id);
    LastIndexIsLast(page, id);
    assert k > 0 ==> page[k - 1] == ids[from + k - 1];
    assert from <= at ==> page[at - from] == id;
  }

  /** Dropping the entries up to the cursor leaves exactly those behind it. */
  lemma CursorDropped(log: seq<Entry>, q: Query, from: nat, to: nat)
    requires Distinct(Ids(log)) && Known(log, q) && from <= Behind(log, q) <= to <= |log|
    ensures AfterCursor(log[from..to], q.after) == log[Behind(log, q)..to]
  {
    var b := Behind(log, q);
    var page, ids := log[from..to], Ids(log);
    assert Ids(page) == ids[from..to];
    if q.after.Some? {
      BehindIsCursor(log, q);
      var id := q.after.value.id;
      var k := LastIndex(Ids(page), id);
      CursorAt(ids, b - 1, from, to);
      assert k == b - from;
      assert page[k..] == log[b..to];
    }
  }

  lemma NewAt(page: seq<Entry>, received: set<EntryId>, n: nat)
    requires New(page, received) && n < |page|
    ensures page[n].id !in received && page[n].id !in Ids(page[..n])
  {
    forall i | 0 <= i < n
      ensures Ids(page[..n])[i] != page[n].id
    {
      assert Ids(page)[i] != Ids(page)[n];
    }
  }

  lemma UnseenSnoc(front: seq<Entry>, last: Entry, received: set<EntryId>)
    requires last.id !in received && last.id !in Ids(front)
    ensures Unseen(front + [last], received) == Unseen(front, received) + [last]
  {
    assert (front + [last])[..|front|] == front;
  }

  predicate SameEntries(a: seq<Entry>, b: seq<Entry>, n: nat) {
    |a| == n <= |b| && forall i :: 0 <= i < n ==> a[i] == b[i]
  }

  lemma {:induction false} UnseenFirst(page: seq<Entry>, received: set<EntryId>, n: nat)
    requires New(page, received) && n <= |page|
    ensures SameEntries(Unseen(page[..n], received), page, n)
  {
    if n > 0 {
      UnseenFirst(page, received, n - 1);
      NewAt(page, received, n - 1);
      UnseenSnoc(page[..n - 1], page[n - 1], received);
      assert page[..n] == page[..n - 1] + [page[n - 1]];
    }
  }

  lemma UnseenAll(page: seq<Entry>, received: set<EntryId>)
    requires New(page, received)
    ensures Unseen(page, received) == page
  {
    UnseenFirst(page, received, |page|);
    assert page[..|page|] == page;
  }

  /** The entries of a stretch of the log are new when those received are from
      another stretch ahead of it. */
  lemma StretchIsNew(log: seq<Entry>, a: nat, b: nat, c: nat)
    requires Distinct(Ids(log)) && a <= b <= c <= |log|
    ensures New(log[b..c], IdSet(log[a..b]))
  {
    var page, ids := log[b..c], Ids(log);
    assert Ids(page) == ids[b..c];
    forall i, e | 0 <= i < |page| && e in log[a..b]
      ensures page[i].id != e.id
    {
      var k :| a <= k < b && log[k] == e;
      assert ids[k] == e.id && ids[b + i] == page[i].id;
    }
  }

  lemma {:induction false} WithinEndCut(log: seq<Entry>, n: nat, stop: Option<RangeStop>, a: nat, b: nat)
    requires EndsAt(log, n, stop) && EndOf(stop).Some? && a <= b <= |log|
    ensures WithinEnd(log[a..b], EndOf(stop).value) == if a <= n then log[a..Min(n, b)] else []
    decreases b
  {
    if a < b {
      var page := log[a..b];
      assert page[..|page| - 1] == log[a..b - 1] && page[|page| - 1] == log[b - 1];
      WithinEndCut(log, n, stop, a, b - 1);
    }
  }

  // ----- The walk -----

  /** The walk has read the log from `b0` up to `b`. */
  predicate Reached(log: seq<Entry>, q: Query, p: Progress, b0: nat, b: nat) {
    && b0 == Behind(log, q) <= b <= |log|
    && SameSelection(q, p.next) && Known(log, p.next) && Behind(log, p.next) == b
    && p.all == log[b0..b] && p.received == IdSet(log[b0..b])
    && (MaxOf(q.stop).Some? ==>
          b - b0 <= MaxOf(q.stop).value && MaxOf(p.next.stop).value == MaxOf(q.stop).value - (b - b0))
  }

  lemma StartReached(log: seq<Entry>, q: Query)
    requires Known(log, q)
    ensures Reached(log, q, Start(q), Behind(log, q), Behind(log, q))
  {
    var b := Behind(log, q);
    assert log[b..b] == [];
  }

  /** What the walk sees of a page that reaches its cursor. */
  lemma PageSeen(log: seq<Entry>, q: Query, p: Progress, b0: nat, b: nat, a: Answer, from: nat, to: nat)
    requires Distinct(Ids(log)) && Reached(log, q, p, b0, b)
    requires from <= b <= to <= |log| && a.page == log[from..to]
    ensures AfterCursor(a.page, p.next.after) == log[b..to]
    ensures Unseen(log[b..to], p.received) == log[b..to]
  {
    CursorDropped(log, p.next, from, to);
    StretchIsNew(log, b0, b, to);
    UnseenAll(log[b..to], p.received);
  }

  lemma ContinuationReaches(log: seq<Entry>, q: Query, next: Query, b: nat, to: nat)
    requires Distinct(Ids(log)) && b < to <= |log| && SameSelection(q, next)
    ensures var r := Continuation(next, log[b..to]).value;
            && SameSelection(q, r) && Known(log, r) && Behind(log, r) == to
            && (MaxOf(next.stop).Some? && to - b <= MaxOf(next.stop).value ==>
                  MaxOf(r.stop).value == MaxOf(next.stop).value - (to - b))
  {
    var page := log[b..to];
    assert page[|page| - 1] == log[to - 1];
    assert Ids(log)[to - 1] == log[to - 1].id;
    LastIndexDistinct(Ids(log), to - 1);
  }

  lemma IdSetConcat(a: seq<Entry>, b: seq<Entry>)
    ensures IdSet(a + b) == IdSet(a) + IdSet(b)
  {
  }

  lemma ReachedOn(log: seq<Entry>, q: Query, p: Progress, b0: nat, b: nat, to: nat, p': Progress)
    requires Distinct(Ids(log)) && Reached(log, q, p, b0, b) && b < to <= Limit(log, p.next)
    requires var page := log[b..to];
             p' == Progress(Continuation(p.next, page).value, p.all + page, p.received + IdSet(page))
    ensures Reached(log, q, p', b0, to)
  {
    ContinuationReaches(log, q, p.next, b, to);
    Slices(log, b0, b, to);
    IdSetConcat(log[b0..b], log[b..to]);
  }

  /** A page that lets the walk continue brings it to the end of the page. */
  lemma ContinueReached(log: seq<Entry>, q: Query, p: Progress, b0: nat, b: nat, a: Answer, from: nat, to: nat,
                        p': Progress)
    requires Distinct(Ids(log)) && Reached(log, q, p, b0, b)
    requires from <= b <= to <= |log| && a.page == log[from..to]
    requires Absorb(q.stop, p, a) == Continue(p')
    ensures b < to
    ensures var page := log[b..to];
            p' == Progress(Continuation(p.next, page).value, p.all + page, p.received + IdSet(page))
  {
    PageSeen(log, q, p, b0, b, a, from, to);
    ContinueWith(q.stop, p, a, log[b..to], p');
  }

  lemma ContinueWith(stop: Option<RangeStop>, p: Progress, a: Answer, page: seq<Entry>, p': Progress)
    requires AfterCursor(a.page, p.next.after) == page && Unseen(page, p.received) == page
    requires Absorb(stop, p, a) == Continue(p')
    ensures |page| > 0
    ensures p' == Progress(Continuation(p.next, page).value, p.all + page, p.received + IdSet(page))
  {
    ContinueKeepsAll(stop, p, a);
  }

  /** What the walk does with the stretch of the log from `b` to `to`. */
  lemma SettleUncut(log: seq<Entry>, q: Query, p: Progress, b: nat, to: nat, more: bool)
    requires q.stop.None? && b <= to <= |log| && (more ==> b < to)
    ensures var turn := Settle(q.stop, p, log[b..to], log[b..to], more);
            !turn.Stuck? && (turn.Done? <==> !more) && (turn.Done? ==> turn.all == p.all + log[b..to])
  {
  }

  lemma SettleUntil(log: seq<Entry>, n: nat, q: Query, p: Progress, b: nat, to: nat, more: bool)
    requires EndsAt(log, n, q.stop) && EndOf(q.stop).Some? && b <= to <= |log| && (more ==> b < to)
    ensures var turn := Settle(q.stop, p, log[b..to], log[b..to], more);
            && !turn.Stuck? && (turn.Done? <==> !more || (n < to && b < to))
            && (turn.Done? ==> turn.all == p.all + if b <= n then log[b..Min(n, to)] else [])
  {
    WithinEndCut(log, n, q.stop, b, to);
  }

  lemma SettleCounted(log: seq<Entry>, q: Query, p: Progress, b: nat, to: nat, more: bool)
    requires MaxOf(q.stop).Some? && b <= to <= |log| && (more ==> b < to)
    requires |p.all| + (to - b) <= MaxOf(q.stop).value
    ensures var turn := Settle(q.stop, p, log[b..to], log[b..to], more);
            && !turn.Stuck? && (turn.Done? <==> !more || |p.all| + (to - b) == MaxOf(q.stop).value)
            && (turn.Done? ==> turn.all == p.all + log[b..to])
  {
    assert log[b..to][..to - b] == log[b..to];
  }

  /** Where a walk that has reached `b` may stand. */
  predicate OnTheWay(n: nat, b0: nat, b: nat) {
    b0 <= b && (b0 <= n ==> b <= n) && (n < b0 ==> b == b0)
  }

  lemma SettleIsExact(log: seq<Entry>, n: nat, q: Query, p: Progress, b0: nat, b: nat, to: nat, more: bool)
    requires EndsAt(log, n, q.stop) && OnTheWay(n, b0, b) && b0 == Behind(log, q)
    requires p.all == log[b0..b] && b <= to <= Limit(log, q) && (more <==> to < Limit(log, q)) && (more ==> b < to)
    ensures var turn := Settle(q.stop, p, log[b..to], log[b..to], more);
            && !turn.Stuck?
            && (turn.Done? ==> turn.all == Selection(log, n, q))
            && (turn.Continue? ==> to <= n)
  {
    Slices(log, b0, b, to);
    if q.stop.None? {
      SettleUncut(log, q, p, b, to, more);
    } else if EndOf(q.stop).Some? {
      SettleUntil(log, n, q, p, b, to, more);
      if b <= n {
        Slices(log, b0, b, Min(n, to));
      }
    } else {
      SettleCounted(log, q, p, b, to, more);
    }
  }

  lemma LimitKept(log: seq<Entry>, q: Query, p: Progress, b0: nat, b: nat)
    requires Reached(log, q, p, b0, b)
    ensures Limit(log, p.next) == Limit(log, q)
  {
  }

  lemma TurnIsExact(log: seq<Entry>, n: nat, q: Query, p: Progress, b0: nat, b: nat, a: Answer, from: nat, to: nat)
    requires Distinct(Ids(log)) && EndsAt(log, n, q.stop) && OnTheWay(n, b0, b)
    requires Reached(log, q, p, b0, b) && PageOf(a, log, p.next, from, to)
    ensures var turn := Absorb(q.stop, p, a);
            && !turn.Stuck?
            && (turn.Done? ==> turn.all == Selection(log, n, q))
            && (turn.Continue? ==> to <= n)
  {
    PageSeen(log, q, p, b0, b, a, from, to);
    LimitKept(log, q, p, b0, b);
    SettleIsExact(log, n, q, p, b0, b, to, a.more);
    assert Absorb(q.stop, p, a) == Settle(q.stop, p, log[b..to], log[b..to], a.more);
  }

  /** Where a walk stands that is on its way through the selection. */
  predicate Midway(log: seq<Entry>, n: nat, q: Query, p: Progress) {
    Reached(log, q, p, Behind(log, q), Behind(log, p.next)) && OnTheWay(n, Behind(log, q), Behind(log, p.next))
  }

  lemma Answered(server: Server, k: nat, log: seq<Entry>, q: Query, r: Query) returns (a: Answer, from: nat, to: nat)
    requires Serves(server, log, q) && SameSelection(q, r) && Known(log, r)
    ensures server(k, r) == Ok(a) && PageOf(a, log, r, from, to)
  {
    a := server(k, r).value;
    from, to :| PageOf(a, log, r, from, to);
  }

  lemma MidwayTurn(log: seq<Entry>, n: nat, q: Query, p: Progress, a: Answer, from: nat, to: nat)
    requires Distinct(Ids(log)) && EndsAt(log, n, q.stop) && Midway(log, n, q, p) && PageOf(a, log, p.next, from, to)
    ensures match Absorb(q.stop, p, a)
            case Done(all) => all == Selection(log, n, q)
            case Stuck => false
            case Continue(p') => Midway(log, n, q, p')
  {
    var b0, b := Behind(log, q), Behind(log, p.next);
    TurnIsExact(log, n, q, p, b0, b, a, from, to);
    var turn := Absorb(q.stop, p, a);
    if turn.Continue? {
      ContinueReached(log, q, p, b0, b, a, from, to, turn.p);
      ReachedOn(log, q, p, b0, b, to, turn.p);
    }
  }

  /** Exactness: over a log with distinct EntryIDs, a server that resumes after
      the cursor, at it or ahead of it reads to exactly the selected entries in
      order, cut to the end time even when the server ignores it, and to the
      entry count when the server does not count what it sends again. */
  lemma Exact(server: Server, log: seq<Entry>, n: nat, q: Query)
    requires Distinct(Ids(log)) && EndsAt(log, n, q.stop) && Known(log, q) && Serves(server, log, q)
    ensures Read(server, 0, q.stop, Start(q)).result == Ok(Selection(log, n, q))
  {
    var inv, good := (p: Progress) => Midway(log, n, q, p), (all: seq<Entry>) => all == Selection(log, n, q);
    StartReached(log, q);
    forall k: nat, p: Progress | inv(p)
      ensures AnswerKeeps(server, q.stop, k, p, inv, good, false)
    {
      var a, from, to := Answered(server, k, log, q, p.next);
      MidwayTurn(log, n, q, p, a, from, to);
    }
    ReadKeeps(server, 0, q.stop, Start(q), inv, good, false);
  }

  // ----- A server that counts the cursor entry -----

  /** A page that begins with the cursor entry, which its entry count includes. */
  predicate PageAtCursor(a: Answer, log: seq<Entry>, q: Query, to: nat)
    requires MaxOf(q.stop).Some?
  {
    var from := SaturatingSub(Behind(log, q), 1);
    var limit := Min(|log|, from + MaxOf(q.stop).value);
    && from <= to <= limit
    && a.page == log[from..to]
    && (a.more <==> to < limit)
    && (a.more ==> to > Behind(log, q))
  }

  ghost predicate ServesAtCursor(server: Server, log: seq<Entry>, q: Query) {
    forall n: nat, r: Query {:trigger server(n, r)} ::
      SameSelection(q, r) && Known(log, r) && MaxOf(r.stop).Some? ==>
        server(n, r).Ok? && exists to :: PageAtCursor(server(n, r).value, log, r, to)
  }

  /** Where a walk ends once it resumes at a cursor: one entry early. */
  function ShortEnd(log: seq<Entry>, q: Query): nat
    requires MaxOf(q.stop).Some? && MaxOf(q.stop).value > 0
  {
    Min(|log|, Behind(log, q) + MaxOf(q.stop).value - 1)
  }

  /** Each such page is cut at that same entry. */
  lemma CutAtCursor(log: seq<Entry>, q: Query, p: Progress, b0: nat, b: nat, a: Answer, to: nat)
    requires MaxOf(q.stop).Some? && MaxOf(q.stop).value > 0 && Reached(log, q, p, b0, b) && p.next.after.Some?
    requires b <= ShortEnd(log, q) && PageAtCursor(a, log, p.next, to)
    ensures 0 < b <= to <= ShortEnd(log, q) && a.page == log[b - 1..to]
    ensures (a.more <==> to < ShortEnd(log, q)) && (a.more ==> b < to)
  {
    BehindIsCursor(log, p.next);
  }

  /** What a counted stretch of the log makes of the walk. */
  lemma TurnCounted(log: seq<Entry>, q: Query, p: Progress, b0: nat, b: nat, a: Answer, from: nat, to: nat)
    requires Distinct(Ids(log)) && MaxOf(q.stop).Some? && Reached(log, q, p, b0, b)
    requires from <= b <= to <= |log| && a.page == log[from..to] && (a.more ==> b < to)
    requires to - b0 <= MaxOf(q.stop).value && (a.more ==> to - b0 < MaxOf(q.stop).value)
    ensures var turn := Absorb(q.stop, p, a);
            !turn.Stuck? && (turn.Done? <==> !a.more || to - b0 == MaxOf(q.stop).value)
            && (turn.Done? ==> turn.all == log[b0..to])
  {
    PageSeen(log, q, p, b0, b, a, from, to);
    SettleCounted(log, q, p, b, to, a.more);
    Slices(log, b0, b, to);
    assert Absorb(q.stop, p, a) == Settle(q.stop, p, log[b..to], log[b..to], a.more);
  }

  /** The walk that a page continues has reached the end of the page. */
  lemma ReachedNext(log: seq<Entry>, q: Query, p: Progress, b0: nat, b: nat, a: Answer, from: nat, to: nat,
                    p': Progress)
    requires Distinct(Ids(log)) && Reached(log, q, p, b0, b)
    requires from <= b <= to <= Limit(log, p.next) && a.page == log[from..to]
    requires Absorb(q.stop, p, a) == Continue(p')
    ensures b < to && Reached(log, q, p', b0, to) && p'.next.after.Some?
  {
    ContinueReached(log, q, p, b0, b, a, from, to, p');
    ReachedOn(log, q, p, b0, b, to, p');
  }

  lemma AnsweredAtCursor(server: Server, k: nat, log: seq<Entry>, q: Query, r: Query) returns (a: Answer, to: nat)
    requires ServesAtCursor(server, log, q) && SameSelection(q, r) && Known(log, r) && MaxOf(r.stop).Some?
    ensures server(k, r) == Ok(a) && PageAtCursor(a, log, r, to)
  {
    a := server(k, r).value;
    to :| PageAtCursor(a, log, r, to);
  }

  /** Where a walk stands that resumes at its cursor. */
  predicate Resumed(log: seq<Entry>, q: Query, p: Progress)
    requires MaxOf(q.stop).Some? && MaxOf(q.stop).value > 0
  {
    && p.next.after.Some? && Reached(log, q, p, Behind(log, q), Behind(log, p.next))
    && Behind(log, p.next) <= ShortEnd(log, q)
  }

  lemma ShortTurn(log: seq<Entry>, q: Query, p: Progress, a: Answer, to: nat)
    requires Distinct(Ids(log)) && MaxOf(q.stop).Some? && MaxOf(q.stop).value > 0
    requires Resumed(log, q, p) && PageAtCursor(a, log, p.next, to)
    ensures match Absorb(q.stop, p, a)
            case Done(all) => all == log[Behind(log, q)..ShortEnd(log, q)]
            case Stuck => false
            case Continue(p') => Resumed(log, q, p')
  {
    var b0, b := Behind(log, q), Behind(log, p.next);
    ShortStretch(log, q, p, b0, b, a, to);
    var turn := Absorb(q.stop, p, a);
    if turn.Continue? {
      ReachedNext(log, q, p, b0, b, a, b - 1, to, turn.p);
    }
  }

  /** Such a page ends the walk exactly when it reaches that entry. */
  lemma ShortStretch(log: seq<Entry>, q: Query, p: Progress, b0: nat, b: nat, a: Answer, to: nat)
    requires Distinct(Ids(log)) && MaxOf(q.stop).Some? && MaxOf(q.stop).value > 0 && Reached(log, q, p, b0, b)
    requires p.next.after.Some? && b <= ShortEnd(log, q) && PageAtCursor(a, log, p.next, to)
    ensures 0 < b <= to <= ShortEnd(log, q) && a.page == log[b - 1..to]
    ensures var turn := Absorb(q.stop, p, a);
            !turn.Stuck? && (turn.Done? ==> to == ShortEnd(log, q) && turn.all == log[b0..to])
  {
    CutAtCursor(log, q, p, b0, b, a, to);
    TurnCounted(log, q, p, b0, b, a, b - 1, to);
  }

  lemma ShortFrom(server: Server, k: nat, log: seq<Entry>, q: Query, p: Progress)
    requires Distinct(Ids(log)) && MaxOf(q.stop).Some? && MaxOf(q.stop).value > 0 && ServesAtCursor(server, log, q)
    requires Resumed(log, q, p)
    ensures Read(server, k, q.stop, p).result == Ok(log[Behind(log, q)..ShortEnd(log, q)])
  {
    var short := log[Behind(log, q)..ShortEnd(log, q)];
    var inv, good := (w: Progress) => Resumed(log, q, w), (all: seq<Entry>) => all == short;
    forall n: nat, w: Progress | n >= k && inv(w)
      ensures AnswerKeeps(server, q.stop, n, w, inv, good, false)
    {
      var a, to := AnsweredAtCursor(server, n, log, q, w.next);
      ShortTurn(log, q, w, a, to);
    }
    ReadKeeps(server, k, q.stop, p, inv, good, false);
  }

  /** What the first page of a read without a cursor makes of the walk. */
  lemma FirstTurn(log: seq<Entry>, q: Query, a: Answer, to: nat)
    requires Distinct(Ids(log)) && MaxOf(q.stop).Some? && q.after.None? && PageAtCursor(a, log, q, to)
    ensures match Absorb(q.stop, Start(q), a)
            case Done(all) => !a.more && all == Selection(log, |log|, q)
            case Stuck => false
            case Continue(p) => a.more && MaxOf(q.stop).value > 0 && Resumed(log, q, p)
  {
    StartReached(log, q);
    TurnCounted(log, q, Start(q), 0, 0, a, 0, to);
    var turn := Absorb(q.stop, Start(q), a);
    if turn.Continue? {
      ReachedNext(log, q, Start(q), 0, 0, a, 0, to, turn.p);
    }
  }

  /** The first page of a read without a cursor. */
  lemma FirstPage(server: Server, log: seq<Entry>, q: Query)
    requires Distinct(Ids(log)) && MaxOf(q.stop).Some? && q.after.None? && ServesAtCursor(server, log, q)
    requires MaxOf(q.stop).value > 0
    ensures server(0, q).Ok?
    ensures Read(server, 0, q.stop, Start(q)).result
            == Ok(if server(0, q).value.more then log[Behind(log, q)..ShortEnd(log, q)]
                  else Selection(log, |log|, q))
  {
    var a, to := AnsweredAtCursor(server, 0, log, q, q);
    FirstTurn(log, q, a, to);
    ReadTurn(server, 0, q.stop, Start(q), a);
    var turn := Absorb(q.stop, Start(q), a);
    if turn.Continue? {
      ShortFrom(server, 1, log, q, turn.p);
    }
  }

  /** A read that begins with a cursor. */
  lemma FromCursor(server: Server, log: seq<Entry>, q: Query)
    requires Distinct(Ids(log)) && MaxOf(q.stop).Some? && MaxOf(q.stop).value > 0 && q.after.Some?
    requires Known(log, q) && ServesAtCursor(server, log, q)
    ensures server(0, q).Ok?
    ensures Read(server, 0, q.stop, Start(q)).result == Ok(log[Behind(log, q)..ShortEnd(log, q)])
  {
    StartReached(log, q);
    ShortFrom(server, 0, log, q, Start(q));
  }

  /** A cursor with no entry to count reads nothing. */
  lemma NothingCounted(server: Server, log: seq<Entry>, q: Query)
    requires Distinct(Ids(log)) && MaxOf(q.stop) == Some(0) && Known(log, q) && ServesAtCursor(server, log, q)
    ensures server(0, q).Ok? && Read(server, 0, q.stop, Start(q)).result == Ok(Selection(log, |log|, q))
  {
    var a, _ := AnsweredAtCursor(server, 0, log, q, q);
    assert Absorb(q.stop, Start(q), a) == Done([]);
    ReadTurn(server, 0, q.stop, Start(q), a);
    var b := Behind(log, q);
    assert log[b..b] == [];
  }

  /** A read of this kind that is not cut short: nothing is asked for, or the
      first request, without a cursor, is the only one. */
  predicate Whole(server: Server, q: Query) {
    MaxOf(q.stop) == Some(0) || (q.after.None? && server(0, q).Ok? && !server(0, q).value.more)
  }

  /** What is read of such a server. */
  lemma ReadAtCursor(server: Server, log: seq<Entry>, q: Query)
    requires Distinct(Ids(log)) && MaxOf(q.stop).Some? && Known(log, q) && ServesAtCursor(server, log, q)
    ensures server(0, q).Ok?
    ensures MaxOf(q.stop).value > 0 || Whole(server, q)
    ensures Read(server, 0, q.stop, Start(q)).result
            == Ok(if Whole(server, q) then Selection(log, |log|, q) else log[Behind(log, q)..ShortEnd(log, q)])
  {
    if MaxOf(q.stop).value == 0 {
      NothingCounted(server, log, q);
    } else if q.after.None? {
      FirstPage(server, log, q);
    } else {
      FromCursor(server, log, q);
    }
  }

  /** One entry early is early only when the log goes on. */
  lemma ShortIsSelection(log: seq<Entry>, q: Query)
    requires MaxOf(q.stop).Some? && MaxOf(q.stop).value > 0
    ensures log[Behind(log, q)..ShortEnd(log, q)] == Selection(log, |log|, q)
            <==> |log| < Behind(log, q) + MaxOf(q.stop).value
  {
    var b, m := Behind(log, q), MaxOf(q.stop).value;
    var short, full := log[b..Min(|log|, b + m - 1)], log[b..Min(|log|, b + m)];
    assert |short| == Min(|log|, b + m - 1) - b && |full| == Min(|log|, b + m) - b;
  }

  /** With an entry count, a server that resumes at the cursor and counts that
      entry is read exactly if and only if the read takes no resumed request, or
      the log ends within the count: every resumed request spends one of its
      count on an entry received before, so the read ends one entry early. */
  lemma CountedAtCursor(server: Server, log: seq<Entry>, q: Query)
    requires Distinct(Ids(log)) && MaxOf(q.stop).Some? && Known(log, q) && ServesAtCursor(server, log, q)
    ensures Read(server, 0, q.stop, Start(q)).result == Ok(Selection(log, |log|, q))
            <==> Whole(server, q) || |log| < Behind(log, q) + MaxOf(q.stop).value
  {
    ReadAtCursor(server, log, q);
    if !Whole(server, q) {
      ShortIsSelection(log, q);
    }
  }

  /** A server of this kind that sends one new entry at a time. */
  function OneAtATime(log: seq<Entry>): Server {
    (n: nat, r: Query) =>
      var from := SaturatingSub(Behind(log, r), 1);
      var limit := Min(|log|, from + if MaxOf(r.stop).Some? then MaxOf(r.stop).value else |log|);
      var to := Min(limit, Behind(log, r) + 1);
      Ok(Answer(log[from..to], to < limit))
  }

  lemma OneAtATimeServes(log: seq<Entry>, q: Query)
    ensures ServesAtCursor(OneAtATime(log), log, q)
  {
    var server := OneAtATime(log);
    forall n: nat, r: Query | SameSelection(q, r) && Known(log, r) && MaxOf(r.stop).Some?
      ensures server(n, r).Ok? && exists to :: PageAtCursor(server(n, r).value, log, r, to)
    {
      var limit := Min(|log|, SaturatingSub(Behind(log, r), 1) + MaxOf(r.stop).value);
      assert PageAtCursor(server(n, r).value, log, r, Min(limit, Behind(log, r) + 1));
    }
  }

  lemma FirstOfTwo(log: seq<Entry>, q: Query)
    requires |log| == 2 && q.after.None? && q.stop == Some(Count(2))
    ensures !Whole(OneAtATime(log), q) && Behind(log, q) == 0 && ShortEnd(log, q) == 1
  {
  }

  /** The smallest such read: of two entries one is missing. */
  lemma InclusiveCountFallsShort(log: seq<Entry>, q: Query)
    requires |log| == 2 && log[0].id != log[1].id && q.after.None? && q.stop == Some(Count(2))
    ensures Read(OneAtATime(log), 0, q.stop, Start(q)).result == Ok([log[0]])
    ensures Selection(log, 2, q) == log
  {
    assert Ids(log)[0] != Ids(log)[1];
    OneAtATimeServes(log, q);
    FirstOfTwo(log, q);
    ReadAtCursor(OneAtATime(log), log, q);
    assert log[0..1] == [log[0]] && log[0..2] == log;
  }
}
