/** Reading a journal page by page from a server that may answer anything. */
module Journal {
  import opened Wrappers
  import opened Bytes
  import opened Numbers
  import opened Sequences
  import opened RecencyList
  import opened MmsData

  /** An EntryID, eight octets read as a number. */
  type EntryId = U64

  const ENTRY_IDS: nat := 0x1_0000_0000_0000_0000

  datatype LoggedValue = LoggedValue(dataRef: string, value: MmsValue, reasonCode: Byte)

  datatype Entry = Entry(id: EntryId, timeMs: U64, variables: seq<LoggedValue>)

  datatype Cursor = Cursor(timeMs: U64, id: EntryId)

  datatype RangeStart = FromTime(ms: U64) | FromEntry(id: EntryId)

  datatype RangeStop = UntilTime(ms: U64) | Count(n: U32)

  datatype Query = Query(start: Option<RangeStart>, stop: Option<RangeStop>, variables: seq<string>,
                         after: Option<Cursor>)

  /** The response to one ReadJournal request. */
  datatype Answer = Answer(page: seq<Entry>, more: bool)

  /** The errors of a request, and the one the walk adds. */
  datatype JournalError = NotConnected | InvalidArgument | Refused | JournalNotAdvancing

  /** A server: any answer to the n-th request. */
  type Server = (nat, Query) -> Result<Answer, JournalError>

  function Ids(page: seq<Entry>): (ids: seq<EntryId>)
    ensures |ids| == |page|
    ensures forall i :: 0 <= i < |ids| ==> ids[i] == page[i].id
  {
    seq(|page|, i requires 0 <= i < |page| => page[i].id)
  }

  // ----- One page -----

  /** The entries behind the last occurrence of the cursor entry; the whole page
      when it does not hold it. */
  function AfterCursor(page: seq<Entry>, after: Option<Cursor>): seq<Entry> {
    if after.None? then page else page[LastIndex(Ids(page), after.value.id)..]
  }

  /** The entries whose EntryID was not received before, each once. */
  function Unseen(page: seq<Entry>, received: set<EntryId>): seq<Entry> {
    if |page| == 0 then []
    else
      var front, last := page[..|page| - 1], page[|page| - 1];
      Unseen(front, received) + if last.id in received || last.id in Ids(front) then [] else [last]
  }

  function IdSet(page: seq<Entry>): set<EntryId> {
    set e | e in page :: e.id
  }

  function WithinEnd(page: seq<Entry>, end: U64): seq<Entry> {
    if |page| == 0 then []
    else
      var last := page[|page| - 1];
      WithinEnd(page[..|page| - 1], end) + if last.timeMs <= end then [last] else []
  }

  function EndOf(stop: Option<RangeStop>): Option<U64> {
    if stop.Some? && stop.value.UntilTime? then Some(stop.value.ms) else None
  }

  function MaxOf(stop: Option<RangeStop>): Option<nat> {
    if stop.Some? && stop.value.Count? then Some(stop.value.n) else None
  }

  /** The request that resumes after a page. */
  function Continuation(q: Query, page: seq<Entry>): Option<Query> {
    if |page| == 0 then None
    else
      var last := page[|page| - 1];
      Some(Query(q.start,
                 if q.stop.Some? && q.stop.value.Count? then
                   Some(Count(SaturatingSub(q.stop.value.n, Min(|page|, U32_MAX))))
                 else q.stop,
                 q.variables, Some(Cursor(last.timeMs, last.id))))
  }

  // ----- The walk -----

  datatype Progress = Progress(next: Query, all: seq<Entry>, received: set<EntryId>)

  datatype Turn = Done(all: seq<Entry>) | Stuck | Continue(p: Progress)

  /** The entries of a page not past the end time. */
  function Timely(stop: Option<RangeStop>, page: seq<Entry>): seq<Entry> {
    if EndOf(stop).Some? then WithinEnd(page, EndOf(stop).value) else page
  }

  /** The entries of a page that the count leaves room for. */
  function Counted(stop: Option<RangeStop>, have: nat, page: seq<Entry>): seq<Entry> {
    if MaxOf(stop).Some? then page[..Min(|page|, SaturatingSub(MaxOf(stop).value, have))] else page
  }

  /** What the unseen entries of a page change; `resumed` are all those behind
      the cursor. */
  function Settle(stop: Option<RangeStop>, p: Progress, resumed: seq<Entry>, unseen: seq<Entry>, more: bool): Turn {
    var timely := Timely(stop, unseen);
    var kept := Counted(stop, |p.all|, timely);
    var full := MaxOf(stop).Some? && |p.all| + |kept| >= MaxOf(stop).value;
    if !more || |timely| < |unseen| || full then Done(p.all + kept)
    else
      match Continuation(p.next, kept)
      case None => Stuck
      case Some(next) => Continue(Progress(next, p.all + kept, p.received + IdSet(resumed)))
  }

  /** What a page changes. */
  function Absorb(stop: Option<RangeStop>, p: Progress, a: Answer): Turn {
    var resumed := AfterCursor(a.page, p.next.after);
    Settle(stop, p, resumed, Unseen(resumed, p.received), a.more)
  }

  /** The outcome of a walk and the pages it received. */
  datatype Reading = Reading(result: Result<seq<Entry>, JournalError>, pages: seq<seq<Entry>>)

  /** The walk from the n-th request on. It ends against any server: a page
      that continues it brings an EntryID not received before. */
  function Read(server: Server, n: nat, stop: Option<RangeStop>, p: Progress): Reading
    decreases ENTRY_IDS - |p.received|
  {
    match server(n, p.next)
    case Err(e) => Reading(Err(e), [])
    case Ok(a) =>
      match Absorb(stop, p, a)
      case Done(all) => Reading(Ok(all), [a.page])
      case Stuck => Reading(Err(JournalNotAdvancing), [a.page])
      case Continue(p') =>
        ReceivedGrows(stop, p, a);
        var rest := Read(server, n + 1, stop, p');
        Reading(rest.result, [a.page] + rest.pages)
  }

  function Start(q: Query): Progress {
    Progress(q, [], {})
  }

  // ----- Termination -----

  lemma {:induction false} BelowBound(s: set<EntryId>, n: nat)
    requires forall x :: x in s ==> x < n
    ensures |s| <= n
  {
    if n == 0 {
      assert s == {};
    } else {
      BelowBound(s - {n - 1}, n - 1);
    }
  }

  lemma {:induction false} UnseenIsNew(page: seq<Entry>, received: set<EntryId>)
    ensures forall e :: e in Unseen(page, received) ==> e in page && e.id !in received
  {
    if |page| > 0 {
      UnseenIsNew(page[..|page| - 1], received);
    }
  }

  lemma {:induction false} WithinEndKeeps(page: seq<Entry>, end: U64)
    ensures forall e :: e in WithinEnd(page, end) ==> e in page && e.timeMs <= end
    ensures |WithinEnd(page, end)| <= |page|
    ensures |WithinEnd(page, end)| == |page| ==> WithinEnd(page, end) == page
  {
    if |page| > 0 {
      WithinEndKeeps(page[..|page| - 1], end);
      assert page == page[..|page| - 1] + [page[|page| - 1]];
    }
  }

  /** A page that lets the walk continue loses nothing to the end time or the
      count. */
  lemma ContinueKeepsAll(stop: Option<RangeStop>, p: Progress, a: Answer)
    requires Absorb(stop, p, a).Continue?
    ensures var resumed := AfterCursor(a.page, p.next.after);
            var unseen := Unseen(resumed, p.received);
            && |unseen| > 0
            && Absorb(stop, p, a).p
               == Progress(Continuation(p.next, unseen).value, p.all + unseen, p.received + IdSet(resumed))
  {
    var unseen := Unseen(AfterCursor(a.page, p.next.after), p.received);
    if EndOf(stop).Some? {
      WithinEndKeeps(unseen, EndOf(stop).value);
    }
  }

  lemma ReceivedGrows(stop: Option<RangeStop>, p: Progress, a: Answer)
    requires Absorb(stop, p, a).Continue?
    ensures |p.received| < |Absorb(stop, p, a).p.received| <= ENTRY_IDS
  {
    var resumed := AfterCursor(a.page, p.next.after);
    ContinueKeepsAll(stop, p, a);
    UnseenIsNew(resumed, p.received);
    var received := p.received + IdSet(resumed);
    var first := Unseen(resumed, p.received)[0];
    assert first.id in received && first.id !in p.received;
    CardinalityGrows(p.received, received, first.id);
    BelowBound(received, ENTRY_IDS);
  }

  lemma CardinalityGrows<T>(a: set<T>, b: set<T>, x: T)
    requires a <= b && x in b && x !in a
    ensures |a| < |b|
  {
    var rest := b - a;
    assert b == a + rest;
    assert x in rest;
  }

  // ----- Any server -----

  /** What the walk promises of a result: distinct EntryIDs, nothing past the end
      time and no more than the count. */
  predicate Sane(stop: Option<RangeStop>, all: seq<Entry>) {
    && Distinct(Ids(all))
    && (EndOf(stop).Some? ==> forall e :: e in all ==> e.timeMs <= EndOf(stop).value)
    && (MaxOf(stop).Some? ==> |all| <= MaxOf(stop).value)
  }

  /** Distinct EntryIDs, none of them received before. */
  predicate New(page: seq<Entry>, received: set<EntryId>) {
    Distinct(Ids(page)) && forall i :: 0 <= i < |page| ==> page[i].id !in received
  }

  lemma NewCons(e: Entry, rest: seq<Entry>, received: set<EntryId>)
    requires New(rest, received) && e.id !in received && forall x :: x in rest ==> x.id != e.id
    ensures New([e] + rest, received)
  {
    assert forall i :: 0 <= i < |rest| ==> rest[i] in rest;
  }

  lemma NewSnoc(front: seq<Entry>, e: Entry, received: set<EntryId>)
    requires New(front, received) && e.id !in received && forall x :: x in front ==> x.id != e.id
    ensures New(front + [e], received)
  {
    assert forall i :: 0 <= i < |front| ==> front[i] in front;
  }

  lemma NewTail(page: seq<Entry>, received: set<EntryId>)
    requires |page| > 0 && New(page, received)
    ensures New(page[1..], received) && page[0].id !in received
    ensures forall x :: x in page[1..] ==> x.id != page[0].id
  {
    var ids := Ids(page);
    assert Ids(page[1..]) == ids[1..];
    forall x | x in page[1..]
      ensures x.id != page[0].id
    {
      var k :| 1 <= k < |page| && page[k] == x;
      assert ids[k] == x.id && ids[0] == page[0].id;
    }
  }

  lemma {:induction false} SubsequenceNew(a: seq<Entry>, b: seq<Entry>, received: set<EntryId>)
    requires Subsequence(a, b) && New(b, received)
    ensures New(a, received)
    decreases |b|
  {
    if |a| > 0 {
      NewTail(b, received);
      if a[0] == b[0] && Subsequence(a[1..], b[1..]) {
        SubsequenceNew(a[1..], b[1..], received);
        SubsequenceWithin(a[1..], b[1..]);
        NewCons(a[0], a[1..], received);
        assert a == [a[0]] + a[1..];
      } else {
        SubsequenceNew(a, b[1..], received);
      }
    }
  }

  lemma IdKnown(page: seq<Entry>, e: Entry)
    requires e in page
    ensures e.id in Ids(page)
  {
    var k :| 0 <= k < |page| && page[k] == e;
    assert Ids(page)[k] == e.id;
  }

  lemma {:induction false} UnseenNew(page: seq<Entry>, received: set<EntryId>)
    ensures New(Unseen(page, received), received) && Subsequence(Unseen(page, received), page)
  {
    if |page| > 0 {
      var front, last := page[..|page| - 1], page[|page| - 1];
      var before := Unseen(front, received);
      UnseenNew(front, received);
      assert page == front + [last];
      if last.id in received || last.id in Ids(front) {
        SubsequenceAppend(before, front, [], [last]);
        assert before + [] == before;
      } else {
        SubsequenceAppend(before, front, [last], [last]);
        UnseenIsNew(front, received);
        forall x | x in before
          ensures x.id != last.id
        {
          IdKnown(front, x);
        }
        NewSnoc(before, last, received);
      }
    }
  }

  lemma {:induction false} WithinEndSubsequence(page: seq<Entry>, end: U64)
    ensures Subsequence(WithinEnd(page, end), page)
  {
    if |page| > 0 {
      var front, last := page[..|page| - 1], page[|page| - 1];
      WithinEndSubsequence(front, end);
      assert page == front + [last];
      SubsequenceAppend(WithinEnd(front, end), front, if last.timeMs <= end then [last] else [], [last]);
    }
  }

  /** The entries a page contributes. */
  function Kept(stop: Option<RangeStop>, p: Progress, a: Answer): seq<Entry> {
    Counted(stop, |p.all|, Timely(stop, Unseen(AfterCursor(a.page, p.next.after), p.received)))
  }

  lemma KeptNew(stop: Option<RangeStop>, p: Progress, a: Answer)
    ensures New(Kept(stop, p, a), p.received) && Subsequence(Kept(stop, p, a), a.page)
    ensures EndOf(stop).Some? ==> forall e :: e in Kept(stop, p, a) ==> e.timeMs <= EndOf(stop).value
  {
    var resumed := AfterCursor(a.page, p.next.after);
    var unseen := Unseen(resumed, p.received);
    var timely := Timely(stop, unseen);
    var kept := Kept(stop, p, a);
    AfterCursorSubsequence(a.page, p.next.after);
    UnseenNew(resumed, p.received);
    TimelySubsequence(stop, unseen);
    CountedSubsequence(stop, |p.all|, timely);
    SubsequenceWithin(kept, timely);
    SubsequenceTransitive(kept, timely, unseen);
    SubsequenceNew(kept, unseen, p.received);
    SubsequenceTransitive(kept, unseen, resumed);
    SubsequenceTransitive(kept, resumed, a.page);
  }

  lemma AfterCursorSubsequence(page: seq<Entry>, after: Option<Cursor>)
    ensures Subsequence(AfterCursor(page, after), page)
  {
    SuffixSubsequence(page, |page| - |AfterCursor(page, after)|);
  }

  lemma TimelySubsequence(stop: Option<RangeStop>, page: seq<Entry>)
    ensures Subsequence(Timely(stop, page), page)
    ensures EndOf(stop).Some? ==> forall e :: e in Timely(stop, page) ==> e.timeMs <= EndOf(stop).value
  {
    if EndOf(stop).Some? {
      WithinEndSubsequence(page, EndOf(stop).value);
      WithinEndKeeps(page, EndOf(stop).value);
    } else {
      SubsequenceSelf(page);
    }
  }

  lemma CountedSubsequence(stop: Option<RangeStop>, have: nat, page: seq<Entry>)
    ensures Subsequence(Counted(stop, have, page), page)
  {
    PrefixSubsequence(page, |Counted(stop, have, page)|);
    assert page[..|page|] == page;
  }

  /** Appending what a page contributes keeps the promise. */
  lemma SaneStep(stop: Option<RangeStop>, p: Progress, a: Answer)
    requires Sane(stop, p.all) && forall e :: e in p.all ==> e.id in p.received
    ensures Sane(stop, p.all + Kept(stop, p, a))
  {
    KeptNew(stop, p, a);
    KeptFits(stop, p, a);
    DistinctOn(p.all, Kept(stop, p, a), p.received);
  }

  lemma KeptFits(stop: Option<RangeStop>, p: Progress, a: Answer)
    requires MaxOf(stop).Some? ==> |p.all| <= MaxOf(stop).value
    ensures MaxOf(stop).Some? ==> |p.all| + |Kept(stop, p, a)| <= MaxOf(stop).value
  {
  }

  lemma DistinctOn(all: seq<Entry>, kept: seq<Entry>, received: set<EntryId>)
    requires Distinct(Ids(all)) && New(kept, received) && forall e :: e in all ==> e.id in received
    ensures Distinct(Ids(all + kept))
  {
    assert forall i :: 0 <= i < |all| ==> all[i].id in received;
    DistinctConcat(Ids(all), Ids(kept));
    assert Ids(all + kept) == Ids(all) + Ids(kept);
  }

  lemma ReceivedCovers(stop: Option<RangeStop>, p: Progress, a: Answer)
    requires Absorb(stop, p, a).Continue? && forall e :: e in p.all ==> e.id in p.received
    ensures var p' := Absorb(stop, p, a).p; forall e :: e in p'.all ==> e.id in p'.received
  {
    ContinueKeepsAll(stop, p, a);
    UnseenIsNew(AfterCursor(a.page, p.next.after), p.received);
  }

  /** A walk under way after the pages `before`. */
  predicate Underway(stop: Option<RangeStop>, p: Progress, before: seq<Entry>) {
    Sane(stop, p.all) && Subsequence(p.all, before) && forall e :: e in p.all ==> e.id in p.received
  }

  lemma TurnSane(stop: Option<RangeStop>, p: Progress, a: Answer, before: seq<Entry>)
    requires Underway(stop, p, before)
    ensures match Absorb(stop, p, a)
            case Done(all) => Sane(stop, all) && Subsequence(all, before + a.page)
            case Stuck => true
            case Continue(p') => Underway(stop, p', before + a.page)
  {
    var kept := Kept(stop, p, a);
    SaneStep(stop, p, a);
    KeptNew(stop, p, a);
    SubsequenceAppend(p.all, before, kept, a.page);
    var turn := Absorb(stop, p, a);
    if turn.Continue? {
      assert turn.p.all == p.all + kept;
      ReceivedCovers(stop, p, a);
    }
  }

  lemma ReadOn(server: Server, n: nat, stop: Option<RangeStop>, p: Progress, a: Answer, p': Progress)
    requires server(n, p.next) == Ok(a) && Absorb(stop, p, a) == Continue(p')
    ensures var rest := Read(server, n + 1, stop, p');
            Read(server, n, stop, p) == Reading(rest.result, [a.page] + rest.pages)
  {
  }

  /** One turn of the walk. */
  lemma ReadTurn(server: Server, n: nat, stop: Option<RangeStop>, p: Progress, a: Answer)
    requires server(n, p.next) == Ok(a)
    ensures Read(server, n, stop, p).result
            == match Absorb(stop, p, a)
               case Done(all) => Ok(all)
               case Stuck => Err(JournalNotAdvancing)
               case Continue(p') => Read(server, n + 1, stop, p').result
  {
  }

  // ----- What a walk keeps -----

  /** A turn keeps what holds of a walk under way, or ends it with a good
      result. */
  predicate Keeps(turn: Turn, inv: Progress -> bool, good: seq<Entry> -> bool, mayFail: bool) {
    match turn
    case Done(all) => good(all)
    case Stuck => mayFail
    case Continue(p) => inv(p)
  }

  predicate AnswerKeeps(server: Server, stop: Option<RangeStop>, k: nat, p: Progress, inv: Progress -> bool,
                        good: seq<Entry> -> bool, mayFail: bool)
  {
    match server(k, p.next)
    case Err(_) => mayFail
    case Ok(a) => Keeps(Absorb(stop, p, a), inv, good, mayFail)
  }

  /** What every turn from request `n` on keeps, the walk keeps. */
  lemma {:induction false} ReadKeeps(server: Server, n: nat, stop: Option<RangeStop>, p: Progress,
                                     inv: Progress -> bool, good: seq<Entry> -> bool, mayFail: bool)
    requires inv(p)
    requires forall k: nat, w: Progress :: k >= n && inv(w) ==> AnswerKeeps(server, stop, k, w, inv, good, mayFail)
    ensures var r := Read(server, n, stop, p).result; if r.Ok? then good(r.value) else mayFail
    decreases ENTRY_IDS - |p.received|
  {
    assert AnswerKeeps(server, stop, n, p, inv, good, mayFail);
    var answer := server(n, p.next);
    if answer.Ok? && Absorb(stop, p, answer.value).Continue? {
      ReceivedGrows(stop, p, answer.value);
      ReadKeeps(server, n + 1, stop, Absorb(stop, p, answer.value).p, inv, good, mayFail);
    }
  }

  /** The promise of a reading that began after the pages `before`. */
  predicate Promised(stop: Option<RangeStop>, r: Reading, before: seq<Entry>) {
    r.result.Ok? ==> Sane(stop, r.result.value) && Subsequence(r.result.value, before + Concat(r.pages))
  }

  lemma PromisedOn(stop: Option<RangeStop>, rest: Reading, before: seq<Entry>, page: seq<Entry>)
    requires Promised(stop, rest, before + page)
    ensures Promised(stop, Reading(rest.result, [page] + rest.pages), before)
  {
    ConcatFirst(page, rest.pages);
    assert before + page + Concat(rest.pages) == before + Concat([page] + rest.pages);
  }

  lemma PromisedDone(stop: Option<RangeStop>, all: seq<Entry>, before: seq<Entry>, page: seq<Entry>)
    requires Sane(stop, all) && Subsequence(all, before + page)
    ensures Promised(stop, Reading(Ok(all), [page]), before)
  {
    ConcatOne(page);
  }

  lemma {:induction false} AnyServerFrom(server: Server, n: nat, stop: Option<RangeStop>, p: Progress,
                                         before: seq<Entry>)
    requires Underway(stop, p, before)
    ensures Promised(stop, Read(server, n, stop, p), before)
    decreases ENTRY_IDS - |p.received|
  {
    var answer := server(n, p.next);
    if answer.Ok? {
      var a := answer.value;
      TurnSane(stop, p, a, before);
      var turn := Absorb(stop, p, a);
      if turn.Done? {
        PromisedDone(stop, turn.all, before, a.page);
      } else if turn.Continue? {
        ReceivedGrows(stop, p, a);
        AnyServerFrom(server, n + 1, stop, turn.p, before + a.page);
        PromisedOn(stop, Read(server, n + 1, stop, turn.p), before, a.page);
        ReadOn(server, n, stop, p, a, turn.p);
      }
    }
  }

  /** Whatever a server answers, the walk ends, and a result it returns has
      distinct EntryIDs, holds nothing past the end time and no more than the
      entry count, and is drawn in order from the pages received. */
  lemma AnyServer(server: Server, q: Query)
    ensures var r := Read(server, 0, q.stop, Start(q));
            r.result.Ok? ==> Sane(q.stop, r.result.value) && Subsequence(r.result.value, Concat(r.pages))
  {
    var r := Read(server, 0, q.stop, Start(q));
    AnyServerFrom(server, 0, q.stop, Start(q), []);
    assert [] + Concat(r.pages) == Concat(r.pages);
  }
}
