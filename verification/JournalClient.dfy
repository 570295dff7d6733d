/** The journal client as the program runs it. */
module JournalClient {
  import opened Wrappers
  import opened Bytes
  import opened Numbers
  import opened RecencyList
  import opened Journal

  /** How many entries reach up to the last one with this EntryID; 0 when there
      is none. */
  method LastPosition(page: seq<Entry>, id: EntryId) returns (k: nat)
    ensures k == LastIndex(Ids(page), id)
  {
    var ids := Ids(page);
    k := |page|;
    assert ids[..k] == ids;
    while k > 0 && page[k - 1].id != id
      invariant 0 <= k <= |page|
      invariant LastIndex(ids, id) == LastIndex(ids[..k], id)
    {
      assert ids[..k][..k - 1] == ids[..k - 1];
      k := k - 1;
    }
  }

  /** Retains the entries whose EntryID is inserted for the first time. */
  method RetainUnseen(received: set<EntryId>, page: seq<Entry>) returns (received': set<EntryId>, kept: seq<Entry>)
    ensures kept == Unseen(page, received) && received' == received + IdSet(page)
  {
    received', kept := received, [];
    var i := 0;
    while i < |page|
      invariant 0 <= i <= |page|
      invariant kept == Unseen(page[..i], received)
      invariant received' == received + IdSet(page[..i])
    {
      ReceivedNext(page, i, received);
      if page[i].id !in received' {
        received', kept := received' + {page[i].id}, kept + [page[i]];
      }
      i := i + 1;
    }
    assert page[..i] == page;
  }

  /** Keeps the entries of a page behind the cursor that were not received
      before, and adds their EntryIDs to those received. */
  method KeepNewEntries(after: Option<Cursor>, received: set<EntryId>, page: seq<Entry>)
    returns (received': set<EntryId>, kept: seq<Entry>)
    ensures var resumed := AfterCursor(page, after);
            kept == Unseen(resumed, received) && received' == received + IdSet(resumed)
  {
    var resumed := page;
    if after.Some? {
      var at := LastPosition(page, after.value.id);
      resumed := page[at..];
    }
    received', kept := RetainUnseen(received, resumed);
  }

  lemma ReceivedNext(page: seq<Entry>, i: nat, received: set<EntryId>)
    requires i < |page|
    ensures var e, seen := page[i], received + IdSet(page[..i]);
            && received + IdSet(page[..i + 1]) == seen + {e.id}
            && Unseen(page[..i + 1], received)
               == Unseen(page[..i], received) + if e.id in seen then [] else [e]
  {
    var front, e := page[..i], page[i];
    assert page[..i + 1] == front + [e];
    assert page[..i + 1][..i] == front;
    IdSetIds(front, e.id);
    IdSetLast(front, e);
  }

  lemma IdSetLast(front: seq<Entry>, e: Entry)
    ensures IdSet(front + [e]) == IdSet(front) + {e.id}
  {
  }

  lemma IdSetIds(page: seq<Entry>, id: EntryId)
    ensures id in IdSet(page) <==> id in Ids(page)
  {
    if id in IdSet(page) {
      var e :| e in page && e.id == id;
      IdKnown(page, e);
    }
    if id in Ids(page) {
      var k :| 0 <= k < |page| && Ids(page)[k] == id;
      assert page[k] in page;
    }
  }

  /** Drops the entries past an end time, and tells whether there were any. */
  method DropPastEnd(end: U64, page: seq<Entry>) returns (kept: seq<Entry>, dropped: bool)
    ensures kept == WithinEnd(page, end) && dropped == (|kept| < |page|)
  {
    kept := [];
    var i := 0;
    while i < |page|
      invariant 0 <= i <= |page|
      invariant kept == WithinEnd(page[..i], end)
    {
      assert page[..i + 1][..i] == page[..i];
      if page[i].timeMs <= end {
        kept := kept + [page[i]];
      }
      i := i + 1;
    }
    assert page[..i] == page;
    dropped := |kept| < |page|;
  }

  /** Reads every entry a query selects, following moreFollows. */
  method QueryJournalAll(server: Server, query: Query) returns (r: Result<seq<Entry>, JournalError>)
    ensures r == Read(server, 0, query.stop, Start(query)).result
    ensures r.Ok? ==> Sane(query.stop, r.value)
  {
    AnyServer(server, query);
    var endMs := EndOf(query.stop);
    var maxEntries := MaxOf(query.stop);
    var all: seq<Entry> := [];
    var received: set<EntryId> := {};
    var next := query;
    var n: nat := 0;
    BelowBound(received, ENTRY_IDS);
    while true
      invariant |received| <= ENTRY_IDS
      invariant Read(server, n, query.stop, Progress(next, all, received)).result
                == Read(server, 0, query.stop, Start(query)).result
      decreases ENTRY_IDS - |received|
    {
      ghost var p := Progress(next, all, received);
      var answer := server(n, next);
      if answer.Err? {
        return Err(answer.error);
      }
      ghost var turn := Absorb(query.stop, p, answer.value);
      var page;
      received, page := KeepNewEntries(next.after, received, answer.value.page);
      var pastEnd := false;
      if endMs.Some? {
        page, pastEnd := DropPastEnd(endMs.value, page);
      }
      if maxEntries.Some? {
        page := page[..Min(|page|, SaturatingSub(maxEntries.value, |all|))];
      }
      var full := maxEntries.Some? && |all| + |page| >= maxEntries.value;
      if !answer.value.more || pastEnd || full {
        assert turn == Done(all + page);
        return Ok(all + page);
      }
      var following := Continuation(next, page);
      if following.None? {
        assert turn == Stuck;
        return Err(JournalNotAdvancing);
      }
      next, all := following.value, all + page;
      assert turn == Continue(Progress(next, all, received));
      ReceivedGrows(query.stop, p, answer.value);
      ReadOn(server, n, query.stop, p, answer.value, turn.p);
      n := n + 1;
    }
  }
}
