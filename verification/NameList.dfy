/** The GetNameList walk against a server that may answer anything. */
module NameList {
  import opened Wrappers
  import opened Sequences
  import opened RecencyList

  type Name = string

  datatype Page = Page(names: seq<Name>, more: bool)

  datatype WalkError =
    | NotConnected
    | Service
    | NameListNotAdvancing
    | NameListLimit(limit: nat)

  /** A server: any answer to the n-th request, which asks for the names behind a
      continuation. */
  type Server = (nat, Option<Name>) -> Option<Page>

  /** `all`, then the names of a page that are not yet in it, each once. */
  function Added(all: seq<Name>, page: seq<Name>): (r: seq<Name>)
    ensures |all| <= |r|
  {
    if |page| == 0 then all
    else
      var front, last := Added(all, page[..|page| - 1]), page[|page| - 1];
      if last in front then front else front + [last]
  }

  /** The distinct names in the order of their first arrival. */
  function FirstArrivals(names: seq<Name>): seq<Name> {
    Added([], names)
  }

  /** A page that reports more must move the walk on. */
  predicate Stalls(all: seq<Name>, after: Option<Name>, p: Page) {
    || |p.names| == 0
    || |Added(all, p.names)| == |all|
    || after == Some(p.names[|p.names| - 1])
  }

  /** The outcome of a walk, the pages it received and its requests. */
  datatype Walked = Walked(result: Result<seq<Name>, WalkError>, pages: seq<seq<Name>>, requests: nat)

  /** The walk from the n-th request on; each page that continues it brings a
      name, so it ends against any server. */
  function Walk(server: Server, n: nat, limit: nat, all: seq<Name>, after: Option<Name>): Walked
    requires |all| <= limit
    decreases limit - |all|
  {
    match server(n, after)
    case None => Walked(Err(Service), [], 1)
    case Some(p) =>
      var all' := Added(all, p.names);
      if |all'| > limit then Walked(Err(NameListLimit(limit)), [p.names], 1)
      else if !p.more then Walked(Ok(all'), [p.names], 1)
      else if Stalls(all, after, p) then Walked(Err(NameListNotAdvancing), [p.names], 1)
      else
        var rest := Walk(server, n + 1, limit, all', Some(p.names[|p.names| - 1]));
        Walked(rest.result, [p.names] + rest.pages, rest.requests + 1)
  }

  // ----- Any server -----

  lemma {:induction false} AddedTwice(all: seq<Name>, a: seq<Name>, b: seq<Name>)
    ensures Added(Added(all, a), b) == Added(all, a + b)
    decreases |b|
  {
    if |b| == 0 {
      assert a + b == a;
    } else {
      AddedTwice(all, a, b[..|b| - 1]);
      assert (a + b)[..|a + b| - 1] == a + b[..|b| - 1];
    }
  }

  lemma {:induction false} AddedDistinct(all: seq<Name>, page: seq<Name>)
    requires Distinct(all)
    ensures Distinct(Added(all, page))
    ensures forall x :: x in Added(all, page) <==> x in all || x in page
    decreases |page|
  {
    if |page| > 0 {
      var front, last := page[..|page| - 1], page[|page| - 1];
      AddedDistinct(all, front);
      assert page == front + [last];
      if last !in Added(all, front) {
        DistinctSnoc(Added(all, front), last);
      }
    }
  }

  /** `all` is not cut short by what a page adds. */
  lemma {:induction false} AddedExtends(all: seq<Name>, page: seq<Name>)
    ensures all <= Added(all, page)
    decreases |page|
  {
    if |page| > 0 {
      AddedExtends(all, page[..|page| - 1]);
    }
  }

  /** What the walk promises of its outcome after the names `before`. */
  predicate Promised(w: Walked, limit: nat, have: nat, before: seq<Name>) {
    var arrived := FirstArrivals(before + Concat(w.pages));
    && w.requests <= limit - have + 1
    && (w.result.Ok? ==> w.result.value == arrived && |arrived| <= limit)
    && (w.result == Err(NameListLimit(limit)) <==> |arrived| > limit)
  }

  lemma PromisedFirst(w: Walked, limit: nat, have: nat, before: seq<Name>, page: seq<Name>)
    requires w.pages == [page] && w.requests == 1 && have <= limit
    requires var arrived := FirstArrivals(before + page);
             && (w.result.Ok? ==> w.result.value == arrived && |arrived| <= limit)
             && (w.result == Err(NameListLimit(limit)) <==> |arrived| > limit)
    ensures Promised(w, limit, have, before)
  {
    ConcatFirst(page, []);
    assert [page] + [] == [page] && page + Concat([]) == page;
  }

  lemma PromisedOn(rest: Walked, limit: nat, have: nat, have': nat, before: seq<Name>, page: seq<Name>)
    requires have < have' <= limit && Promised(rest, limit, have', before + page)
    ensures Promised(Walked(rest.result, [page] + rest.pages, rest.requests + 1), limit, have, before)
  {
    ConcatFirst(page, rest.pages);
    assert before + page + Concat(rest.pages) == before + Concat([page] + rest.pages);
  }

  lemma {:induction false} WalkPromised(server: Server, n: nat, limit: nat, all: seq<Name>, after: Option<Name>,
                                        before: seq<Name>)
    requires |all| <= limit && all == FirstArrivals(before)
    ensures Promised(Walk(server, n, limit, all, after), limit, |all|, before)
    decreases limit - |all|
  {
    var w := Walk(server, n, limit, all, after);
    var answer := server(n, after);
    if answer.None? {
      assert before + Concat([]) == before;
    } else {
      var p := answer.value;
      var all' := Added(all, p.names);
      AddedTwice([], before, p.names);
      if |all'| > limit || !p.more || Stalls(all, after, p) {
        PromisedFirst(w, limit, |all|, before, p.names);
      } else {
        var last := Some(p.names[|p.names| - 1]);
        WalkPromised(server, n + 1, limit, all', last, before + p.names);
        PromisedOn(Walk(server, n + 1, limit, all', last), limit, |all|, |all'|, before, p.names);
      }
    }
  }

  /** Whatever a server answers, the walk makes at most limit + 1 requests; what
      it returns is the names received, each once, in the order of first
      arrival, at most `limit`; and it fails over the limit exactly when more
      distinct names arrived. */
  lemma AnyServer(server: Server, limit: nat)
    ensures var w := Walk(server, 0, limit, [], None);
            var arrived := FirstArrivals(Concat(w.pages));
            && w.requests <= limit + 1
            && (w.result.Ok? ==> w.result.value == arrived && |arrived| <= limit && Distinct(arrived))
            && (w.result == Err(NameListLimit(limit)) <==> |arrived| > limit)
  {
    var w := Walk(server, 0, limit, [], None);
    WalkPromised(server, 0, limit, [], None, []);
    assert [] + Concat(w.pages) == Concat(w.pages);
    AddedDistinct([], Concat(w.pages));
  }

  // ----- A server that pages through its list -----

  /** How many names lie up to a continuation. */
  function Behind(list: seq<Name>, after: Option<Name>): (b: nat)
    ensures b <= |list|
  {
    if after.None? then 0 else LastIndex(list, after.value)
  }

  predicate PageOf(answer: Option<Page>, list: seq<Name>, b: nat, upto: nat) {
    && b <= upto <= |list|
    && answer == Some(Page(list[b..upto], upto < |list|))
    && (upto < |list| ==> b < upto)
  }

  /** Pages through `list` in order, each page passing the continuation while
      more follow. */
  ghost predicate Serves(server: Server, list: seq<Name>) {
    forall n: nat, after: Option<Name> {:trigger server(n, after)} :: (after.Some? ==> after.value in list) ==>
      exists upto :: PageOf(server(n, after), list, Behind(list, after), upto)
  }

  lemma {:induction false} AddedStretch(list: seq<Name>, b: nat, upto: nat)
    requires Distinct(list) && b <= upto <= |list|
    ensures Added(list[..b], list[b..upto]) == list[..upto]
    decreases upto
  {
    var page := list[b..upto];
    if b < upto {
      assert page[..|page| - 1] == list[b..upto - 1] && page[|page| - 1] == list[upto - 1];
      AddedStretch(list, b, upto - 1);
      assert list[upto - 1] !in list[..upto - 1];
      assert list[..upto] == list[..upto - 1] + [list[upto - 1]];
    }
  }

  lemma BehindName(list: seq<Name>, k: nat)
    requires Distinct(list) && k < |list|
    ensures Behind(list, Some(list[k])) == k + 1
  {
    LastIndexIsLast(list, list[k]);
  }

  lemma WalkOn(server: Server, n: nat, limit: nat, all: seq<Name>, after: Option<Name>, p: Page, all': seq<Name>)
    requires server(n, after) == Some(p) && p.more && |p.names| > 0 && after != Some(p.names[|p.names| - 1])
    requires all' == Added(all, p.names) && |all| < |all'| <= limit
    ensures Walk(server, n, limit, all, after).result
            == Walk(server, n + 1, limit, all', Some(p.names[|p.names| - 1])).result
  {
  }

  lemma WalkEnds(server: Server, n: nat, limit: nat, all: seq<Name>, after: Option<Name>, p: Page, all': seq<Name>)
    requires |all| <= limit && server(n, after) == Some(p) && all' == Added(all, p.names)
    requires !p.more || |all'| > limit
    ensures Walk(server, n, limit, all, after).result
            == if |all'| > limit then Err(NameListLimit(limit)) else Ok(all')
  {
  }

  lemma {:induction false} ExactFrom(server: Server, n: nat, limit: nat, list: seq<Name>, b: nat, after: Option<Name>)
    requires Distinct(list) && Serves(server, list) && b <= |list| && b <= limit
    requires after == if b == 0 then None else Some(list[b - 1])
    ensures Walk(server, n, limit, list[..b], after).result
            == if |list| <= limit then Ok(list) else Err(NameListLimit(limit))
    decreases |list| - b
  {
    if b > 0 {
      BehindName(list, b - 1);
    }
    assert Behind(list, after) == b;
    var upto: nat :| PageOf(server(n, after), list, b, upto);
    ExactTurn(server, n, limit, list, b, after, upto);
    if upto < |list| && upto <= limit {
      ExactFrom(server, n + 1, limit, list, upto, Some(list[upto - 1]));
    }
  }

  /** One page of the list. */
  lemma ExactTurn(server: Server, n: nat, limit: nat, list: seq<Name>, b: nat, after: Option<Name>, upto: nat)
    requires Distinct(list) && b <= |list| && b <= limit && PageOf(server(n, after), list, b, upto)
    requires after == if b == 0 then None else Some(list[b - 1])
    ensures Walk(server, n, limit, list[..b], after).result
            == if upto < |list| && upto <= limit then
                 Walk(server, n + 1, limit, list[..upto], Some(list[upto - 1])).result
               else if |list| <= limit then Ok(list)
               else Err(NameListLimit(limit))
  {
    var p := Page(list[b..upto], upto < |list|);
    AddedStretch(list, b, upto);
    if upto < |list| && upto <= limit {
      assert p.names[|p.names| - 1] == list[upto - 1];
      WalkOn(server, n, limit, list[..b], after, p, list[..upto]);
    } else {
      WalkEnds(server, n, limit, list[..b], after, p, list[..upto]);
      assert upto == |list| ==> list[..upto] == list;
    }
  }

  /** Exactness: from a server that pages through a list of distinct names the
      walk returns the whole list, or fails over the limit when it is longer. */
  lemma Exact(server: Server, limit: nat, list: seq<Name>)
    requires Distinct(list) && Serves(server, list)
    ensures Walk(server, 0, limit, [], None).result == if |list| <= limit then Ok(list) else Err(NameListLimit(limit))
  {
    assert list[..0] == [];
    ExactFrom(server, 0, limit, list, 0, None);
  }

  // ----- The loop -----

  /** Calls GetNameList until the server reports no more names. */
  method FetchAllNames(connected: bool, server: Server, limit: nat) returns (r: Result<seq<Name>, WalkError>)
    ensures r == if connected then Walk(server, 0, limit, [], None).result else Err(NotConnected)
    ensures r.Ok? ==> Distinct(r.value) && |r.value| <= limit
  {
    if !connected {
      return Err(NotConnected);
    }
    AnyServer(server, limit);
    var all: seq<Name> := [];
    var received: set<Name> := {};
    var after: Option<Name> := None;
    var n: nat := 0;
    while true
      invariant |all| <= limit && forall x :: x in received <==> x in all
      invariant Walk(server, n, limit, all, after).result == Walk(server, 0, limit, [], None).result
      decreases limit - |all|
    {
      var answer := server(n, after);
      if answer.None? {
        return Err(Service);
      }
      var page, before := answer.value.names, all;
      var i := 0;
      while i < |page|
        invariant 0 <= i <= |page|
        invariant all == Added(before, page[..i]) && |all| <= limit
        invariant forall x :: x in received <==> x in all
      {
        assert page[..i + 1][..i] == page[..i];
        if page[i] !in received {
          if |all| == limit {
            OverLimit(before, page, i + 1);
            return Err(NameListLimit(limit));
          }
          received, all := received + {page[i]}, all + [page[i]];
        }
        i := i + 1;
      }
      assert page[..i] == page;
      if !answer.value.more {
        return Ok(all);
      }
      if |page| == 0 || !(|all| > |before| && after != Some(page[|page| - 1])) {
        return Err(NameListNotAdvancing);
      }
      after, n := Some(page[|page| - 1]), n + 1;
    }
  }

  /** What a page adds only grows with its length. */
  lemma OverLimit(all: seq<Name>, page: seq<Name>, k: nat)
    requires k <= |page|
    ensures |Added(all, page)| >= |Added(all, page[..k])|
  {
    AddedTwice(all, page[..k], page[k..]);
    assert page[..k] + page[k..] == page;
    AddedExtends(Added(all, page[..k]), page[k..]);
  }
}
