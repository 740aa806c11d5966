/** Cursor pagination of a list endpoint, as `getTodayStats` drives it for
    PaymentIntents and for Charges: ask for a page of at most 100 records,
    append it, and when the page says `has_more` and is not empty ask again
    starting after the id of its last record.

    Two views are modelled. `Drain` is the client loop fed an arbitrary
    sequence of responses (whatever the API answers). `ListPage` is the API
    side: a page of the records matching the query, in listing order, after
    the record named by the cursor. `CollectAll` runs the loop against
    `ListPage` and shows that it fetches the whole listing. */
module Pagination {
  import opened Base

  /** The `limit` every list call passes. */
  const PageLimit: nat := 100

  /** One response of a list call: its `data` and its `has_more` flag. */
  datatype Page<T> = Page(data: seq<T>, hasMore: bool)

  /** What the loop did with a sequence of responses: the records it
      concatenated, the `starting_after` it sent with each request, and
      whether it stopped by itself (rather than running out of responses). */
  datatype Drained<T> = Drained(items: seq<T>, requests: seq<Option<string>>, complete: bool)

  /** The loop's decision after a page: the cursor for the next request, or
      `None` to stop (no more pages, or an empty page). */
  function NextCursor<T>(page: Page<T>, idOf: T -> string): Option<string>
  {
    if page.hasMore && |page.data| > 0 then Some(idOf(page.data[|page.data| - 1])) else None
  }

  /** The `starting_after` actually sent: the cursor variable is only sent
      when it is truthy, so an empty id is never sent. */
  function Sent(cursor: Option<string>): Option<string>
  {
    if cursor.Some? && cursor.value != "" then cursor else None
  }

  /** All the records of a sequence of pages, in order. */
  function Flatten<T>(pages: seq<Page<T>>): seq<T>
  {
    if |pages| == 0 then [] else pages[0].data + Flatten(pages[1..])
  }

  lemma {:induction false} FlattenAppend<T>(pages: seq<Page<T>>, page: Page<T>)
    ensures Flatten(pages + [page]) == Flatten(pages) + page.data
  {
    if |pages| > 0 {
      assert (pages + [page])[1..] == pages[1..] + [page];
      FlattenAppend(pages[1..], page);
    } else {
      assert pages + [page] == [page];
    }
  }

  /** The pagination loop fed the responses `responses` in order, starting
      from the cursor `cursor`. */
  function Drain<T>(responses: seq<Page<T>>, idOf: T -> string, cursor: Option<string>): (r: Drained<T>)
    ensures |r.requests| <= |responses|
    ensures |responses| > 0 ==> |r.requests| >= 1 && r.requests[0] == Sent(cursor)
    ensures r.items == Flatten(responses[..|r.requests|])
    ensures forall k :: 0 <= k < |r.requests| - 1 ==>
              NextCursor(responses[k], idOf).Some? && r.requests[k + 1] == Sent(NextCursor(responses[k], idOf))
    ensures r.complete <==> |r.requests| > 0 && NextCursor(responses[|r.requests| - 1], idOf).None?
    ensures !r.complete ==> |r.requests| == |responses|
  {
    if |responses| == 0 then Drained([], [], false)
    else
      var page := responses[0];
      match NextCursor(page, idOf)
      case None =>
        assert responses[..1] == [page];
        assert Flatten([page]) == page.data + Flatten([]);
        Drained(page.data, [Sent(cursor)], true)
      case Some(c) =>
        var rest := Drain(responses[1..], idOf, Some(c));
        assert responses[..1 + |rest.requests|][1..] == responses[1..][..|rest.requests|];
        Drained(page.data + rest.items, [Sent(cursor)] + rest.requests, rest.complete)
  }

  /** Responses that continue until the last one, which stops the loop, each
      request carrying the id of the previous page's last record. */
  predicate IsChain<T>(pages: seq<Page<T>>, requests: seq<Option<string>>, idOf: T -> string, cursor: Option<string>)
  {
    && |pages| == |requests| > 0
    && requests[0] == Sent(cursor)
    && (forall k :: 0 <= k < |pages| - 1 ==>
          NextCursor(pages[k], idOf).Some? && requests[k + 1] == Sent(NextCursor(pages[k], idOf)))
    && NextCursor(pages[|pages| - 1], idOf).None?
  }

  /** Fed a chain, the loop consumes every page of it, sends exactly the
      chain's requests, stops by itself, and returns all the records. */
  lemma {:induction false} DrainChain<T>(pages: seq<Page<T>>, requests: seq<Option<string>>, idOf: T -> string, cursor: Option<string>)
    requires IsChain(pages, requests, idOf, cursor)
    ensures Drain(pages, idOf, cursor) == Drained(Flatten(pages), requests, true)
  {
    if |pages| > 1 {
      var c := NextCursor(pages[0], idOf);
      ChainTail(pages, requests, idOf, cursor);
      DrainChain(pages[1..], requests[1..], idOf, c);
      assert requests == [requests[0]] + requests[1..];
    }
  }

  /** A chain of more than one page continues, after its first page, as a
      chain from the cursor that page yields. */
  lemma ChainTail<T>(pages: seq<Page<T>>, requests: seq<Option<string>>, idOf: T -> string, cursor: Option<string>)
    requires IsChain(pages, requests, idOf, cursor) && |pages| > 1
    ensures IsChain(pages[1..], requests[1..], idOf, NextCursor(pages[0], idOf))
  {
    assert forall k :: 0 <= k < |pages| - 2 ==> pages[1..][k] == pages[k + 1];
  }

  // ---------------------------------------------------------------------
  // The API side

  /** No two records of the listing share an id, and no id is empty. */
  predicate WellKeyed<T>(listing: seq<T>, idOf: T -> string)
  {
    && (forall i, j :: 0 <= i < j < |listing| ==> idOf(listing[i]) != idOf(listing[j]))
    && (forall i :: 0 <= i < |listing| ==> idOf(listing[i]) != "")
  }

  /** The records after the one with id `id` (none when no record has it). */
  function After<T>(listing: seq<T>, idOf: T -> string, id: string): seq<T>
  {
    if |listing| == 0 then []
    else if idOf(listing[0]) == id then listing[1..]
    else After(listing[1..], idOf, id)
  }

  lemma {:induction false} AfterPosition<T>(listing: seq<T>, idOf: T -> string, k: nat)
    requires WellKeyed(listing, idOf)
    requires k < |listing|
    ensures After(listing, idOf, idOf(listing[k])) == listing[k + 1..]
  {
    if k > 0 {
      assert idOf(listing[0]) != idOf(listing[k]);
      assert WellKeyed(listing[1..], idOf) by {
        assert forall i :: 0 <= i < |listing| - 1 ==> listing[1..][i] == listing[i + 1];
      }
      AfterPosition(listing[1..], idOf, k - 1);
      assert listing[1..][k..] == listing[k + 1..];
    }
  }

  /** The list endpoint: up to `limit` records of the listing after the
      cursor, and whether any remain beyond them. */
  function ListPage<T>(listing: seq<T>, idOf: T -> string, startingAfter: Option<string>, limit: nat): (page: Page<T>)
    ensures |page.data| <= limit
  {
    var rest := if startingAfter.None? then listing else After(listing, idOf, startingAfter.value);
    Page(rest[..Min(limit, |rest|)], |rest| > limit)
  }

  /** Number of list calls needed for `n` records: one call even for none,
      otherwise one per started hundred. */
  function PageCount(n: nat): (r: nat)
    ensures r >= 1
    ensures n == 0 ==> r == 1
    ensures n > 0 ==> PageLimit * (r - 1) < n <= PageLimit * r
  {
    if n == 0 then 1 else (n + PageLimit - 1) / PageLimit
  }

  /** The cursor the loop holds once it has the first `pos` records. */
  function CursorAt<T>(listing: seq<T>, idOf: T -> string, pos: nat): Option<string>
    requires pos <= |listing|
  {
    if pos == 0 then None else Some(idOf(listing[pos - 1]))
  }

  /** The page the endpoint returns for the cursor held after `pos`
      records is the next (up to) hundred records, flagged when more
      remain. */
  lemma PageAfter<T>(listing: seq<T>, idOf: T -> string, pos: nat)
    requires WellKeyed(listing, idOf)
    requires pos <= |listing| && (pos > 0 ==> pos < |listing|)
    ensures ListPage(listing, idOf, CursorAt(listing, idOf, pos), PageLimit)
              == Page(listing[pos..Min(pos + PageLimit, |listing|)], |listing| - pos > PageLimit)
  {
    var rest := if pos == 0 then listing else After(listing, idOf, idOf(listing[pos - 1]));
    if pos > 0 {
      AfterPosition(listing, idOf, pos - 1);
    }
    assert rest == listing[pos..];
    var n := Min(PageLimit, |rest|);
    assert rest[..n] == listing[pos..pos + n] by {
      assert forall k :: 0 <= k < n ==> rest[..n][k] == listing[pos + k];
    }
  }

  /** The cursor held after `pos` records is sent as it is, the page the
      endpoint returns for it is the next (up to) hundred records, the loop
      continues exactly when more than a hundred remain, and then the
      cursor it takes is the one for `pos + 100`. */
  lemma PageAt<T>(listing: seq<T>, idOf: T -> string, pos: nat)
    requires WellKeyed(listing, idOf)
    requires pos <= |listing| && (pos > 0 ==> pos < |listing|)
    ensures Sent(CursorAt(listing, idOf, pos)) == CursorAt(listing, idOf, pos)
    ensures var page := ListPage(listing, idOf, CursorAt(listing, idOf, pos), PageLimit);
            && page.data == listing[pos..Min(pos + PageLimit, |listing|)]
            && (NextCursor(page, idOf).Some? <==> |listing| - pos > PageLimit)
            && (NextCursor(page, idOf).Some? ==> NextCursor(page, idOf) == CursorAt(listing, idOf, pos + PageLimit))
  {
    if pos > 0 {
      assert idOf(listing[pos - 1]) != "";
    }
    PageAfter(listing, idOf, pos);
    var page := ListPage(listing, idOf, CursorAt(listing, idOf, pos), PageLimit);
    if NextCursor(page, idOf).Some? {
      assert page.data[|page.data| - 1] == listing[pos + PageLimit - 1];
    }
  }

  /** Every page is the endpoint's answer to the request sent for it. */
  ghost predicate Answered<T>(listing: seq<T>, idOf: T -> string, pages: seq<Page<T>>, requests: seq<Option<string>>)
  {
    |pages| == |requests| && forall k :: 0 <= k < |pages| ==> pages[k] == ListPage(listing, idOf, requests[k], PageLimit)
  }

  /** The first request carries no cursor and every later one carries the
      cursor the loop took from the page before it. */
  ghost predicate Linked<T>(idOf: T -> string, pages: seq<Page<T>>, requests: seq<Option<string>>)
  {
    && |pages| == |requests|
    && (|pages| > 0 ==> requests[0] == None)
    && (forall k :: 0 <= k < |pages| - 1 ==>
          NextCursor(pages[k], idOf).Some? && requests[k + 1] == Sent(NextCursor(pages[k], idOf)))
  }

  lemma {:induction false} AnsweredAppend<T>(listing: seq<T>, idOf: T -> string, pages: seq<Page<T>>,
                                             requests: seq<Option<string>>, request: Option<string>)
    requires Answered(listing, idOf, pages, requests)
    ensures Answered(listing, idOf, pages + [ListPage(listing, idOf, request, PageLimit)], requests + [request])
  {
    var pages', requests' := pages + [ListPage(listing, idOf, request, PageLimit)], requests + [request];
    forall k | 0 <= k < |pages'|
      ensures pages'[k] == ListPage(listing, idOf, requests'[k], PageLimit)
    {
      if k < |pages| {
        assert pages'[k] == pages[k] && requests'[k] == requests[k];
      }
    }
  }

  lemma {:induction false} LinkedAppend<T>(idOf: T -> string, pages: seq<Page<T>>, requests: seq<Option<string>>, page: Page<T>)
    requires Linked(idOf, pages, requests)
    requires |pages| == 0 || NextCursor(pages[|pages| - 1], idOf).Some?
    ensures Linked(idOf, pages + [page], requests + [if |pages| == 0 then None else Sent(NextCursor(pages[|pages| - 1], idOf))])
  {
    var request := if |pages| == 0 then None else Sent(NextCursor(pages[|pages| - 1], idOf));
    var pages', requests' := pages + [page], requests + [request];
    forall k | 0 <= k < |pages'| - 1
      ensures NextCursor(pages'[k], idOf).Some? && requests'[k + 1] == Sent(NextCursor(pages'[k], idOf))
    {
      assert pages'[k] == pages[k];
      if k < |pages| - 1 {
        assert requests'[k + 1] == requests[k + 1];
      }
    }
  }

  /** The records the loop holds are the first ones of the listing, page
      after page; while it goes on it holds whole pages and the cursor of
      the last record, and once it stops it holds the listing. */
  ghost predicate Fetched<T>(listing: seq<T>, idOf: T -> string, all: seq<T>, pages: seq<Page<T>>,
                             cursor: Option<string>, hasMore: bool)
  {
    && |all| <= |listing| && all == listing[..|all|]
    && all == Flatten(pages)
    && (hasMore ==> |all| == PageLimit * |pages| && cursor == CursorAt(listing, idOf, |all|))
    && (hasMore && |pages| > 0 ==> |all| < |listing| && cursor == NextCursor(pages[|pages| - 1], idOf))
    && (!hasMore ==> |pages| > 0 && all == listing && |pages| == PageCount(|listing|) && NextCursor(pages[|pages| - 1], idOf).None?)
  }

  lemma {:induction false} FetchedStep<T>(listing: seq<T>, idOf: T -> string, all: seq<T>, pages: seq<Page<T>>, cursor: Option<string>)
    requires WellKeyed(listing, idOf)
    requires Fetched(listing, idOf, all, pages, cursor, true)
    ensures var page := ListPage(listing, idOf, Sent(cursor), PageLimit);
            var next := NextCursor(page, idOf);
            && Fetched(listing, idOf, all + page.data, pages + [page], if next.Some? then next else cursor, next.Some?)
            && (next.Some? ==> |page.data| > 0)
  {
    PageAt(listing, idOf, |all|);
    var page := ListPage(listing, idOf, Sent(cursor), PageLimit);
    FlattenAppend(pages, page);
    var all' := all + page.data;
    assert all' == listing[..|all'|];
  }

  /** What the loop of `CollectAll` knows between two requests. */
  ghost predicate Progress<T>(listing: seq<T>, idOf: T -> string, all: seq<T>, pages: seq<Page<T>>,
                              requests: seq<Option<string>>, cursor: Option<string>, hasMore: bool)
  {
    && Fetched(listing, idOf, all, pages, cursor, hasMore)
    && Answered(listing, idOf, pages, requests)
    && Linked(idOf, pages, requests)
  }

  /** One request of the loop keeps `Progress`, and a request after which
      the loop goes on fetched at least one record. */
  lemma {:induction false} ProgressStep<T>(listing: seq<T>, idOf: T -> string, all: seq<T>, pages: seq<Page<T>>,
                                           requests: seq<Option<string>>, cursor: Option<string>)
    requires WellKeyed(listing, idOf)
    requires Progress(listing, idOf, all, pages, requests, cursor, true)
    ensures var page := ListPage(listing, idOf, Sent(cursor), PageLimit);
            var next := NextCursor(page, idOf);
            && Progress(listing, idOf, all + page.data, pages + [page], requests + [Sent(cursor)],
                        if next.Some? then next else cursor, next.Some?)
            && (next.Some? ==> |page.data| > 0)
  {
    var page := ListPage(listing, idOf, Sent(cursor), PageLimit);
    FetchedStep(listing, idOf, all, pages, cursor);
    AnsweredAppend(listing, idOf, pages, requests, Sent(cursor));
    LinkedAppend(idOf, pages, requests, page);
  }

  /** The loop of `getTodayStats` run against the list endpoint. It
      terminates, returns the listing exactly (nothing lost, nothing
      repeated), makes `PageCount` calls, and what it did is what `Drain`
      describes for the pages it received. */
  method CollectAll<T>(listing: seq<T>, idOf: T -> string)
    returns (all: seq<T>, pages: seq<Page<T>>, requests: seq<Option<string>>)
    requires WellKeyed(listing, idOf)
    ensures all == listing
    ensures |pages| == |requests| == PageCount(|listing|)
    ensures forall k :: 0 <= k < |pages| ==> pages[k] == ListPage(listing, idOf, requests[k], PageLimit)
    ensures Drain(pages, idOf, None) == Drained(all, requests, true)
  {
    all, pages, requests := [], [], [];
    var cursor: Option<string> := None;
    var hasMore := true;
    while hasMore
      invariant Progress(listing, idOf, all, pages, requests, cursor, hasMore)
      decreases |listing| - |all|, hasMore
    {
      ProgressStep(listing, idOf, all, pages, requests, cursor);
      var request := Sent(cursor);
      var page := ListPage(listing, idOf, request, PageLimit);
      all := all + page.data;
      pages := pages + [page];
      requests := requests + [request];
      hasMore := page.hasMore;
      if hasMore && |page.data| > 0 {
        cursor := Some(idOf(page.data[|page.data| - 1]));
      } else {
        hasMore := false;
      }
    }
    DrainChain(pages, requests, idOf, None);
  }
}
