/** The paged search: pages are asked for until enough is found, yet it answers like the simple search. */
module PagedSearch {
  import opened Common
  import opened Pagination
  import opened SearchResults
  import opened SearchText

  datatype Request = Request(query: string, province: Option<string>, pageOffset: nat, pageSize: nat)

  datatype SearchError = FetchFailed(message: string) | BadCursor(error: CursorError)

  /** What the server answers to the n-th request; answers may be anything and need not agree. */
  type Server = (nat, Request) -> Result<Response, string>

  // ----- Every page the server would hand out -----

  /** Why there are no more pages: the last one said so, it pointed nowhere, or the next one never came. */
  datatype End = Complete | Misled(error: CursorError) | Capped(error: CursorError) | Broken(message: string)

  datatype Walk = Walk(pages: seq<Response>, end: End)

  /** The n-th request of a search, for the page at an offset and of a size. */
  type Fetch = (nat, nat, nat) -> Result<Response, string>

  function FetchFor(server: Server, q: Search): Fetch {
    (n: nat, offset: nat, size: nat) => server(n, Request(ProviderQuery(q.text), q.filters.province, offset, size))
  }

  /** All pages from cursor `c` on, the next one of `size` items, the rest of full size. */
  function AllPages(fetch: Fetch, c: Cursor, size: nat): (walk: Walk)
    ensures walk.end.Misled? ==> walk.pages != []
    decreases MAX_PAGINATED_REQUESTS - c.requestCount
  {
    var requested := Requested(c, size);
    if requested.Err? then Walk([], Capped(requested.error))
    else
      var answer := fetch(c.requestCount, c.offset, size);
      if answer.Err? then Walk([], Broken(answer.error))
      else
        var page := answer.value;
        var advanced := Advanced(requested.value, page.hasMore, page.nextOffset);
        if advanced.Err? then Walk([page], Misled(advanced.error))
        else if advanced.value.None? then Walk([page], Complete)
        else
          var rest := AllPages(fetch, advanced.value.value, MAX_RPC_PAGE_SIZE);
          Walk([page] + rest.pages, rest.end)
  }

  function WholeWalk(server: Server, q: Search): Walk {
    AllPages(FetchFor(server, q), START, PageSizeForTarget(q.Target()))
  }

  function ErrorOf(end: End): SearchError
    requires end != Complete
  {
    if end.Broken? then FetchFailed(end.message) else BadCursor(end.error)
  }

  // ----- Where the search stops -----

  predicate EnoughAfter(q: Search, pages: seq<Response>, k: nat)
    requires k <= |pages|
  {
    TargetReached(q, Full(q, pages[..k]))
  }

  predicate NotEnoughUpTo(q: Search, pages: seq<Response>, k: nat)
    requires k <= |pages|
  {
    forall j: nat | 0 < j <= k :: !EnoughAfter(q, pages, j)
  }

  /** The search ends well after `k` pages: they are the first that suffice, or all there are. */
  predicate StopsAfter(q: Search, walk: Walk, k: nat) {
    && 0 < k <= |walk.pages|
    && NotEnoughUpTo(q, walk.pages, k - 1)
    && (EnoughAfter(q, walk.pages, k) || (k == |walk.pages| && walk.end == Complete))
    && !(k == |walk.pages| && walk.end.Misled?)
  }

  function Answer(q: Search, pages: seq<Response>): Response {
    Finalized(q, Full(q, pages))
  }

  /** The walk `walk` after its first `k` pages goes on from cursor `c`. */
  predicate Remaining(fetch: Fetch, c: Cursor, size: nat, walk: Walk, k: nat)
    requires k <= |walk.pages|
  {
    AllPages(fetch, c, size) == Walk(walk.pages[k..], walk.end)
  }

  /** The search ends with these results, or with this error. */
  ghost predicate Finds(q: Search, walk: Walk, found: Response) {
    exists k: nat :: StopsAfter(q, walk, k) && found == Full(q, walk.pages[..k])
  }

  ghost predicate Fails(q: Search, walk: Walk, error: SearchError) {
    walk.end != Complete && error == ErrorOf(walk.end) && forall k: nat :: !StopsAfter(q, walk, k)
  }

  /** After `k` pages, with `found` collected, the search asks for the page at cursor `c`. */
  predicate Underway(q: Search, fetch: Fetch, walk: Walk, k: nat, c: Cursor, size: nat, found: Response) {
    && k <= |walk.pages|
    && found == Full(q, walk.pages[..k])
    && NotEnoughUpTo(q, walk.pages, k)
    && Remaining(fetch, c, size, walk, k)
  }

  lemma NeverStops(q: Search, walk: Walk, k: nat)
    requires k <= |walk.pages| && NotEnoughUpTo(q, walk.pages, k) && walk.end != Complete
    requires k == if walk.end.Misled? then |walk.pages| - 1 else |walk.pages|
    ensures Fails(q, walk, ErrorOf(walk.end))
  {
    forall j: nat ensures !StopsAfter(q, walk, j) {
      if 0 < j <= k {
        assert !EnoughAfter(q, walk.pages, j);
      }
    }
  }

  /** No further request, or no answer to it: the walk is over. */
  lemma NoPage(fetch: Fetch, c: Cursor, size: nat, walk: Walk, k: nat)
    requires k <= |walk.pages| && Remaining(fetch, c, size, walk, k)
    requires Requested(c, size).Err? || fetch(c.requestCount, c.offset, size).Err?
    ensures k == |walk.pages|
    ensures walk.end == if Requested(c, size).Err? then Capped(Requested(c, size).error)
                        else Broken(fetch(c.requestCount, c.offset, size).error)
  {
  }

  /** The first page of what remains, and what remains behind it. */
  lemma NextPage(fetch: Fetch, c: Cursor, size: nat, walk: Walk, k: nat, page: Response)
    requires k <= |walk.pages| && Remaining(fetch, c, size, walk, k)
    requires Requested(c, size).Ok? && fetch(c.requestCount, c.offset, size) == Ok(page)
    ensures k < |walk.pages| && walk.pages[k] == page && walk.pages[..k + 1] == walk.pages[..k] + [page]
    ensures var advanced := Advanced(Requested(c, size).value, page.hasMore, page.nextOffset);
            if advanced.Err? then k + 1 == |walk.pages| && walk.end == Misled(advanced.error)
            else if advanced.value.None? then k + 1 == |walk.pages| && walk.end == Complete
            else Remaining(fetch, advanced.value.value, MAX_RPC_PAGE_SIZE, walk, k + 1)
                 && (walk.end.Misled? ==> k + 1 < |walk.pages|)
  {
    var rest := walk.pages[k..];
    assert rest[0] == walk.pages[k] && rest[1..] == walk.pages[k + 1..];
  }

  lemma NoPageFails(q: Search, fetch: Fetch, walk: Walk, k: nat, c: Cursor, size: nat, found: Response)
    requires Underway(q, fetch, walk, k, c, size, found)
    requires Requested(c, size).Err? || fetch(c.requestCount, c.offset, size).Err?
    ensures Fails(q, walk, if Requested(c, size).Err? then BadCursor(Requested(c, size).error)
                           else FetchFailed(fetch(c.requestCount, c.offset, size).error))
  {
    NoPage(fetch, c, size, walk, k);
    NeverStops(q, walk, k);
  }

  /** What is found with one more page. */
  function TakenIn(q: Search, found: Response, page: Response): Response {
    Deduped(Appended(found, Matching(q, page))).(hasMore := page.hasMore, nextOffset := page.nextOffset)
  }

  lemma StopsOrGoesOn(q: Search, walk: Walk, k: nat)
    requires k < |walk.pages| && NotEnoughUpTo(q, walk.pages, k)
    requires walk.end.Misled? ==> k + 1 < |walk.pages|
    ensures EnoughAfter(q, walk.pages, k + 1) ==> StopsAfter(q, walk, k + 1)
    ensures k + 1 == |walk.pages| && walk.end == Complete ==> StopsAfter(q, walk, k + 1)
    ensures !EnoughAfter(q, walk.pages, k + 1) ==> NotEnoughUpTo(q, walk.pages, k + 1)
  {
    forall j: nat | 0 < j <= k + 1 && !EnoughAfter(q, walk.pages, k + 1)
      ensures !EnoughAfter(q, walk.pages, j)
    {
      assert j <= k ==> !EnoughAfter(q, walk.pages, j);
    }
  }

  lemma TurnEnds(q: Search, fetch: Fetch, walk: Walk, k: nat, c: Cursor, size: nat, found: Response, page: Response)
    requires Underway(q, fetch, walk, k, c, size, found)
    requires Requested(c, size).Ok? && fetch(c.requestCount, c.offset, size) == Ok(page)
    ensures var advanced := Advanced(Requested(c, size).value, page.hasMore, page.nextOffset);
            var next := TakenIn(q, found, page);
            if advanced.Err? then Fails(q, walk, BadCursor(advanced.error))
            else if TargetReached(q, next) || advanced.value.None? then Finds(q, walk, next)
            else Underway(q, fetch, walk, k + 1, advanced.value.value, MAX_RPC_PAGE_SIZE, next)
  {
    NextPage(fetch, c, size, walk, k, page);
    var next := TakenIn(q, found, page);
    assert next == Full(q, walk.pages[..k + 1]) by {
      FullStep(q, walk.pages[..k], page);
    }
    if Advanced(Requested(c, size).value, page.hasMore, page.nextOffset).Err? {
      NeverStops(q, walk, k);
    } else {
      StopsOrGoesOn(q, walk, k);
      assert EnoughAfter(q, walk.pages, k + 1) == TargetReached(q, next);
      assert StopsAfter(q, walk, k + 1) ==> Finds(q, walk, next);
    }
  }

  /** Filters a page, adds it to what was found, and cleans up. */
  method TakeIn(q: Search, combined: ResultList, answer: Response)
    modifies combined
    ensures combined.View() == TakenIn(q, old(combined.View()), answer)
  {
    var page := new ResultList(answer);
    page.Retain(q);
    combined.Append(page);
    combined.Dedup();
    combined.hasMore, combined.nextOffset := answer.hasMore, answer.nextOffset;
  }

  /** One turn of the search: asks for a page and says whether to go on. */
  method Turn(q: Search, fetch: Fetch, cursor: PageCursor, size: nat, combined: ResultList, ghost walk: Walk, ghost k: nat)
    returns (r: Result<bool, SearchError>)
    requires Underway(q, fetch, walk, k, cursor.View(), size, combined.View())
    modifies cursor, combined
    ensures r == Ok(true) ==> Underway(q, fetch, walk, k + 1, cursor.View(), MAX_RPC_PAGE_SIZE, combined.View())
    ensures r.Ok? ==> old(cursor.requestCount) < cursor.requestCount <= MAX_PAGINATED_REQUESTS
    ensures r == Ok(false) ==> Finds(q, walk, combined.View())
    ensures r.Err? ==> Fails(q, walk, r.error)
  {
    ghost var before := cursor.View();
    var ticket := cursor.Request(size);
    if ticket.Err? {
      NoPageFails(q, fetch, walk, k, before, size, combined.View());
      return Err(BadCursor(ticket.error));
    }
    var answer := fetch(cursor.requestCount - 1, ticket.value.0, ticket.value.1);
    if answer.Err? {
      NoPageFails(q, fetch, walk, k, before, size, combined.View());
      return Err(FetchFailed(answer.error));
    }
    TurnEnds(q, fetch, walk, k, before, size, combined.View(), answer.value);
    TakeIn(q, combined, answer.value);
    var canContinue := cursor.Advance(answer.value.hasMore, answer.value.nextOffset);
    if canContinue.Err? {
      return Err(BadCursor(canContinue.error));
    }
    return Ok(!TargetReached(q, combined.View()) && canContinue.value);
  }

  lemma StartsUnderway(q: Search, fetch: Fetch, size: nat)
    ensures Underway(q, fetch, AllPages(fetch, START, size), 0, START, size, NOTHING)
  {
  }

  method CollectPages(q: Search, fetch: Fetch, firstSize: nat, ghost walk: Walk)
    returns (combined: ResultList, failed: Option<SearchError>)
    requires Underway(q, fetch, walk, 0, START, firstSize, NOTHING)
    ensures fresh(combined)
    ensures if failed.None? then Finds(q, walk, combined.View()) else Fails(q, walk, failed.value)
  {
    var cursor := new PageCursor();
    combined := new ResultList(NOTHING);
    var pageSize := firstSize;
    ghost var k: nat := 0;
    var searching := true;
    while searching
      invariant fresh(cursor) && fresh(combined)
      invariant searching ==> Underway(q, fetch, walk, k, cursor.View(), pageSize, combined.View())
      invariant !searching ==> Finds(q, walk, combined.View())
      decreases searching, MAX_PAGINATED_REQUESTS - cursor.requestCount
    {
      var next := Turn(q, fetch, cursor, pageSize, combined, walk, k);
      if next.Err? {
        return combined, Some(next.error);
      }
      k := k + 1;
      searching := next.value;
      pageSize := MAX_RPC_PAGE_SIZE;
    }
    failed := None;
  }

  ghost predicate IsAnswer(q: Search, walk: Walk, r: Response) {
    exists found :: Finds(q, walk, found) && r == Finalized(q, found)
  }

  /** What the search gives for every answer of the server. */
  ghost predicate Searched(q: Search, server: Server, r: Result<Response, SearchError>) {
    if q.Target() == 0 then r == Ok(NOTHING)
    else if r.Ok? then IsAnswer(q, WholeWalk(server, q), r.value)
    else Fails(q, WholeWalk(server, q), r.error)
  }

  /** Searches for `q`, page by page. */
  method SearchPages(q: Search, server: Server) returns (r: Result<Response, SearchError>)
    ensures Searched(q, server, r)
  {
    if q.Target() == 0 {
      return Ok(NOTHING);
    }
    var firstSize := PageSizeForTarget(q.Target());
    StartsUnderway(q, FetchFor(server, q), firstSize);
    var combined, failed := CollectPages(q, FetchFor(server, q), firstSize, WholeWalk(server, q));
    if failed.Some? {
      return Err(failed.value);
    }
    ghost var found := combined.View();
    combined.Finalize(q);
    r := Ok(combined.View());
    assert Finds(q, WholeWalk(server, q), found) && r.value == Finalized(q, found);
  }

  method ExecuteSearch(filters: Filters, limit: nat, server: Server) returns (r: Result<Response, SearchError>)
    ensures Searched(SearchFor(filters, limit), server, r)
  {
    r := SearchPages(SearchFor(filters, limit), server);
  }
}
