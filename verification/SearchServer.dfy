/**
  The search against the engine it is made for: what the client asks, how the engine pages its list
  of candidates, and that together they find what is in that list.
 */
module SearchServer {
  import opened Common
  import opened Pagination
  import opened PagedSearch
  import opened SearchLaws
  import opened SearchMatches
  import opened SearchResults
  import opened SearchText

  // ----- What is asked -----

  function OffsetAt(pages: seq<Response>, first: nat, i: nat): nat
    requires i <= |pages|
  {
    if i == 0 then first else pages[i - 1].nextOffset
  }

  function SizeAt(first: nat, i: nat): nat {
    if i == 0 then first else 256
  }

  /** Each page answers the request for the offset that the page before it named. */
  lemma {:induction false} PagesAnswerRequests(fetch: Fetch, c: Cursor, size: nat, i: nat)
    requires i < |AllPages(fetch, c, size).pages|
    ensures var pages := AllPages(fetch, c, size).pages;
            fetch(c.requestCount + i, OffsetAt(pages, c.offset, i), SizeAt(size, i)) == Ok(pages[i])
    decreases i
  {
    if i > 0 {
      var page := fetch(c.requestCount, c.offset, size).value;
      var next := Advanced(Requested(c, size).value, page.hasMore, page.nextOffset).value.value;
      PagesAnswerRequests(fetch, next, MAX_RPC_PAGE_SIZE, i - 1);
    }
  }

  lemma {:induction false} BrokenAnswersRequest(fetch: Fetch, c: Cursor, size: nat)
    requires AllPages(fetch, c, size).end.Broken?
    ensures var walk := AllPages(fetch, c, size);
            var n := |walk.pages|;
            fetch(c.requestCount + n, OffsetAt(walk.pages, c.offset, n), SizeAt(size, n)) == Err(walk.end.message)
    decreases MAX_PAGINATED_REQUESTS - c.requestCount
  {
    var answer := fetch(c.requestCount, c.offset, size);
    if answer.Ok? {
      var page := answer.value;
      var next := Advanced(Requested(c, size).value, page.hasMore, page.nextOffset).value.value;
      BrokenAnswersRequest(fetch, next, MAX_RPC_PAGE_SIZE);
    }
  }

  /** The walk goes on exactly where a page announces more at a later offset in range. */
  lemma {:induction false} OffsetsAscend(fetch: Fetch, c: Cursor, size: nat, i: nat)
    requires i + 1 < |AllPages(fetch, c, size).pages|
    ensures var pages := AllPages(fetch, c, size).pages;
            pages[i].hasMore && OffsetAt(pages, c.offset, i) < pages[i].nextOffset <= 100_000
    decreases i
  {
    var page := fetch(c.requestCount, c.offset, size).value;
    var next := Advanced(Requested(c, size).value, page.hasMore, page.nextOffset).value.value;
    if i > 0 {
      OffsetsAscend(fetch, next, MAX_RPC_PAGE_SIZE, i - 1);
    }
  }

  /** And it ends for the reason it gives. */
  lemma {:induction false} EndSaysWhy(fetch: Fetch, c: Cursor, size: nat)
    requires 1 <= size <= 256 && c.offset <= 100_000
    ensures var walk := AllPages(fetch, c, size);
            var n := |walk.pages|;
            match walk.end
            case Complete => n > 0 && !walk.pages[n - 1].hasMore
            case Misled(error) =>
              && n > 0 && walk.pages[n - 1].hasMore
              && var last, next := OffsetAt(walk.pages, c.offset, n - 1), walk.pages[n - 1].nextOffset;
                 if next <= last then error == NotAdvancing else next > 100_000 && error == OffsetTooLarge
            case Capped(error) => error == TooManyRequests && c.requestCount + n >= 392
            case Broken(_) => c.requestCount + n < 392
    decreases MAX_PAGINATED_REQUESTS - c.requestCount
  {
    if c.requestCount < MAX_PAGINATED_REQUESTS {
      var answer := fetch(c.requestCount, c.offset, size);
      if answer.Ok? {
        var advanced := Advanced(Requested(c, size).value, answer.value.hasMore, answer.value.nextOffset);
        if advanced.Ok? && advanced.value.Some? {
          EndSaysWhy(fetch, advanced.value.value, MAX_RPC_PAGE_SIZE);
        }
      }
    }
  }

  /** The text the narrowest filter gives, or the last part of it on a path. */
  function QueryOf(filters: Filters): string {
    ProviderQuery(TextOf(filters))
  }

  lemma QueryIsOfNarrowest(filters: Filters, limit: nat)
    ensures var q := SearchFor(filters, limit);
            QueryOf(filters) == ProviderQuery(q.text) && filters.province == q.filters.province
  {
    TextIsOfNarrowest(filters, limit);
  }

  lemma FetchAsks(server: Server, q: Search, query: string, n: nat, offset: nat, size: nat)
    requires query == ProviderQuery(q.text)
    ensures FetchFor(server, q)(n, offset, size) == server(n, Request(query, q.filters.province, offset, size))
  {
  }

  lemma RequestsFor(server: Server, q: Search, query: string, i: nat)
    requires query == ProviderQuery(q.text) && i < |WholeWalk(server, q).pages|
    ensures var pages := WholeWalk(server, q).pages;
            server(i, Request(query, q.filters.province, OffsetAt(pages, 0, i), SizeAt(PageSizeForTarget(q.Target()), i)))
            == Ok(pages[i])
  {
    var size := PageSizeForTarget(q.Target());
    PagesAnswerRequests(FetchFor(server, q), START, size, i);
    FetchAsks(server, q, query, i, OffsetAt(WholeWalk(server, q).pages, 0, i), SizeAt(size, i));
  }

  /**
    Every request carries the query and the province of the filters. The first one asks for offset
    zero and as many items as are wanted, at least 1 and at most 256; each later one asks for 256
    items from where the page before it said the next one starts.
   */
  lemma RequestsFollowThePages(filters: Filters, limit: nat, server: Server, i: nat)
    requires i < |WholeWalk(server, SearchFor(filters, limit)).pages|
    ensures var q := SearchFor(filters, limit);
            var pages := WholeWalk(server, q).pages;
            var wanted := if q.Target() < 1 then 1 else if q.Target() > 256 then 256 else q.Target();
            server(i, Request(QueryOf(filters), filters.province,
                              if i == 0 then 0 else pages[i - 1].nextOffset, if i == 0 then wanted else 256)) == Ok(pages[i])
  {
    QueryIsOfNarrowest(filters, limit);
    RequestsFor(server, SearchFor(filters, limit), QueryOf(filters), i);
  }

  // ----- The engine -----

  datatype Candidate = StationHit(station: StationRef) | CityHit(city: City) | ProvinceHit(province: Province)

  function StationsOf(items: seq<Candidate>): seq<StationRef> {
    if items == [] then []
    else (if items[0].StationHit? then [items[0].station] else []) + StationsOf(items[1..])
  }

  function CitiesOf(items: seq<Candidate>): seq<City> {
    if items == [] then []
    else (if items[0].CityHit? then [items[0].city] else []) + CitiesOf(items[1..])
  }

  function ProvincesOf(items: seq<Candidate>): seq<Province> {
    if items == [] then []
    else (if items[0].ProvinceHit? then [items[0].province] else []) + ProvincesOf(items[1..])
  }

  function Lesser(a: nat, b: nat): nat {
    if a < b then a else b
  }

  /** One page of the list, each kind of candidate in its own list. */
  function Paginated(all: seq<Candidate>, offset: nat, size: nat): Response {
    var start := Lesser(offset, |all|);
    var end := Lesser(start + size, |all|);
    var page := all[start..end];
    Response(StationsOf(page), CitiesOf(page), ProvincesOf(page), end < |all|, end)
  }

  /** The candidates that the engine's catalogue has for a query and a province. */
  type Candidates = (string, Option<string>) -> seq<Candidate>

  function EngineServer(candidates: Candidates): Server {
    (n: nat, ask: Request) =>
      if ask.pageOffset > MAX_RPC_PAGE_OFFSET then Err("page_offset exceeds maximum")
      else if ask.pageSize > MAX_RPC_PAGE_SIZE then Err("page_size exceeds maximum")
      else Ok(Paginated(candidates(ask.query, ask.province), ask.pageOffset, if ask.pageSize == 0 then 10 else ask.pageSize))
  }

  /** The whole list as one response. */
  function ListsOf(items: seq<Candidate>): Response {
    Response(StationsOf(items), CitiesOf(items), ProvincesOf(items), false, |items|)
  }

  lemma {:induction false} StationsAppend(a: seq<Candidate>, b: seq<Candidate>)
    ensures StationsOf(a + b) == StationsOf(a) + StationsOf(b)
  {
    if a == [] {
      assert a + b == b;
    } else {
      assert (a + b)[1..] == a[1..] + b;
      StationsAppend(a[1..], b);
      var first := if a[0].StationHit? then [a[0].station] else [];
      assert first + (StationsOf(a[1..]) + StationsOf(b)) == (first + StationsOf(a[1..])) + StationsOf(b);
    }
  }

  lemma {:induction false} CitiesAppend(a: seq<Candidate>, b: seq<Candidate>)
    ensures CitiesOf(a + b) == CitiesOf(a) + CitiesOf(b)
  {
    if a == [] {
      assert a + b == b;
    } else {
      assert (a + b)[1..] == a[1..] + b;
      CitiesAppend(a[1..], b);
      var first := if a[0].CityHit? then [a[0].city] else [];
      assert first + (CitiesOf(a[1..]) + CitiesOf(b)) == (first + CitiesOf(a[1..])) + CitiesOf(b);
    }
  }

  lemma {:induction false} ProvincesAppend(a: seq<Candidate>, b: seq<Candidate>)
    ensures ProvincesOf(a + b) == ProvincesOf(a) + ProvincesOf(b)
  {
    if a == [] {
      assert a + b == b;
    } else {
      assert (a + b)[1..] == a[1..] + b;
      ProvincesAppend(a[1..], b);
      var first := if a[0].ProvinceHit? then [a[0].province] else [];
      assert first + (ProvincesOf(a[1..]) + ProvincesOf(b)) == (first + ProvincesOf(a[1..])) + ProvincesOf(b);
    }
  }

  lemma {:induction false} ListsAreNoLonger(items: seq<Candidate>)
    ensures |StationsOf(items)| + |CitiesOf(items)| + |ProvincesOf(items)| == |items|
  {
    if items != [] {
      ListsAreNoLonger(items[1..]);
    }
  }

  lemma {:induction false} FetchedFront(page: Response, rest: seq<Response>)
    ensures Fetched([page] + rest).stations == page.stations + Fetched(rest).stations
    ensures Fetched([page] + rest).cities == page.cities + Fetched(rest).cities
    ensures Fetched([page] + rest).provinces == page.provinces + Fetched(rest).provinces
  {
    if rest == [] {
      assert [page] + rest == [page] && [page][..0] == [];
    } else {
      var front := rest[..|rest| - 1];
      assert ([page] + rest)[..|rest|] == [page] + front;
      FetchedFront(page, front);
    }
  }

  /** The fetches of a search see one list. */
  ghost predicate FetchesFrom(fetch: Fetch, all: seq<Candidate>) {
    forall n: nat, offset: nat, size: nat | offset <= 100_000 && 1 <= size <= 256 ::
      fetch(n, offset, size) == Ok(Paginated(all, offset, size))
  }

  /** Where a walk that has read up to `b` ends at the latest: one full page from the last legal offset. */
  function Reach(b: nat): nat {
    if b <= 100_000 then b + 256 * ((100_000 - b) / 256) + 256 else b
  }

  lemma ReachIsKept(b: nat)
    requires b + 256 <= 100_000
    ensures Reach(b + 256) == Reach(b)
  {
    assert (100_000 - b) / 256 == (100_000 - (b + 256)) / 256 + 1;
  }

  /** A cursor that has read one page of at least one item and then only full ones. */
  predicate IsOnCourse(c: Cursor) {
    c.offset <= 100_000 && (c.requestCount == 0 || c.offset >= 1 + 256 * (c.requestCount - 1))
  }

  lemma OnCourseIsNotCapped(c: Cursor, size: nat)
    requires IsOnCourse(c) && 1 <= size <= 256
    ensures Requested(c, size) == Ok(c.(requestCount := c.requestCount + 1)) && c.requestCount < MAX_PAGINATED_REQUESTS
  {
  }

  /** The pages hold the items of one list, kind by kind. */
  predicate AreListOf(pages: seq<Response>, items: seq<Candidate>) {
    && Fetched(pages).stations == StationsOf(items)
    && Fetched(pages).cities == CitiesOf(items)
    && Fetched(pages).provinces == ProvincesOf(items)
  }

  lemma OnePage(all: seq<Candidate>, offset: nat, size: nat)
    requires offset <= |all| <= offset + size
    ensures AreListOf([Paginated(all, offset, size)], all[offset..])
  {
    var page := Paginated(all, offset, size);
    assert all[offset..|all|] == all[offset..];
    FetchedFront(page, []);
    assert [page] + [] == [page];
  }

  lemma PageAndRest(all: seq<Candidate>, offset: nat, size: nat, rest: seq<Response>)
    requires offset + size < |all| && AreListOf(rest, all[offset + size..])
    ensures AreListOf([Paginated(all, offset, size)] + rest, all[offset..])
  {
    var b := offset + size;
    FetchedFront(Paginated(all, offset, size), rest);
    StationsAppend(all[offset..b], all[b..]);
    CitiesAppend(all[offset..b], all[b..]);
    ProvincesAppend(all[offset..b], all[b..]);
    assert all[offset..b] + all[b..] == all[offset..];
  }

  /** How a walk over one list goes on from a cursor on course. */
  lemma WalkStep(fetch: Fetch, all: seq<Candidate>, c: Cursor, size: nat)
    requires FetchesFrom(fetch, all) && IsOnCourse(c) && 1 <= size <= 256 && c.offset <= |all|
    ensures var page := Paginated(all, c.offset, size);
            var b := c.offset + size;
            AllPages(fetch, c, size) ==
            if b >= |all| then Walk([page], Complete)
            else if b > 100_000 then Walk([page], Misled(OffsetTooLarge))
            else
              var rest := AllPages(fetch, Cursor(b, c.requestCount + 1), 256);
              Walk([page] + rest.pages, rest.end)
  {
    OnCourseIsNotCapped(c, size);
    assert fetch(c.requestCount, c.offset, size) == Ok(Paginated(all, c.offset, size));
  }

  lemma {:induction false} WalkReadsTheRest(fetch: Fetch, all: seq<Candidate>, c: Cursor, size: nat)
    requires FetchesFrom(fetch, all) && IsOnCourse(c) && 1 <= size <= 256 && (c.requestCount > 0 ==> size == 256)
    requires c.offset <= |all|
    ensures var walk := AllPages(fetch, c, size);
            if |all| <= Reach(c.offset + size) then walk.end == Complete && AreListOf(walk.pages, all[c.offset..])
            else walk.end == Misled(OffsetTooLarge)
    decreases |all| - c.offset
  {
    var b := c.offset + size;
    WalkStep(fetch, all, c, size);
    if b >= |all| {
      OnePage(all, c.offset, size);
    } else if b <= 100_000 {
      var next := Cursor(b, c.requestCount + 1);
      WalkReadsTheRest(fetch, all, next, 256);
      ReachFrom(b, |all|);
      if |all| <= Reach(b) {
        PageAndRest(all, c.offset, size, AllPages(fetch, next, 256).pages);
      }
    }
  }

  lemma ReachFrom(b: nat, total: nat)
    requires b <= 100_000 && b < total
    ensures total <= Reach(b) <==> total <= Reach(b + 256)
  {
    if b + 256 <= 100_000 {
      ReachIsKept(b);
    } else {
      assert (100_000 - b) / 256 == 0;
    }
  }

  lemma EngineAnswers(candidates: Candidates, n: nat, ask: Request)
    requires ask.pageOffset <= 100_000 && 1 <= ask.pageSize <= 256
    ensures EngineServer(candidates)(n, ask) == Ok(Paginated(candidates(ask.query, ask.province), ask.pageOffset, ask.pageSize))
  {
  }

  lemma EngineFetches(candidates: Candidates, q: Search, query: string)
    requires query == ProviderQuery(q.text)
    ensures FetchesFrom(FetchFor(EngineServer(candidates), q), candidates(query, q.filters.province))
  {
    var fetch := FetchFor(EngineServer(candidates), q);
    forall n: nat, offset: nat, size: nat | offset <= 100_000 && 1 <= size <= 256
      ensures fetch(n, offset, size) == Ok(Paginated(candidates(query, q.filters.province), offset, size))
    {
      FetchAsks(EngineServer(candidates), q, query, n, offset, size);
      EngineAnswers(candidates, n, Request(query, q.filters.province, offset, size));
    }
  }

  /** What the search can reach: the first page and full pages from every legal offset. */
  predicate IsInReach(q: Search, items: seq<Candidate>) {
    |items| <= Reach(PageSizeForTarget(q.Target()))
  }

  /** Filtering and cleaning the whole list of candidates at once. */
  function Everything(q: Search, items: seq<Candidate>): Response {
    Deduped(Matching(q, ListsOf(items)))
  }

  /** The pages of the engine are its list, whatever the first page size; a longer list ends in an error. */
  lemma EngineWalk(candidates: Candidates, filters: Filters, limit: nat)
    ensures var q := SearchFor(filters, limit);
            var items := candidates(QueryOf(filters), filters.province);
            var walk := WholeWalk(EngineServer(candidates), q);
            if IsInReach(q, items) then walk.end == Complete && SameItems(Full(q, walk.pages), Everything(q, items))
            else walk.end == Misled(OffsetTooLarge)
  {
    var q := SearchFor(filters, limit);
    var items := candidates(QueryOf(filters), filters.province);
    var fetch := FetchFor(EngineServer(candidates), q);
    QueryIsOfNarrowest(filters, limit);
    EngineFetches(candidates, q, QueryOf(filters));
    WalkReadsTheRest(fetch, items, START, PageSizeForTarget(q.Target()));
    assert items[0..] == items;
  }

  lemma {:induction false} KeepIsShorter<T>(items: seq<T>, wanted: T -> bool)
    ensures |Keep(items, wanted)| <= |items|
  {
    if items != [] {
      KeepIsShorter(items[1..], wanted);
    }
  }

  lemma {:induction false} DistinctIsShorter<T, K>(items: seq<T>, key: T -> K, seen: set<K>)
    ensures |Distinct(items, key, seen)| <= |items|
  {
    if items != [] {
      DistinctIsShorter(items[1..], key, if key(items[0]) in seen then seen else seen + {key(items[0])});
    }
  }

  lemma FullIsShorter(q: Search, pages: seq<Response>)
    ensures Total(Full(q, pages)) <= Total(Fetched(pages))
  {
    var all := Fetched(pages);
    KeepIsShorter(all.stations, StationFilter(q));
    KeepIsShorter(all.cities, CityFilter(q));
    KeepIsShorter(all.provinces, ProvinceFilter(q));
    var kept := Matching(q, all);
    DistinctIsShorter(kept.stations, StationKey, {});
    DistinctIsShorter(kept.cities, CityKey, Locations(Deduped(kept).stations));
    DistinctIsShorter(kept.provinces, ProvinceKey, {});
  }

  lemma PartIsNoLonger(q: Search, walk: Walk, items: seq<Candidate>, k: nat)
    requires k <= |walk.pages| && Total(Fetched(walk.pages)) <= |items|
    ensures Total(Full(q, walk.pages[..k])) <= |items|
  {
    FullIsShorter(q, walk.pages[..k]);
    assert walk.pages[..k] + walk.pages[k..] == walk.pages;
    FetchedAppend(walk.pages[..k], walk.pages[k..]);
  }

  /**
    Against the engine every search of a list in reach succeeds. A selector returns exactly the
    numbered distinct match of the whole list, or the cut list if there are fewer.
   */
  lemma EngineSelects(candidates: Candidates, filters: Filters, limit: nat, r: Result<Response, SearchError>)
    requires var q := SearchFor(filters, limit);
             && q.selector.Some? && q.selector.value > 0
             && IsInReach(q, candidates(QueryOf(filters), filters.province))
             && Searched(q, EngineServer(candidates), r)
    ensures var q := SearchFor(filters, limit);
            var all, n := Everything(q, candidates(QueryOf(filters), filters.province)), q.selector.value;
            && r.Ok?
            && (if n <= |all.stations|
                then r.value.stations == [all.stations[n - 1]] && r.value.cities == [] && r.value.provinces == []
                else SameItems(r.value, Truncated(all, limit)))
  {
    var q := SearchFor(filters, limit);
    EngineWalk(candidates, filters, limit);
    SelectorFindsTheNth(q, WholeWalk(EngineServer(candidates), q), r.value);
  }

  /** With a limit above the number of candidates a search returns all distinct matches of the list. */
  lemma EngineReturnsAll(candidates: Candidates, filters: Filters, limit: nat, r: Result<Response, SearchError>)
    requires var q := SearchFor(filters, limit);
             && q.selector.None? && limit > |candidates(QueryOf(filters), filters.province)|
             && IsInReach(q, candidates(QueryOf(filters), filters.province))
             && Searched(q, EngineServer(candidates), r)
    ensures var q := SearchFor(filters, limit);
            r.Ok? && SameItems(r.value, Everything(q, candidates(QueryOf(filters), filters.province)))
  {
    var q := SearchFor(filters, limit);
    var items := candidates(QueryOf(filters), filters.province);
    var walk := WholeWalk(EngineServer(candidates), q);
    EngineWalk(candidates, filters, limit);
    EngineTotal(candidates, filters, limit);
    FullIsShorterThan(q, walk, items, limit, r.value);
  }

  lemma EngineTotal(candidates: Candidates, filters: Filters, limit: nat)
    requires IsInReach(SearchFor(filters, limit), candidates(QueryOf(filters), filters.province))
    ensures Total(Fetched(WholeWalk(EngineServer(candidates), SearchFor(filters, limit)).pages))
            == |candidates(QueryOf(filters), filters.province)|
  {
    var q := SearchFor(filters, limit);
    var items := candidates(QueryOf(filters), filters.province);
    QueryIsOfNarrowest(filters, limit);
    EngineFetches(candidates, q, QueryOf(filters));
    WalkReadsTheRest(FetchFor(EngineServer(candidates), q), items, START, PageSizeForTarget(q.Target()));
    assert items[0..] == items;
    ListsAreNoLonger(items);
  }

  lemma FullIsShorterThan(q: Search, walk: Walk, items: seq<Candidate>, limit: nat, r: Response)
    requires q.selector.None? && q.limit == limit > |items| && Total(Fetched(walk.pages)) <= |items|
    requires IsAnswer(q, walk, r)
    ensures SameItems(r, Full(q, walk.pages))
  {
    var found :| Finds(q, walk, found) && r == Finalized(q, found);
    var k: nat :| StopsAfter(q, walk, k) && found == Full(q, walk.pages[..k]);
    PartIsNoLonger(q, walk, items, k);
    CutFits(found, limit);
    LimitIsFilledOrAllIsRead(q, walk, r);
  }
}
