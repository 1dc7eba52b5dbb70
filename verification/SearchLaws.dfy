/** What stopping early costs: nothing for a numbered result, and exactly this much for a plain search. */
module SearchLaws {
  import opened Common
  import opened Pagination
  import opened PagedSearch
  import opened SearchResults
  import opened SearchText

  /** However the server cuts its pages, at most 392 requests are made. */
  lemma {:induction false} RequestsAreBounded(fetch: Fetch, c: Cursor, size: nat)
    requires c.requestCount <= MAX_PAGINATED_REQUESTS
    ensures var walk := AllPages(fetch, c, size);
            |walk.pages| + (if walk.end.Broken? then 1 else 0) <= MAX_PAGINATED_REQUESTS - c.requestCount
    decreases MAX_PAGINATED_REQUESTS - c.requestCount
  {
    var requested := Requested(c, size);
    if requested.Ok? {
      var answer := fetch(c.requestCount, c.offset, size);
      if answer.Ok? {
        var advanced := Advanced(requested.value, answer.value.hasMore, answer.value.nextOffset);
        if advanced.Ok? && advanced.value.Some? {
          RequestsAreBounded(fetch, advanced.value.value, MAX_RPC_PAGE_SIZE);
        }
      }
    }
  }

  /** There is only one place to stop. */
  lemma StopIsUnique(q: Search, walk: Walk, k: nat, j: nat)
    requires StopsAfter(q, walk, k) && StopsAfter(q, walk, j)
    ensures k == j
  {
    var enough := (EnoughAfter(q, walk.pages, k), EnoughAfter(q, walk.pages, j));
  }

  /** So the pages decide the answer. */
  lemma AnswerIsUnique(q: Search, walk: Walk, r: Response, other: Response)
    requires IsAnswer(q, walk, r) && IsAnswer(q, walk, other)
    ensures r == other
  {
    var found :| Finds(q, walk, found) && r == Finalized(q, found);
    var found' :| Finds(q, walk, found') && other == Finalized(q, found');
    var k: nat :| StopsAfter(q, walk, k) && found == Full(q, walk.pages[..k]);
    var j: nat :| StopsAfter(q, walk, j) && found' == Full(q, walk.pages[..j]);
    StopIsUnique(q, walk, k, j);
  }

  /** An answer is cut from a list that starts like the full one, and is the full one unless enough was found. */
  lemma WhereItStopped(q: Search, walk: Walk, r: Response) returns (few: Response)
    requires IsAnswer(q, walk, r)
    ensures r == Finalized(q, few)
    ensures few.stations <= Full(q, walk.pages).stations
    ensures TargetReached(q, few) || (walk.end == Complete && few == Full(q, walk.pages))
  {
    few :| Finds(q, walk, few) && r == Finalized(q, few);
    var k: nat :| StopsAfter(q, walk, k) && few == Full(q, walk.pages[..k]);
    StationsOnlyGrow(q, walk.pages, k);
    assert k == |walk.pages| ==> walk.pages[..k] == walk.pages;
  }

  lemma {:induction false} FirstEnough(q: Search, pages: seq<Response>, n: nat) returns (k: nat)
    requires n <= |pages| && !NotEnoughUpTo(q, pages, n)
    ensures 0 < k <= n && EnoughAfter(q, pages, k) && NotEnoughUpTo(q, pages, k - 1)
  {
    if NotEnoughUpTo(q, pages, n - 1) {
      k := n;
    } else {
      k := FirstEnough(q, pages, n - 1);
    }
  }

  /** The pages that count: one that points nowhere fails the search even if it would have sufficed. */
  function Usable(walk: Walk): nat
    requires walk.end.Misled? ==> walk.pages != []
  {
    if walk.end.Misled? then |walk.pages| - 1 else |walk.pages|
  }

  /** A search fails exactly if the walk was cut short and no usable page made it enough, and it says why. */
  lemma FailsExactlyWhen(q: Search, server: Server, r: Result<Response, SearchError>)
    requires q.Target() > 0 && Searched(q, server, r)
    ensures var walk := WholeWalk(server, q);
            && (r.Err? <==> walk.end != Complete && forall k | 0 < k <= Usable(walk) :: !EnoughAfter(q, walk.pages, k))
            && (r.Err? ==> r.error == if walk.end.Broken? then FetchFailed(walk.end.message) else BadCursor(walk.end.error))
  {
    var walk := WholeWalk(server, q);
    if r.Err? {
      if !NotEnoughUpTo(q, walk.pages, Usable(walk)) {
        var k := FirstEnough(q, walk.pages, Usable(walk));
        assert StopsAfter(q, walk, k);
      }
    } else {
      var found :| Finds(q, walk, found) && r.value == Finalized(q, found);
      var k: nat :| StopsAfter(q, walk, k) && found == Full(q, walk.pages[..k]);
    }
  }

  /** No page is read in vain: as long as the search goes on, fewer stations or results were found than wanted. */
  lemma NoPageInVain(q: Search, walk: Walk, k: nat, j: nat)
    requires StopsAfter(q, walk, k) && 0 < j <= k
    ensures var found := Full(q, walk.pages[..j]);
            var enough := if q.selector.Some? then |found.stations| >= q.selector.value
                          else |found.stations| + |found.cities| + |found.provinces| >= q.limit;
            if j < k then !enough else enough || (k == |walk.pages| && walk.end == Complete)
  {
    assert EnoughAfter(q, walk.pages, j) <==> TargetReached(q, Full(q, walk.pages[..j]));
  }

  // ----- A numbered result -----

  lemma NthOfPrefix(q: Search, few: Response, all: Response)
    requires q.selector.Some? && q.selector.value > 0 && few.stations <= all.stations
    requires TargetReached(q, few) || few == all
    ensures var n := q.selector.value;
            Finalized(q, few) == if n <= |all.stations| then few.(stations := [all.stations[n - 1]], cities := [], provinces := [])
                                 else Truncated(all, q.limit)
  {
  }

  /**
    A selector finds what it would find in the full list, wherever the search stopped. When the list
    is too short the search has read all of it.
   */
  lemma SelectorFindsTheNth(q: Search, walk: Walk, r: Response)
    requires q.selector.Some? && q.selector.value > 0 && IsAnswer(q, walk, r)
    ensures var full, n := Full(q, walk.pages), q.selector.value;
            if n <= |full.stations|
            then r.stations == [full.stations[n - 1]] && r.cities == [] && r.provinces == []
            else walk.end == Complete && r == Truncated(full, q.limit)
  {
    var few := WhereItStopped(q, walk, r);
    NthOfPrefix(q, few, Full(q, walk.pages));
  }

  // ----- The first so many results -----

  predicate SameItems(a: Response, b: Response) {
    a.stations == b.stations && a.cities == b.cities && a.provinces == b.provinces
  }

  lemma CutFits(few: Response, limit: nat)
    ensures var cut := Truncated(few, limit);
            && Total(cut) == (if Total(few) < limit then Total(few) else limit)
            && cut.stations <= few.stations
            && (Total(few) <= limit ==> cut == few)
  {
  }

  /** A plain search fills the limit or has read everything, and its stations lead the full list. */
  lemma LimitIsFilledOrAllIsRead(q: Search, walk: Walk, r: Response)
    requires q.selector.None? && IsAnswer(q, walk, r)
    ensures Total(r) <= q.limit
    ensures r.stations <= Full(q, walk.pages).stations
    ensures Total(r) < q.limit ==> walk.end == Complete && r == Full(q, walk.pages)
  {
    var few := WhereItStopped(q, walk, r);
    CutFits(few, q.limit);
  }

  // ----- What an early stop can miss -----

  /** No later page holds a matching station that is not among those found. */
  predicate NoNewStation(q: Search, found: Response, later: seq<Response>) {
    forall p, i | 0 <= p < |later| && 0 <= i < |later[p].stations| && StationMatches(q, later[p].stations[i]) ::
      StationKey(later[p].stations[i]) in Keys(found.stations, StationKey)
  }

  /** No later page holds a matching city that is neither found nor the place of a found station. */
  predicate NoNewCity(q: Search, found: Response, later: seq<Response>) {
    forall p, i | 0 <= p < |later| && 0 <= i < |later[p].cities| && CityMatches(q, later[p].cities[i]) ::
      later[p].cities[i] in found.cities || later[p].cities[i] in Locations(found.stations)
  }

  /** The stations fill the limit or none follows, and then the same for the cities behind them. */
  predicate NothingMissed(q: Search, found: Response, later: seq<Response>) {
    || |found.stations| >= q.limit
    || (NoNewStation(q, found, later) && (|found.stations| + |found.cities| >= q.limit || NoNewCity(q, found, later)))
  }

  lemma NewStationIsListed(q: Search, pages: seq<Response>, k: nat, p: nat, i: nat)
    requires k <= |pages| && p < |pages[k..]| && i < |pages[k..][p].stations|
    requires StationMatches(q, pages[k..][p].stations[i])
    ensures StationKey(pages[k..][p].stations[i]) in Keys(Full(q, pages).stations, StationKey)
  {
    var s := pages[k..][p].stations[i];
    assert pages[k + p].stations[i] == s;
    assert OnSomePage(pages, s);
    EveryMatchIsListedOnce(q, pages, s);
  }

  lemma ListedStationIsFoundOrNew(q: Search, pages: seq<Response>, k: nat, s: StationRef)
    requires k <= |pages| && s in Full(q, pages).stations && NoNewStation(q, Full(q, pages[..k]), pages[k..])
    ensures StationKey(s) in Keys(Full(q, pages[..k]).stations, StationKey)
  {
    EveryMatchIsListedOnce(q, pages, s);
    var p :| 0 <= p < |pages| && s in pages[p].stations;
    if p < k {
      assert pages[..k][p] == pages[p];
      EveryMatchIsListedOnce(q, pages[..k], s);
    } else {
      assert pages[k..][p - k] == pages[p];
      var i :| 0 <= i < |pages[p].stations| && pages[p].stations[i] == s;
      assert pages[k..][p - k].stations[i] == s;
    }
  }

  /** The list of stations has stopped growing exactly when no later page has a new one. */
  lemma StationsAreComplete(q: Search, pages: seq<Response>, k: nat)
    requires k <= |pages|
    ensures |Full(q, pages[..k]).stations| == |Full(q, pages).stations|
            <==> NoNewStation(q, Full(q, pages[..k]), pages[k..])
  {
    var few, all := Full(q, pages[..k]).stations, Full(q, pages).stations;
    StationsOnlyGrow(q, pages, k);
    if |few| == |all| {
      forall p, i | 0 <= p < |pages[k..]| && 0 <= i < |pages[k..][p].stations| && StationMatches(q, pages[k..][p].stations[i])
        ensures StationKey(pages[k..][p].stations[i]) in Keys(few, StationKey)
      {
        NewStationIsListed(q, pages, k, p, i);
      }
    } else if NoNewStation(q, Full(q, pages[..k]), pages[k..]) {
      ListedStationIsFoundOrNew(q, pages, k, all[|few|]);
      NoKeyTwice(q, pages, few, all);
    }
  }

  lemma NoKeyTwice(q: Search, pages: seq<Response>, few: seq<StationRef>, all: seq<StationRef>)
    requires all == Full(q, pages).stations && few < all
    ensures StationKey(all[|few|]) !in Keys(few, StationKey)
  {
    EveryMatchIsListedOnce(q, pages, all[|few|]);
    forall j | 0 <= j < |few| ensures StationKey(few[j]) != StationKey(all[|few|]) {
      assert few[j] == all[j];
    }
  }

  lemma NoCityTwice(q: Search, pages: seq<Response>, few: seq<City>, all: seq<City>)
    requires all == Full(q, pages).cities && few < all
    ensures all[|few|] !in few
  {
    CitiesAddSomething(q, pages, all[|few|]);
    forall j | 0 <= j < |few| ensures few[j] != all[|few|] {
      assert few[j] == all[j] && CityKey(all[j]) != CityKey(all[|few|]);
    }
  }

  lemma NewCityIsListed(q: Search, pages: seq<Response>, k: nat, p: nat, i: nat)
    requires k <= |pages| && p < |pages[k..]| && i < |pages[k..][p].cities|
    requires CityMatches(q, pages[k..][p].cities[i])
    ensures var c := pages[k..][p].cities[i];
            c in Full(q, pages).cities || c in Locations(Full(q, pages).stations)
  {
    var c := pages[k..][p].cities[i];
    assert pages[k + p].cities[i] == c;
    assert CityOnSomePage(pages, c);
    CitiesAddSomething(q, pages, c);
  }

  lemma ListedCityIsFoundOrNew(q: Search, pages: seq<Response>, k: nat, c: City)
    requires k <= |pages| && Full(q, pages[..k]).stations == Full(q, pages).stations
    requires c in Full(q, pages).cities && NoNewCity(q, Full(q, pages[..k]), pages[k..])
    ensures c in Full(q, pages[..k]).cities
  {
    CitiesAddSomething(q, pages, c);
    var p :| 0 <= p < |pages| && c in pages[p].cities;
    if p < k {
      assert pages[..k][p] == pages[p];
      CitiesAddSomething(q, pages[..k], c);
    } else {
      assert pages[k..][p - k] == pages[p];
      var i :| 0 <= i < |pages[p].cities| && pages[p].cities[i] == c;
      assert pages[k..][p - k].cities[i] == c;
    }
  }

  lemma CitiesAreComplete(q: Search, pages: seq<Response>, k: nat)
    requires k <= |pages| && Full(q, pages[..k]).stations == Full(q, pages).stations
    ensures |Full(q, pages[..k]).cities| == |Full(q, pages).cities| <==> NoNewCity(q, Full(q, pages[..k]), pages[k..])
  {
    var few, all := Full(q, pages[..k]).cities, Full(q, pages).cities;
    CitiesAndProvincesGrow(q, pages, k);
    if |few| == |all| {
      forall p, i | 0 <= p < |pages[k..]| && 0 <= i < |pages[k..][p].cities| && CityMatches(q, pages[k..][p].cities[i])
        ensures pages[k..][p].cities[i] in few || pages[k..][p].cities[i] in Locations(Full(q, pages[..k]).stations)
      {
        NewCityIsListed(q, pages, k, p, i);
      }
    } else if NoNewCity(q, Full(q, pages[..k]), pages[k..]) {
      var c := all[|few|];
      ListedCityIsFoundOrNew(q, pages, k, c);
      NoCityTwice(q, pages, few, all);
    }
  }

  // ----- Cutting a part and cutting the whole -----

  /** Whether cutting `few` gives what cutting `all`, a later list, would give. */
  predicate NothingLeftOut(few: Response, all: Response, limit: nat) {
    || |few.stations| >= limit
    || (|few.stations| == |all.stations| &&
        (|few.stations| + |few.cities| >= limit || |few.cities| == |all.cities|))
  }

  lemma CutsAgree(few: Response, all: Response, limit: nat)
    requires few.stations <= all.stations && few.provinces <= all.provinces
    requires few.stations == all.stations ==> few.cities <= all.cities
    requires Total(few) >= limit
    ensures SameItems(Truncated(few, limit), Truncated(all, limit)) <==> NothingLeftOut(few, all, limit)
  {
    if |few.stations| >= limit {
      assert all.stations[..limit] == few.stations[..limit];
    } else if |few.stations| == |all.stations| {
      assert few.stations == all.stations;
      var room := limit - |few.stations|;
      if |few.cities| >= room {
        assert all.cities[..room] == few.cities[..room];
      } else if |few.cities| == |all.cities| {
        assert few.cities == all.cities;
        var left := room - |few.cities|;
        assert all.provinces[..left] == few.provinces[..left];
      } else {
        assert |Truncated(all, limit).cities| > |Truncated(few, limit).cities|;
      }
    } else {
      assert |Truncated(all, limit).stations| > |Truncated(few, limit).stations|;
    }
  }

  /**
    A plain search that stops early answers like the simple search if and only if the stations found
    fill the limit, or the later pages hold no new matching station and either stations and cities
    fill it together or the later pages hold no new matching city.
   */
  lemma EarlyStopAgreesExactlyWhen(q: Search, walk: Walk, k: nat)
    requires q.selector.None? && StopsAfter(q, walk, k) && EnoughAfter(q, walk.pages, k)
    ensures SameItems(Answer(q, walk.pages[..k]), Truncated(Full(q, walk.pages), q.limit))
            <==> NothingMissed(q, Full(q, walk.pages[..k]), walk.pages[k..])
  {
    var few, all := Full(q, walk.pages[..k]), Full(q, walk.pages);
    StationsOnlyGrow(q, walk.pages, k);
    CitiesAndProvincesGrow(q, walk.pages, k);
    CutsAgree(few, all, q.limit);
    StationsAreComplete(q, walk.pages, k);
    if few.stations == all.stations {
      CitiesAreComplete(q, walk.pages, k);
    }
  }

  // ----- What is safe to know at the moment of stopping -----

  lemma LongerThanAll(texts: seq<string>) returns (unused: string)
    ensures unused != "" && unused !in texts
  {
    unused := "x";
    for i := 0 to |texts|
      invariant unused != "" && forall j | 0 <= j < i :: |texts[j]| < |unused|
    {
      unused := unused + texts[i] + "x";
    }
  }

  function KeyList(stations: seq<StationRef>): seq<string> {
    seq(|stations|, i requires 0 <= i < |stations| => StationKey(stations[i]))
  }

  /** Whatever the filters of a search, some station matches them and is not among those found. */
  lemma SomeNewStation(filters: Filters, limit: nat, found: seq<StationRef>) returns (s: StationRef)
    ensures StationMatches(SearchFor(filters, limit), s) && StationKey(s) !in Keys(found, StationKey)
  {
    var q := SearchFor(filters, limit);
    var uuid := LongerThanAll(KeyList(found));
    s := StationRef(filters.province.GetOr(""), filters.city.GetOr(""), q.text, uuid);
    forall i | 0 <= i < |found| ensures StationKey(found[i]) != uuid {
      assert KeyList(found)[i] == StationKey(found[i]);
    }
  }

  /**
    With the pages read so far alone, the answer is sure to be that of the simple search, whatever
    pages may follow, if and only if the stations found fill the limit.
   */
  lemma OnlyStationsAreSafe(filters: Filters, limit: nat, pages: seq<Response>)
    requires SearchFor(filters, limit).selector.None?
    ensures var q := SearchFor(filters, limit);
            (forall later :: AgreesWith(q, pages, later)) <==> |Full(q, pages).stations| >= limit
  {
    var q := SearchFor(filters, limit);
    var few := Full(q, pages);
    if |few.stations| >= limit {
      forall later ensures AgreesWith(q, pages, later) {
        assert (pages + later)[..|pages|] == pages;
        StationsOnlyGrow(q, pages + later, |pages|);
        CitiesAndProvincesGrow(q, pages + later, |pages|);
        CutsAgree(few, Full(q, pages + later), limit);
      }
    } else {
      var s := SomeNewStation(filters, limit, few.stations);
      var later := [Response([s], [], [], false, 0)];
      var all := Full(q, pages + later);
      assert (pages + later)[..|pages|] == pages && (pages + later)[|pages|..] == later;
      StationsOnlyGrow(q, pages + later, |pages|);
      StationsAreComplete(q, pages + later, |pages|);
      assert later[0].stations[0] == s;
      assert |Truncated(all, limit).stations| > |Truncated(few, limit).stations|;
      assert !AgreesWith(q, pages, later);
    }
  }

  predicate AgreesWith(q: Search, pages: seq<Response>, later: seq<Response>) {
    SameItems(Truncated(Full(q, pages), q.limit), Truncated(Full(q, pages + later), q.limit))
  }

  // ----- An early stop that differs -----

  function TwoPages(first: Response, second: Response): Server {
    (n: nat, ask: Request) => if n == 0 then Ok(first) else Ok(second)
  }

  lemma WalkOfTwoPages(q: Search, first: Response, second: Response)
    requires q.Target() == 1 && first.hasMore && !second.hasMore && first.nextOffset == 1
    ensures WholeWalk(TwoPages(first, second), q) == Walk([first, second], Complete)
  {
    var fetch := FetchFor(TwoPages(first, second), q);
    assert fetch(0, 0, 1) == Ok(first) && fetch(1, 1, MAX_RPC_PAGE_SIZE) == Ok(second);
    assert AllPages(fetch, Cursor(1, 1), MAX_RPC_PAGE_SIZE) == Walk([second], Complete);
  }

  lemma NoFilterMatchesAll(q: Search, city: City, station: StationRef)
    requires q == SearchFor(Filters(Some(""), None, None, None), 1)
    ensures q.text == "" && q.selector == None && CityMatches(q, city) && StationMatches(q, station)
  {
  }

  lemma CityPage(q: Search, city: City)
    requires q.text == "" && CityMatches(q, city)
    ensures Full(q, [Response([], [city], [], true, 1)]) == Response([], [city], [], true, 1)
  {
    var first := Response([], [city], [], true, 1);
    assert [first][..0] == [];
    assert Fetched([first]) == first;
    KeepOne(city, CityFilter(q));
    assert Matching(q, first) == first;
    assert Locations([]) == {};
    DistinctOne(city, CityKey, {});
  }

  lemma CityThenStation(q: Search, city: City, station: StationRef, first: Response, second: Response)
    requires StationMatches(q, station) && Full(q, [first]) == first
    requires first == Response([], [city], [], true, 1) && second == Response([station], [], [], false, 2)
    ensures Full(q, [first, second]).stations == [station]
  {
    FullStep(q, [first], second);
    assert [first] + [second] == [first, second];
    KeepOne(station, StationFilter(q));
    assert Matching(q, second).stations == [station];
    assert [] + [station] == [station];
    DistinctOne(station, StationKey, {});
  }

  /** It can differ: a server with a city on its first page hides the station on its second. */
  lemma EarlyStopCanDiffer(city: City, station: StationRef)
    requires Location(station) != city
    ensures var q := SearchFor(Filters(Some(""), None, None, None), 1);
            var first, second := Response([], [city], [], true, 1), Response([station], [], [], false, 2);
            var walk := WholeWalk(TwoPages(first, second), q);
            && walk == Walk([first, second], Complete) && StopsAfter(q, walk, 1)
            && Answer(q, walk.pages[..1]).cities == [city] && Answer(q, walk.pages[..1]).stations == []
            && Truncated(Full(q, walk.pages), 1).stations == [station]
  {
    var q := SearchFor(Filters(Some(""), None, None, None), 1);
    var first, second := Response([], [city], [], true, 1), Response([station], [], [], false, 2);
    WalkOfTwoPages(q, first, second);
    NoFilterMatchesAll(q, city, station);
    CityPage(q, city);
    CityThenStation(q, city, station, first, second);
    assert [first, second][..1] == [first];
  }
}
