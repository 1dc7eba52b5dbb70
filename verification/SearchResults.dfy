/** Search results: filtering, collecting over pages, removing duplicates, and cutting to size. */
module SearchResults {
  import opened Common
  import opened SearchText
  import opened Station

  datatype StationRef = StationRef(province: string, city: string, name: string, unifiedUuid: string)

  datatype City = City(province: string, city: string)

  datatype Province = Province(name: string)

  datatype Response = Response(stations: seq<StationRef>, cities: seq<City>, provinces: seq<Province>,
                               hasMore: bool, nextOffset: nat)

  const NOTHING := Response([], [], [], false, 0)

  /** One search: its filters, the text and the selector taken from them, and the limit. */
  datatype Search = Search(filters: Filters, text: string, selector: Option<nat>, limit: nat) {
    function Target(): nat {
      selector.GetOr(limit)
    }
  }

  function SearchFor(filters: Filters, limit: nat): Search {
    var (text, selector) := SplitResultSelector(SearchTextFromFilters(filters));
    Search(filters, text, selector, limit)
  }

  // ----- Filtering -----

  predicate Allows(filter: Option<string>, name: string) {
    filter.None? || filter.value == name
  }

  predicate AllowsRegion(filter: Option<string>, region: string) {
    filter.None? || filter.value == region || filter.value == ShortRegionName(region)
  }

  predicate StationMatches(q: Search, s: StationRef) {
    var named := if q.filters.station.Some? then Some(SplitResultSelector(q.filters.station.value).0) else None;
    && AllowsRegion(q.filters.province, s.province)
    && Allows(q.filters.city, s.city)
    && (Allows(named, s.name) || Allows(named, s.city))
    && (SEPARATOR in q.text ==> s.name == q.text)
  }

  predicate CityMatches(q: Search, c: City) {
    && SEPARATOR !in q.text
    && AllowsRegion(q.filters.province, c.province)
    && Allows(q.filters.city, c.city)
  }

  predicate ProvinceMatches(q: Search, p: Province) {
    SEPARATOR !in q.text && Allows(q.filters.province, p.name)
  }

  function StationFilter(q: Search): StationRef -> bool {
    s => StationMatches(q, s)
  }

  function CityFilter(q: Search): City -> bool {
    c => CityMatches(q, c)
  }

  function ProvinceFilter(q: Search): Province -> bool {
    p => ProvinceMatches(q, p)
  }

  function Keep<T>(items: seq<T>, wanted: T -> bool): seq<T> {
    if items == [] then []
    else (if wanted(items[0]) then [items[0]] else []) + Keep(items[1..], wanted)
  }

  function Matching(q: Search, r: Response): Response {
    r.(stations := Keep(r.stations, StationFilter(q)), cities := Keep(r.cities, CityFilter(q)),
       provinces := Keep(r.provinces, ProvinceFilter(q)))
  }

  // ----- Removing duplicates -----

  /** The first item for every key that has not been seen yet. */
  function Distinct<T, K(==)>(items: seq<T>, key: T -> K, seen: set<K>): seq<T> {
    if items == [] then []
    else if key(items[0]) in seen then Distinct(items[1..], key, seen)
    else [items[0]] + Distinct(items[1..], key, seen + {key(items[0])})
  }

  function StationKey(s: StationRef): string {
    if s.unifiedUuid == "" then s.name + "|" + s.province + "|" + s.city else s.unifiedUuid
  }

  function CityKey(c: City): City {
    c
  }

  function ProvinceKey(p: Province): string {
    p.name
  }

  function Location(s: StationRef): City {
    City(s.province, s.city)
  }

  function Locations(stations: seq<StationRef>): set<City> {
    set i | 0 <= i < |stations| :: Location(stations[i])
  }

  /** No station twice, no city that a listed station lies in, no city or province twice. */
  function Deduped(r: Response): Response {
    var stations := Distinct(r.stations, StationKey, {});
    r.(stations := stations, cities := Distinct(r.cities, CityKey, Locations(stations)),
       provinces := Distinct(r.provinces, ProvinceKey, {}))
  }

  // ----- Collecting and cutting -----

  function Appended(a: Response, b: Response): Response {
    a.(stations := a.stations + b.stations, cities := a.cities + b.cities, provinces := a.provinces + b.provinces)
  }

  function Total(r: Response): nat {
    |r.stations| + |r.cities| + |r.provinces|
  }

  predicate TargetReached(q: Search, r: Response) {
    (if q.selector.Some? then |r.stations| else Total(r)) >= q.Target()
  }

  function Take<T>(items: seq<T>, n: nat): seq<T> {
    if n < |items| then items[..n] else items
  }

  function Less(n: nat, m: nat): nat {
    if m < n then n - m else 0
  }

  function Truncated(r: Response, limit: nat): Response {
    var stations := Take(r.stations, limit);
    var cities := Take(r.cities, Less(limit, |stations|));
    r.(stations := stations, cities := cities, provinces := Take(r.provinces, Less(limit, |stations| + |cities|)))
  }

  function Finalized(q: Search, r: Response): Response {
    if q.selector.Some? && 0 < q.selector.value <= |r.stations|
    then r.(stations := [r.stations[q.selector.value - 1]], cities := [], provinces := [])
    else Truncated(r, q.limit)
  }

  /** Keeps the first item for every key, remembering the keys in a set as it goes. */
  method RetainFirsts<T, K(==)>(items: seq<T>, key: T -> K, known: set<K>) returns (kept: seq<T>)
    ensures kept == Distinct(items, key, known)
  {
    var seen := known;
    kept := [];
    for i := 0 to |items|
      invariant kept + Distinct(items[i..], key, seen) == Distinct(items, key, known)
    {
      assert items[i..][0] == items[i] && items[i..][1..] == items[i + 1..];
      if key(items[i]) !in seen {
        seen := seen + {key(items[i])};
        kept := kept + [items[i]];
      }
    }
  }

  /** A response that is filled and cleaned in place. */
  class ResultList {
    var stations: seq<StationRef>
    var cities: seq<City>
    var provinces: seq<Province>
    var hasMore: bool
    var nextOffset: nat

    function View(): Response
      reads this
    {
      Response(stations, cities, provinces, hasMore, nextOffset)
    }

    constructor (r: Response)
      ensures View() == r
    {
      stations, cities, provinces := r.stations, r.cities, r.provinces;
      hasMore, nextOffset := r.hasMore, r.nextOffset;
    }

    method Retain(q: Search)
      modifies this
      ensures View() == Matching(q, old(View()))
    {
      stations := Keep(stations, StationFilter(q));
      cities := Keep(cities, CityFilter(q));
      provinces := Keep(provinces, ProvinceFilter(q));
    }

    /** Moves the items of `page` to the end of this list. */
    method Append(page: ResultList)
      requires page != this
      modifies this, page
      ensures View() == Appended(old(View()), old(page.View()))
      ensures Total(page.View()) == 0
    {
      stations, page.stations := stations + page.stations, [];
      cities, page.cities := cities + page.cities, [];
      provinces, page.provinces := provinces + page.provinces, [];
    }

    method Dedup()
      modifies this
      ensures View() == Deduped(old(View()))
    {
      stations := RetainFirsts(stations, StationKey, {});
      var stationLocations := set i | 0 <= i < |stations| :: Location(stations[i]);
      cities := RetainFirsts(cities, CityKey, stationLocations);
      provinces := RetainFirsts(provinces, ProvinceKey, {});
    }

    method Finalize(q: Search)
      modifies this
      ensures View() == Finalized(q, old(View()))
    {
      if q.selector.Some? && 0 < q.selector.value <= |stations| {
        stations := [stations[q.selector.value - 1]];
        cities, provinces := [], [];
      } else {
        stations := Take(stations, q.limit);
        cities := Take(cities, Less(q.limit, |stations|));
        provinces := Take(provinces, Less(q.limit, |stations| + |cities|));
      }
    }
  }

  // ----- What the helpers mean -----

  lemma {:induction false} KeepAppend<T>(a: seq<T>, b: seq<T>, wanted: T -> bool)
    ensures Keep(a + b, wanted) == Keep(a, wanted) + Keep(b, wanted)
  {
    if a == [] {
      assert a + b == b;
    } else {
      var first := if wanted(a[0]) then [a[0]] else [];
      assert (a + b)[1..] == a[1..] + b;
      KeepAppend(a[1..], b, wanted);
      assert first + (Keep(a[1..], wanted) + Keep(b, wanted)) == (first + Keep(a[1..], wanted)) + Keep(b, wanted);
    }
  }

  lemma KeepOne<T>(x: T, wanted: T -> bool)
    ensures Keep([x], wanted) == if wanted(x) then [x] else []
  {
    assert [x][1..] == [];
  }

  function Keys<T, K>(items: seq<T>, key: T -> K): set<K> {
    set i | 0 <= i < |items| :: key(items[i])
  }

  /** An item is kept exactly when no earlier item, and nothing seen before, has its key. */
  lemma {:induction false} KeptWhenFirst<T, K>(items: seq<T>, x: T, key: T -> K, seen: set<K>)
    ensures Distinct(items + [x], key, seen)
            == Distinct(items, key, seen) + if key(x) in seen || key(x) in Keys(items, key) then [] else [x]
  {
    if items == [] {
      assert [x][1..] == [] && items + [x] == [x];
    } else {
      var rest := items[1..];
      assert (items + [x])[1..] == rest + [x] && (items + [x])[0] == items[0];
      assert Keys(items, key) == {key(items[0])} + Keys(rest, key) by {
        assert items == [items[0]] + rest;
        forall k | k in Keys(items, key) ensures k in {key(items[0])} + Keys(rest, key) {
          var i :| 0 <= i < |items| && k == key(items[i]);
          assert i > 0 ==> rest[i - 1] == items[i];
        }
      }
      KeptWhenFirst(rest, x, key, if key(items[0]) in seen then seen else seen + {key(items[0])});
    }
  }

  lemma DistinctOne<T, K>(x: T, key: T -> K, seen: set<K>)
    requires key(x) !in seen
    ensures Distinct([x], key, seen) == [x]
  {
    assert [x][1..] == [];
  }

  /** Removing duplicates early changes nothing: more items may be added and cleaned again. */
  lemma {:induction false} EarlyDedupIsHarmless<T, K>(a: seq<T>, b: seq<T>, key: T -> K, early: set<K>, late: set<K>)
    requires early <= late
    ensures Distinct(Distinct(a, key, early) + b, key, late) == Distinct(a + b, key, late)
  {
    if a != [] {
      assert (a + b)[1..] == a[1..] + b;
      var k := key(a[0]);
      if k in early {
        EarlyDedupIsHarmless(a[1..], b, key, early, late);
      } else {
        var kept := Distinct(a[1..], key, early + {k});
        assert ([a[0]] + kept + b)[1..] == kept + b;
        EarlyDedupIsHarmless(a[1..], b, key, early + {k}, late + {k});
        assert k in late ==> late + {k} == late;
      }
    }
  }

  /** What is kept of a prefix is kept of the whole, in the same places. */
  lemma {:induction false} DistinctIsPrefixStable<T, K>(a: seq<T>, b: seq<T>, key: T -> K, seen: set<K>)
    ensures Distinct(a, key, seen) <= Distinct(a + b, key, seen)
  {
    if a != [] {
      assert (a + b)[1..] == a[1..] + b;
      DistinctIsPrefixStable(a[1..], b, key, if key(a[0]) in seen then seen else seen + {key(a[0])});
    }
  }

  // ----- Everything at once -----

  /** All pages as one response, unfiltered, with the flags of the last page. */
  function Fetched(pages: seq<Response>): Response {
    if pages == [] then NOTHING
    else
      var last := pages[|pages| - 1];
      Appended(Fetched(pages[..|pages| - 1]), last).(hasMore := last.hasMore, nextOffset := last.nextOffset)
  }

  /** The simple search: fetch everything, then filter, then remove duplicates. */
  function Full(q: Search, pages: seq<Response>): Response {
    Deduped(Matching(q, Fetched(pages)))
  }

  lemma MatchingAppended(q: Search, a: Response, b: Response)
    ensures Matching(q, Appended(a, b)) == Appended(Matching(q, a), Matching(q, b))
  {
    KeepAppend(a.stations, b.stations, StationFilter(q));
    KeepAppend(a.cities, b.cities, CityFilter(q));
    KeepAppend(a.provinces, b.provinces, ProvinceFilter(q));
  }

  lemma LocationsOfPrefix(a: seq<StationRef>, b: seq<StationRef>)
    requires a <= b
    ensures Locations(a) <= Locations(b)
  {
    forall c | c in Locations(a) ensures c in Locations(b) {
      var i :| 0 <= i < |a| && c == Location(a[i]);
      assert b[i] == a[i];
    }
  }

  /** Cleaning after every page ends where cleaning once at the end does. */
  lemma DedupAsYouGo(a: Response, b: Response)
    ensures Deduped(Appended(Deduped(a), b)) == Deduped(Appended(a, b))
  {
    EarlyDedupIsHarmless(a.stations, b.stations, StationKey, {}, {});
    DistinctIsPrefixStable(a.stations, b.stations, StationKey, {});
    var early := Distinct(a.stations, StationKey, {});
    var late := Distinct(a.stations + b.stations, StationKey, {});
    LocationsOfPrefix(early, late);
    EarlyDedupIsHarmless(a.cities, b.cities, CityKey, Locations(early), Locations(late));
    EarlyDedupIsHarmless(a.provinces, b.provinces, ProvinceKey, {}, {});
  }

  /** One turn of the paged search keeps up with the simple search. */
  lemma FullStep(q: Search, pages: seq<Response>, page: Response)
    ensures Full(q, pages + [page])
            == Deduped(Appended(Full(q, pages), Matching(q, page))).(hasMore := page.hasMore, nextOffset := page.nextOffset)
  {
    assert (pages + [page])[..|pages|] == pages;
    MatchingAppended(q, Fetched(pages), page);
    DedupAsYouGo(Matching(q, Fetched(pages)), Matching(q, page));
  }

  lemma {:induction false} FetchedAppend(a: seq<Response>, b: seq<Response>)
    ensures Fetched(a).stations <= Fetched(a + b).stations
    ensures Fetched(a).cities <= Fetched(a + b).cities
    ensures Fetched(a).provinces <= Fetched(a + b).provinces
  {
    if b == [] {
      assert a + b == a;
    } else {
      assert (a + b)[..|a + b| - 1] == a + b[..|b| - 1];
      FetchedAppend(a, b[..|b| - 1]);
    }
  }

  lemma KeptOfPrefix<T, K>(a: seq<T>, b: seq<T>, wanted: T -> bool, key: T -> K, seen: set<K>)
    requires a <= b
    ensures Distinct(Keep(a, wanted), key, seen) <= Distinct(Keep(b, wanted), key, seen)
  {
    assert a + b[|a|..] == b;
    KeepAppend(a, b[|a|..], wanted);
    DistinctIsPrefixStable(Keep(a, wanted), Keep(b[|a|..], wanted), key, seen);
  }

  /** More pages only add stations at the end of the list. */
  lemma StationsOnlyGrow(q: Search, pages: seq<Response>, k: nat)
    requires k <= |pages|
    ensures Full(q, pages[..k]).stations <= Full(q, pages).stations
  {
    assert pages[..k] + pages[k..] == pages;
    FetchedAppend(pages[..k], pages[k..]);
    KeptOfPrefix(Fetched(pages[..k]).stations, Fetched(pages).stations, StationFilter(q), StationKey, {});
  }

  /** More pages only add provinces at the end; cities too, as long as no station was added. */
  lemma CitiesAndProvincesGrow(q: Search, pages: seq<Response>, k: nat)
    requires k <= |pages|
    ensures Full(q, pages[..k]).provinces <= Full(q, pages).provinces
    ensures Full(q, pages[..k]).stations == Full(q, pages).stations
            ==> Full(q, pages[..k]).cities <= Full(q, pages).cities
  {
    assert pages[..k] + pages[k..] == pages;
    FetchedAppend(pages[..k], pages[k..]);
    KeptOfPrefix(Fetched(pages[..k]).provinces, Fetched(pages).provinces, ProvinceFilter(q), ProvinceKey, {});
    KeptOfPrefix(Fetched(pages[..k]).cities, Fetched(pages).cities, CityFilter(q), CityKey,
                 Locations(Full(q, pages).stations));
  }

  // ----- What the simple search finds -----

  predicate OnSomePage(pages: seq<Response>, s: StationRef) {
    exists p | 0 <= p < |pages| :: s in pages[p].stations
  }

  predicate CityOnSomePage(pages: seq<Response>, c: City) {
    exists p | 0 <= p < |pages| :: c in pages[p].cities
  }

  lemma OnLastPage(pages: seq<Response>, s: StationRef, c: City)
    requires pages != []
    ensures var n := |pages| - 1;
            && (OnSomePage(pages, s) <==> OnSomePage(pages[..n], s) || s in pages[n].stations)
            && (CityOnSomePage(pages, c) <==> CityOnSomePage(pages[..n], c) || c in pages[n].cities)
  {
    var n := |pages| - 1;
    assert forall p | 0 <= p < n :: pages[..n][p] == pages[p];
  }

  lemma {:induction false} FetchedHolds(pages: seq<Response>, s: StationRef, c: City)
    ensures s in Fetched(pages).stations <==> OnSomePage(pages, s)
    ensures c in Fetched(pages).cities <==> CityOnSomePage(pages, c)
  {
    if pages != [] {
      FetchedHolds(pages[..|pages| - 1], s, c);
      OnLastPage(pages, s, c);
    }
  }

  lemma {:induction false} KeepHolds<T>(items: seq<T>, wanted: T -> bool, x: T)
    ensures x in Keep(items, wanted) <==> x in items && wanted(x)
  {
    if items != [] {
      KeepHolds(items[1..], wanted, x);
      assert items == [items[0]] + items[1..];
    }
  }

  predicate KeysDiffer<T, K(==)>(items: seq<T>, key: T -> K) {
    forall i, j | 0 <= i < j < |items| :: key(items[i]) != key(items[j])
  }

  lemma {:induction false} EachKeyOnce<T, K>(items: seq<T>, key: T -> K, seen: set<K>)
    ensures KeysDiffer(Distinct(items, key, seen), key)
    ensures Keys(Distinct(items, key, seen), key) == Keys(items, key) - seen
    ensures forall x | x in Distinct(items, key, seen) :: x in items
  {
    if items != [] {
      var k := key(items[0]);
      var rest := Distinct(items[1..], key, if k in seen then seen else seen + {k});
      EachKeyOnce(items[1..], key, if k in seen then seen else seen + {k});
      KeysOfFront(items[0], items[1..], key);
      KeysOfFront(items[0], rest, key);
      assert items == [items[0]] + items[1..];
      if k !in seen {
        forall j | 0 <= j < |rest| ensures key(rest[j]) != k {
          assert key(rest[j]) in Keys(rest, key);
        }
      }
    }
  }

  lemma KeysOfFront<T, K>(x: T, items: seq<T>, key: T -> K)
    ensures Keys([x] + items, key) == {key(x)} + Keys(items, key)
  {
    var all := [x] + items;
    forall k | k in Keys(all, key) ensures k in {key(x)} + Keys(items, key) {
      var i :| 0 <= i < |all| && k == key(all[i]);
      assert i > 0 ==> all[i] == items[i - 1];
    }
    assert all[0] == x;
    forall i | 0 <= i < |items| ensures key(items[i]) in Keys(all, key) {
      assert all[i + 1] == items[i];
    }
  }

  /** The simple search lists the matching stations of all pages, each public identity once, and nothing else. */
  lemma EveryMatchIsListedOnce(q: Search, pages: seq<Response>, s: StationRef)
    ensures KeysDiffer(Full(q, pages).stations, StationKey)
    ensures s in Full(q, pages).stations ==> StationMatches(q, s) && OnSomePage(pages, s)
    ensures StationMatches(q, s) && OnSomePage(pages, s)
            ==> StationKey(s) in Keys(Full(q, pages).stations, StationKey)
  {
    var matching := Keep(Fetched(pages).stations, StationFilter(q));
    FetchedHolds(pages, s, Location(s));
    KeepHolds(Fetched(pages).stations, StationFilter(q), s);
    EachKeyOnce(matching, StationKey, {});
    if s in matching {
      var i :| 0 <= i < |matching| && matching[i] == s;
      assert StationKey(matching[i]) in Keys(matching, StationKey);
    }
  }

  /** And exactly the matching cities that no listed station lies in, each once. */
  lemma CitiesAddSomething(q: Search, pages: seq<Response>, c: City)
    ensures KeysDiffer(Full(q, pages).cities, CityKey)
    ensures c in Full(q, pages).cities <==>
            CityMatches(q, c) && CityOnSomePage(pages, c) && c !in Locations(Full(q, pages).stations)
  {
    var full := Full(q, pages);
    var matching := Keep(Fetched(pages).cities, CityFilter(q));
    FetchedHolds(pages, StationRef("", "", "", ""), c);
    KeepHolds(Fetched(pages).cities, CityFilter(q), c);
    EachKeyOnce(matching, CityKey, Locations(full.stations));
    InKeys(full.cities, c);
    InKeys(matching, c);
  }

  lemma InKeys(cities: seq<City>, c: City)
    ensures c in cities <==> c in Keys(cities, CityKey)
  {
    if c in cities {
      var i :| 0 <= i < |cities| && cities[i] == c;
      assert CityKey(cities[i]) == c;
    }
  }
}
