/** What a search lists, in terms of the filters it was given. */
module SearchMatches {
  import opened Common
  import opened SearchResults
  import opened SearchText
  import opened Station

  /** The narrowest of the filters. */
  function NarrowestOf(filters: Filters): Option<string> {
    if filters.station.Some? then filters.station
    else if filters.city.Some? then filters.city
    else if filters.query.Some? then filters.query
    else filters.province
  }

  /** The narrowest filter without its selector. */
  function TextOf(filters: Filters): string {
    SplitResultSelector(NarrowestOf(filters).GetOr("")).0
  }

  lemma NarrowestIsText(filters: Filters)
    ensures SearchTextFromFilters(filters) == NarrowestOf(filters).GetOr("")
  {
  }

  lemma SearchOfText(filters: Filters, limit: nat, text: string)
    requires text == SearchTextFromFilters(filters)
    ensures SearchFor(filters, limit) == Search(filters, SplitResultSelector(text).0, SplitResultSelector(text).1, limit)
  {
  }

  lemma TextIsOfNarrowest(filters: Filters, limit: nat)
    ensures var q := SearchFor(filters, limit);
            && q.text == TextOf(filters) && q.filters == filters && q.limit == limit
            && q.selector == SplitResultSelector(NarrowestOf(filters).GetOr("")).1
  {
    NarrowestIsText(filters);
    SearchOfText(filters, limit, NarrowestOf(filters).GetOr(""));
  }

  /** The region is named in full or without its administrative suffix. */
  predicate NamesRegion(filter: string, region: string) {
    filter == region || filter == ShortRegionName(region)
  }

  predicate IsInRegion(filters: Filters, region: string) {
    filters.province.Some? ==> NamesRegion(filters.province.value, region)
  }

  /** A station filter is itself the text, so a path in it can only be a station's own name. */
  lemma StationsMatchExactlyWhen(filters: Filters, limit: nat, s: StationRef)
    ensures StationMatches(SearchFor(filters, limit), s) <==>
            && IsInRegion(filters, s.province)
            && (filters.city.Some? ==> filters.city.value == s.city)
            && (if '-' in TextOf(filters) then s.name == TextOf(filters)
                else filters.station.Some? ==> TextOf(filters) == s.name || TextOf(filters) == s.city)
  {
    TextIsOfNarrowest(filters, limit);
    MatchesByText(SearchFor(filters, limit), s, TextOf(filters));
  }

  lemma MatchesByText(q: Search, s: StationRef, text: string)
    requires q.text == text && (q.filters.station.Some? ==> SplitResultSelector(q.filters.station.value).0 == text)
    ensures StationMatches(q, s) <==>
            && IsInRegion(q.filters, s.province)
            && (q.filters.city.Some? ==> q.filters.city.value == s.city)
            && (if '-' in text then s.name == text else q.filters.station.Some? ==> text == s.name || text == s.city)
  {
  }

  /** A path never finds a city or a province. */
  lemma PlacesMatchExactlyWhen(filters: Filters, limit: nat, c: City, p: Province)
    ensures CityMatches(SearchFor(filters, limit), c) <==>
            && '-' !in TextOf(filters) && IsInRegion(filters, c.province)
            && (filters.city.Some? ==> filters.city.value == c.city)
    ensures ProvinceMatches(SearchFor(filters, limit), p) <==>
            '-' !in TextOf(filters) && (filters.province.Some? ==> filters.province.value == p.name)
  {
    TextIsOfNarrowest(filters, limit);
    PlacesMatchByText(SearchFor(filters, limit), c, p, TextOf(filters));
  }

  lemma PlacesMatchByText(q: Search, c: City, p: Province, text: string)
    requires q.text == text
    ensures CityMatches(q, c) <==>
            && '-' !in text && IsInRegion(q.filters, c.province)
            && (q.filters.city.Some? ==> q.filters.city.value == c.city)
    ensures ProvinceMatches(q, p) <==> '-' !in text && (q.filters.province.Some? ==> q.filters.province.value == p.name)
  {
  }

  lemma {:induction false} KeepsNone<T>(items: seq<T>, wanted: T -> bool)
    requires forall x | x in items :: !wanted(x)
    ensures Keep(items, wanted) == []
  {
    if items != [] {
      KeepsNone(items[1..], wanted);
    }
  }

  /** A search by path lists only stations of exactly that name. */
  lemma PathListsItsStations(filters: Filters, limit: nat, pages: seq<Response>)
    requires '-' in TextOf(filters)
    ensures var full := Full(SearchFor(filters, limit), pages);
            full.cities == [] && full.provinces == [] && forall s | s in full.stations :: s.name == TextOf(filters)
  {
    var q, fetched := SearchFor(filters, limit), Fetched(pages);
    TextIsOfNarrowest(filters, limit);
    KeepsNone(fetched.cities, CityFilter(q));
    KeepsNone(fetched.provinces, ProvinceFilter(q));
    forall s | s in Full(q, pages).stations ensures s.name == TextOf(filters) {
      EveryMatchIsListedOnce(q, pages, s);
      StationsMatchExactlyWhen(filters, limit, s);
    }
  }

  /** Listed stations differ in their public identity, and without one in name or place. */
  lemma IdentitiesDiffer(q: Search, pages: seq<Response>, i: nat, j: nat)
    requires i < j < |Full(q, pages).stations|
    ensures var a, b := Full(q, pages).stations[i], Full(q, pages).stations[j];
            && (a.unifiedUuid == b.unifiedUuid ==> a.unifiedUuid == "")
            && (a.unifiedUuid == b.unifiedUuid == "" ==> a.name != b.name || a.province != b.province || a.city != b.city)
  {
    EveryMatchIsListedOnce(q, pages, Full(q, pages).stations[i]);
    assert StationKey(Full(q, pages).stations[i]) != StationKey(Full(q, pages).stations[j]);
  }

  /** A city is listed if and only if it matches and no listed station lies in that province and city. */
  lemma ListedCitiesAreElsewhere(q: Search, pages: seq<Response>, c: City)
    ensures var full := Full(q, pages);
            c in full.cities <==>
              && CityMatches(q, c) && (exists i | 0 <= i < |pages| :: c in pages[i].cities)
              && (forall s | s in full.stations :: s.province != c.province || s.city != c.city)
  {
    CitiesAddSomething(q, pages, c);
    PlacesOf(Full(q, pages).stations, c);
    assert CityOnSomePage(pages, c) <==> exists i | 0 <= i < |pages| :: c in pages[i].cities;
  }

  lemma PlacesOf(stations: seq<StationRef>, c: City)
    ensures c in Locations(stations) <==> exists s | s in stations :: s.province == c.province && s.city == c.city
  {
    forall s | s in stations && s.province == c.province && s.city == c.city ensures c in Locations(stations) {
      var i :| 0 <= i < |stations| && stations[i] == s;
      assert Location(stations[i]) == c;
    }
  }

  lemma {:induction false} FetchedProvinces(pages: seq<Response>, p: Province)
    ensures p in Fetched(pages).provinces <==> exists i | 0 <= i < |pages| :: p in pages[i].provinces
  {
    if pages != [] {
      var n := |pages| - 1;
      FetchedProvinces(pages[..n], p);
      assert forall i | 0 <= i < n :: pages[..n][i] == pages[i];
      assert p in pages[n].provinces ==> exists i | 0 <= i < |pages| :: p in pages[i].provinces;
    }
  }

  lemma DistinctNames(items: seq<Province>, name: string)
    ensures var listed := Distinct(items, ProvinceKey, {});
            && (forall i, j | 0 <= i < j < |listed| :: listed[i].name != listed[j].name)
            && (Province(name) in listed <==> Province(name) in items)
  {
    var listed, p := Distinct(items, ProvinceKey, {}), Province(name);
    EachKeyOnce(items, ProvinceKey, {});
    if p in items {
      var i :| 0 <= i < |items| && items[i] == p;
      assert ProvinceKey(items[i]) in Keys(items, ProvinceKey);
      assert name in Keys(listed, ProvinceKey);
      var j :| 0 <= j < |listed| && name == ProvinceKey(listed[j]);
      assert listed[j] == p;
    }
    forall i, j | 0 <= i < j < |listed| ensures listed[i].name != listed[j].name {
      assert ProvinceKey(listed[i]) != ProvinceKey(listed[j]);
    }
  }

  /** The names of the matching provinces on the pages, each once. */
  lemma ProvincesAreListedOnce(q: Search, pages: seq<Response>, name: string)
    ensures var listed := Full(q, pages).provinces;
            && (forall i, j | 0 <= i < j < |listed| :: listed[i].name != listed[j].name)
            && (Province(name) in listed <==>
                ProvinceMatches(q, Province(name)) && exists i | 0 <= i < |pages| :: Province(name) in pages[i].provinces)
  {
    FetchedProvinces(pages, Province(name));
    KeepHolds(Fetched(pages).provinces, ProvinceFilter(q), Province(name));
    DistinctNames(Keep(Fetched(pages).provinces, ProvinceFilter(q)), name);
  }
}
