/** What every history of replacements keeps: the counts are right, so no query ever reports a mismatch. */
module CatalogRuns {
  import opened Catalog
  import opened Common
  import opened Ordering
  import opened Text

  // ----- The counts -----

  /** A recorded count is the number of rows; without a record there are no rows. */
  ghost predicate ProvincesCounted(t: Tables, provider: Provider) {
    var key := StateKey(provider, ProvinceCatalog, PROVINCE_SCOPE);
    if key in t.states then t.states[key].rowCount == |ProvinceKeys(t, provider)| else ProvinceKeys(t, provider) == {}
  }

  ghost predicate CitiesCounted(t: Tables, provider: Provider, scope: Code) {
    var key := StateKey(provider, CityCatalog, scope);
    if key in t.states then t.states[key].rowCount == |CityKeys(t, provider, scope)| else CityKeys(t, provider, scope) == {}
  }

  ghost predicate Consistent(t: Tables) {
    && (forall p: Provider :: ProvincesCounted(t, p))
    && (forall p: Provider, s: Code :: CitiesCounted(t, p, s))
  }

  lemma {:induction false} RowKeys<R>(provider: Provider, codes: seq<Code>, rows: seq<R>)
    requires |codes| == |rows|
    ensures forall k :: k in Rows(provider, codes, rows) <==> k.provider == provider && k.code in codes
  {
    if codes != [] {
      var n := |codes| - 1;
      RowKeys(provider, codes[..n], rows[..n]);
      assert codes == codes[..n] + [codes[n]];
    }
  }

  lemma {:induction false} RowValues<R>(provider: Provider, codes: seq<Code>, rows: seq<R>, k: RowKey)
    requires |codes| == |rows| && k in Rows(provider, codes, rows)
    ensures Rows(provider, codes, rows)[k] in rows
  {
    var n := |codes| - 1;
    if k != RowKey(provider, codes[n]) {
      RowValues(provider, codes[..n], rows[..n], k);
    }
  }

  lemma {:induction false} RowCount<R>(provider: Provider, codes: seq<Code>, rows: seq<R>)
    requires |codes| == |rows| && AllDiffer(codes)
    ensures |Rows(provider, codes, rows)| == |codes|
  {
    if codes != [] {
      var n := |codes| - 1;
      var front := Rows(provider, codes[..n], rows[..n]);
      RowCount(provider, codes[..n], rows[..n]);
      RowKeys(provider, codes[..n], rows[..n]);
      assert codes[n] !in codes[..n];
      assert Rows(provider, codes, rows).Keys == front.Keys + {RowKey(provider, codes[n])};
    }
  }

  /** The rows of a scope are filed under that scope. */
  lemma CityRowScope(provider: Provider, scope: Code, items: seq<CityItem>, k: RowKey)
    requires k in CityRows(provider, scope, items)
    ensures CityRows(provider, scope, items)[k].scope == scope
  {
    RowValues(provider, CityCodes(items), CityRowList(scope, items), k);
  }

  /** What passes validation has no code twice. */
  lemma ValidProvincesDiffer(provider: Provider, items: seq<ProvinceItem>)
    requires ProvincesError(provider, items) == None
    ensures AllDiffer(ProvinceCodes(items))
  {
    AcceptedCodes(ProvinceCodes(items), {});
  }

  lemma ValidCitiesDiffer(provider: Provider, scope: Code, items: seq<CityItem>)
    requires CitiesError(provider, scope, items) == None
    ensures AllDiffer(CityCodes(items))
  {
    AcceptedCodes(CityCodes(items), {});
  }

  // ----- Each operation keeps them -----

  lemma ReplacedProvinceKey(t: Tables, provider: Provider, items: seq<ProvinceItem>, now: int, k: RowKey)
    ensures k in ProvincesReplaced(t, provider, items, now).provinces <==>
            if k.provider == provider then k in ProvinceRows(provider, items) else k in t.provinces
  {
    RowKeys(provider, ProvinceCodes(items), ProvinceRowList(items));
  }

  lemma ReplacedProvinceKeys(t: Tables, provider: Provider, items: seq<ProvinceItem>, now: int, p: Provider)
    ensures ProvinceKeys(ProvincesReplaced(t, provider, items, now), p)
            == if p == provider then ProvinceRows(provider, items).Keys else ProvinceKeys(t, p)
  {
    RowKeys(provider, ProvinceCodes(items), ProvinceRowList(items));
    forall k: RowKey
      ensures k in ProvinceKeys(ProvincesReplaced(t, provider, items, now), p) <==>
              k in if p == provider then ProvinceRows(provider, items).Keys else ProvinceKeys(t, p)
    {
      ReplacedProvinceKey(t, provider, items, now, k);
    }
  }

  lemma ReplacedProvinceCities(t: Tables, provider: Provider, items: seq<ProvinceItem>, now: int, p: Provider, s: Code)
    ensures var u := ProvincesReplaced(t, provider, items, now);
            var key := StateKey(p, CityCatalog, s);
            if p == provider && RowKey(p, s) !in u.provinces then CityKeys(u, p, s) == {} && key !in u.states
            else CityKeys(u, p, s) == CityKeys(t, p, s)
                 && (key in u.states <==> key in t.states) && (key in t.states ==> u.states[key] == t.states[key])
  {
  }

  lemma ReplacedProvincesCounted(t: Tables, provider: Provider, items: seq<ProvinceItem>, now: int, p: Provider)
    requires ProvincesCounted(t, p) && AllDiffer(ProvinceCodes(items))
    ensures ProvincesCounted(ProvincesReplaced(t, provider, items, now), p)
  {
    ReplacedProvinceKeys(t, provider, items, now, p);
    RowCount(provider, ProvinceCodes(items), ProvinceRowList(items));
  }

  lemma ReplaceProvincesKeepsConsistent(t: Tables, provider: Provider, items: seq<ProvinceItem>, now: int)
    requires Consistent(t) && AllDiffer(ProvinceCodes(items))
    ensures Consistent(ProvincesReplaced(t, provider, items, now))
  {
    var u := ProvincesReplaced(t, provider, items, now);
    forall p: Provider ensures ProvincesCounted(u, p) {
      assert ProvincesCounted(t, p);
      ReplacedProvincesCounted(t, provider, items, now, p);
    }
    forall p: Provider, s: Code ensures CitiesCounted(u, p, s) {
      assert CitiesCounted(t, p, s);
      ReplacedProvinceCities(t, provider, items, now, p, s);
    }
  }

  lemma AddedKeysAreFree(t: Tables, provider: Provider, scope: Code, items: seq<CityItem>, k: RowKey)
    requires !CodeTaken(t, provider, scope, items)
    ensures k in CityRows(provider, scope, items) ==>
              k !in CitiesExcept(t, provider, scope) && k.provider == provider && CityRows(provider, scope, items)[k].scope == scope
  {
    RowKeys(provider, CityCodes(items), CityRowList(scope, items));
    if k in CityRows(provider, scope, items) {
      CityRowScope(provider, scope, items, k);
    }
  }

  lemma ReplacedCityKeys(t: Tables, provider: Provider, scope: Code, items: seq<CityItem>, now: int, p: Provider, s: Code)
    requires !CodeTaken(t, provider, scope, items)
    ensures CityKeys(CitiesReplaced(t, provider, scope, items, now), p, s)
            == if p == provider && s == scope then CityRows(provider, scope, items).Keys else CityKeys(t, p, s)
  {
    var u := CitiesReplaced(t, provider, scope, items, now);
    var others, added := CitiesExcept(t, provider, scope), CityRows(provider, scope, items);
    forall k: RowKey
      ensures k in CityKeys(u, p, s) <==> k in if p == provider && s == scope then added.Keys else CityKeys(t, p, s)
    {
      AddedKeysAreFree(t, provider, scope, items, k);
      assert k in u.cities <==> k in others || k in added;
    }
  }

  lemma ReplaceCitiesKeepsConsistent(t: Tables, provider: Provider, scope: Code, items: seq<CityItem>, now: int)
    requires Consistent(t) && AllDiffer(CityCodes(items)) && !CodeTaken(t, provider, scope, items)
    ensures Consistent(CitiesReplaced(t, provider, scope, items, now))
  {
    var u := CitiesReplaced(t, provider, scope, items, now);
    forall p: Provider ensures ProvincesCounted(u, p) {
      assert ProvincesCounted(t, p);
      assert ProvinceKeys(u, p) == ProvinceKeys(t, p);
    }
    forall p: Provider, s: Code ensures CitiesCounted(u, p, s) {
      assert CitiesCounted(t, p, s);
      ReplacedCityKeys(t, provider, scope, items, now, p, s);
      RowCount(provider, CityCodes(items), CityRowList(scope, items));
    }
  }

  // ----- Every run -----

  datatype Change =
    | NewProvinces(provider: Provider, provinces: seq<ProvinceItem>, now: int)
    | NewCities(provider: Provider, scope: Code, cities: seq<CityItem>, now: int)
    | NewMapping(station: ProviderStation)
    | Failed(provider: Provider)
  {
    function Owner(): Provider {
      if NewMapping? then station.provider else provider
    }
  }

  function Outcome(t: Tables, change: Change, uuidOf: string -> string): Result<Tables, CatalogError> {
    match change
    case NewProvinces(provider, provinces, now) => ReplaceProvinces(t, provider, provinces, now)
    case NewCities(provider, scope, cities, now) => ReplaceCities(t, provider, scope, cities, now)
    case NewMapping(station) => PutMapping(t, station, uuidOf)
    case Failed(_) => Err(Sqlite)
  }

  /** The tables after a request; one that is refused or rolled back changes nothing. */
  function Apply(t: Tables, change: Change, uuidOf: string -> string): Tables {
    var r := Outcome(t, change, uuidOf);
    if r.Ok? then r.value else t
  }

  function Run(changes: seq<Change>, uuidOf: string -> string): Tables {
    if changes == [] then EMPTY
    else Apply(Run(changes[..|changes| - 1], uuidOf), changes[|changes| - 1], uuidOf)
  }

  lemma ProvincesAcceptedKeep(t: Tables, provider: Provider, items: seq<ProvinceItem>, now: int, r: Result<Tables, CatalogError>)
    requires Consistent(t) && r == ReplaceProvinces(t, provider, items, now)
    ensures r.Ok? ==> Consistent(r.value)
  {
    if r.Ok? {
      ValidProvincesDiffer(provider, items);
      ReplaceProvincesKeepsConsistent(t, provider, items, now);
    }
  }

  lemma CitiesAcceptedKeep(t: Tables, provider: Provider, scope: Code, items: seq<CityItem>, now: int, r: Result<Tables, CatalogError>)
    requires Consistent(t) && r == ReplaceCities(t, provider, scope, items, now)
    ensures r.Ok? ==> Consistent(r.value)
  {
    if r.Ok? {
      ValidCitiesDiffer(provider, scope, items);
      ReplaceCitiesKeepsConsistent(t, provider, scope, items, now);
    }
  }

  lemma MappingAcceptedKeeps(t: Tables, station: ProviderStation, uuidOf: string -> string, r: Result<Tables, CatalogError>)
    requires Consistent(t) && r == PutMapping(t, station, uuidOf)
    ensures r.Ok? ==> Consistent(r.value)
  {
    if r.Ok? {
      MappingsAreNotCounted(t, r.value);
    }
  }

  lemma ApplyKeepsConsistent(t: Tables, change: Change, uuidOf: string -> string)
    requires Consistent(t)
    ensures Consistent(Apply(t, change, uuidOf))
  {
    var r := Outcome(t, change, uuidOf);
    match change
    case NewProvinces(provider, provinces, now) => ProvincesAcceptedKeep(t, provider, provinces, now, r);
    case NewCities(provider, scope, cities, now) => CitiesAcceptedKeep(t, provider, scope, cities, now, r);
    case NewMapping(station) => MappingAcceptedKeeps(t, station, uuidOf, r);
    case Failed(_) =>
  }

  lemma MappingsAreNotCounted(t: Tables, u: Tables)
    requires Consistent(t) && u == t.(mappings := u.mappings)
    ensures Consistent(u)
  {
    forall p: Provider ensures ProvincesCounted(u, p) {
      assert ProvincesCounted(t, p) && ProvinceKeys(u, p) == ProvinceKeys(t, p);
    }
    forall p: Provider, s: Code ensures CitiesCounted(u, p, s) {
      assert CitiesCounted(t, p, s) && CityKeys(u, p, s) == CityKeys(t, p, s);
    }
  }

  /** In every reachable state the counts are the numbers of rows, and no row is without a count. */
  lemma {:induction false} EveryRunIsConsistent(changes: seq<Change>, uuidOf: string -> string)
    ensures Consistent(Run(changes, uuidOf))
  {
    if changes == [] {
      assert forall p: Provider :: ProvinceKeys(EMPTY, p) == {};
      assert forall p: Provider, s: Code :: CityKeys(EMPTY, p, s) == {};
    } else {
      EveryRunIsConsistent(changes[..|changes| - 1], uuidOf);
      ApplyKeepsConsistent(Run(changes[..|changes| - 1], uuidOf), changes[|changes| - 1], uuidOf);
    }
  }

  // ----- A valid list that is refused -----

  lemma SingleCity(provider: Provider, scope: Code, city: CityItem)
    requires !IsBlank(provider.text) && !IsBlank(scope.text) && !IsBlank(city.code.text) && city.scope == scope
    ensures CitiesError(provider, scope, [city]) == None && CityCodes([city]) == [city.code]
  {
    assert CityCodes([city]) == [city.code];
    AcceptedCodes([city.code], {});
    assert ScopeError(scope, [city]) == None;
  }

  /** The rows after the first city list of a provider. */
  lemma AfterFirstCity(provider: Provider, scope: Code, city: CityItem, now: int)
    requires CitiesError(provider, scope, [city]) == None && CityCodes([city]) == [city.code]
    ensures var r := ReplaceCities(EMPTY, provider, scope, [city], now);
            r.Ok? && RowKey(provider, city.code) in r.value.cities && r.value.cities[RowKey(provider, city.code)].scope == scope
  {
    var key := RowKey(provider, city.code);
    RowKeys(provider, CityCodes([city]), CityRowList(scope, [city]));
    assert key in CityRows(provider, scope, [city]);
    CityRowScope(provider, scope, [city], key);
    assert CitiesExcept(EMPTY, provider, scope) == map[];
  }

  /**
    A city list that passes validation can be refused in a reachable state: after one city has been
    cached for a province, its code is refused for a city of any other province of the provider.
   */
  lemma ValidCitiesCanBeRefused(
    provider: Provider, first: CityItem, second: CityItem, now: int, uuidOf: string -> string)
    requires !IsBlank(provider.text) && !IsBlank(first.code.text)
    requires !IsBlank(first.scope.text) && !IsBlank(second.scope.text)
    requires first.code == second.code && first.scope != second.scope
    ensures var t := Run([NewCities(provider, first.scope, [first], now)], uuidOf);
            && CitiesError(provider, second.scope, [second]) == None
            && ReplaceCities(t, provider, second.scope, [second], now) == Err(KeyTaken)
  {
    var change := NewCities(provider, first.scope, [first], now);
    assert Run([change][..0], uuidOf) == EMPTY;
    SingleCity(provider, first.scope, first);
    SingleCity(provider, second.scope, second);
    AfterFirstCity(provider, first.scope, first, now);
    var t := Run([change], uuidOf);
    assert t == Apply(EMPTY, change, uuidOf) && Outcome(EMPTY, change, uuidOf).Ok?;
    assert RowKey(provider, second.code) in CitiesExcept(t, provider, second.scope) && HasCity([second], second.code);
  }

  // ----- What the queries say then -----

  lemma EachCityOnce(t: Tables, provider: Provider, scope: Code)
    ensures |CitySet(t, provider, scope)| == |CityKeys(t, provider, scope)|
  {
    var keys, cities := CityKeys(t, provider, scope), CitySet(t, provider, scope);
    var keyOf := (c: CityItem) => RowKey(provider, c.code);
    forall k | k in keys ensures CityOf(t, k) in cities && keyOf(CityOf(t, k)) == k {
    }
    SameSize(keys, cities, keyOf);
  }

  lemma EachProvinceOnce(t: Tables, provider: Provider)
    ensures |ProvinceSet(t, provider)| == |ProvinceKeys(t, provider)|
  {
    var keys, provinces := ProvinceKeys(t, provider), ProvinceSet(t, provider);
    var keyOf := (p: ProvinceItem) => RowKey(provider, p.code);
    forall k | k in keys ensures exists p | p in provinces :: keyOf(p) == k {
      assert ProvinceItem(k.code, t.provinces[k].name, t.provinces[k].url) in provinces;
    }
    SameSize(keys, provinces, keyOf);
  }

  lemma CityListSize(t: Tables, provider: Provider, scope: Code)
    ensures |CityList(t, provider, scope)| == |CityKeys(t, provider, scope)|
  {
    EachCityOnce(t, provider, scope);
    CitiesAreOrdered(t, provider, scope);
    ListingIsSorted(CitySet(t, provider, scope), CityBelow);
  }

  lemma ProvinceListSize(t: Tables, provider: Provider)
    ensures |ProvinceList(t, provider)| == |ProvinceKeys(t, provider)|
  {
    EachProvinceOnce(t, provider);
    ProvincesAreOrdered(t, provider);
    ListingIsSorted(ProvinceSet(t, provider), ProvinceBelow);
  }

  /** No query reports a mismatch; one without a recorded state has nothing to report. */
  lemma QueriesNeverMismatch(t: Tables, provider: Provider, scope: Code)
    requires Consistent(t) && !IsBlank(provider.text)
    ensures GetProvinces(t, provider) ==
            var key := StateKey(provider, ProvinceCatalog, PROVINCE_SCOPE);
            if key in t.states then Ok(Some(Cache(ProvinceList(t, provider), t.states[key].fetchedAt))) else Ok(None)
    ensures GetCities(t, provider, scope) ==
            var key := StateKey(provider, CityCatalog, scope);
            if key in t.states then Ok(Some(Cache(CityList(t, provider, scope), t.states[key].fetchedAt))) else Ok(None)
  {
    assert ProvincesCounted(t, provider) && CitiesCounted(t, provider, scope);
    ProvinceListSize(t, provider);
    CityListSize(t, provider, scope);
  }

  lemma {:induction false} CollectedScopes(t: Tables, provider: Provider, scopes: seq<Code>)
    requires Consistent(t)
    requires forall i | 0 <= i < |scopes| :: StateKey(provider, CityCatalog, scopes[i]) in t.states
    ensures CollectScopes(t, provider, scopes).Ok? && |CollectScopes(t, provider, scopes).value| == |scopes|
    ensures forall i | 0 <= i < |scopes| :: CollectScopes(t, provider, scopes).value[i]
              == ScopeCache(scopes[i], CityList(t, provider, scopes[i]), t.states[StateKey(provider, CityCatalog, scopes[i])].fetchedAt)
  {
    if scopes != [] {
      var scope := scopes[|scopes| - 1];
      CollectedScopes(t, provider, scopes[..|scopes| - 1]);
      assert CitiesCounted(t, provider, scope);
      CityListSize(t, provider, scope);
    }
  }

  /** The bulk query gives, scope by scope in order, what the query for one scope gives. */
  lemma AllScopesAreTheScopes(t: Tables, provider: Provider)
    requires Consistent(t) && !IsBlank(provider.text)
    ensures GetAllScopes(t, provider).Ok?
    ensures var scopes, caches := ScopeList(t, provider), GetAllScopes(t, provider).value;
            && |caches| == |scopes|
            && (forall i, j | 0 <= i < j < |scopes| :: CodeBelow(scopes[i], scopes[j]))
            && (forall i | 0 <= i < |scopes| :: caches[i].scope == scopes[i]
                  && GetCities(t, provider, scopes[i]) == Ok(Some(Cache(caches[i].items, caches[i].fetchedAt))))
    ensures forall scope :: scope in ScopeList(t, provider) <==> GetCities(t, provider, scope) != Ok(None)
  {
    var scopes := ScopeList(t, provider);
    NoOrphans(t, provider);
    ScopesHaveStates(t, provider);
    CollectedScopes(t, provider, scopes);
    CodesAreOrdered(Scopes(t, provider));
    ListingIsSorted(Scopes(t, provider), CodeBelow);
    forall scope: Code ensures scope in scopes <==> GetCities(t, provider, scope) != Ok(None) {
      QueriesNeverMismatch(t, provider, scope);
      assert scope in Scopes(t, provider) <==> StateKey(provider, CityCatalog, scope) in t.states;
    }
    forall i | 0 <= i < |scopes|
      ensures GetCities(t, provider, scopes[i])
              == Ok(Some(Cache(CityList(t, provider, scopes[i]), t.states[StateKey(provider, CityCatalog, scopes[i])].fetchedAt)))
    {
      QueriesNeverMismatch(t, provider, scopes[i]);
    }
  }

  lemma NoOrphans(t: Tables, provider: Provider)
    requires Consistent(t)
    ensures !HasOrphan(t, provider)
  {
    forall k | k in t.cities && k.provider == provider
      ensures StateKey(provider, CityCatalog, t.cities[k].scope) in t.states
    {
      assert CitiesCounted(t, provider, t.cities[k].scope);
      assert k in CityKeys(t, provider, t.cities[k].scope);
    }
  }
}
