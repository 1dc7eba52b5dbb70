/** Cached provider catalogues: what a replacement does to the tables, and what the queries return. */
module Catalog {
  import opened Common
  import opened Ordering
  import opened Text

  datatype Provider = Provider(text: string)

  /** A provider's own code of a province or a city; the code of a province is the scope of its cities. */
  datatype Code = Code(text: string)

  datatype ProvinceItem = ProvinceItem(code: Code, name: string, url: string)

  datatype CityItem = CityItem(code: Code, scope: Code, province: string, city: string, url: string)

  datatype ProviderStation = ProviderStation(
    provider: Provider, displayName: string, stationId: string, scope: Code,
    province: string, city: string, url: string, name: string, uuid: string)

  datatype Kind = ProvinceCatalog | CityCatalog

  datatype RowKey = RowKey(provider: Provider, code: Code)
  datatype StateKey = StateKey(provider: Provider, kind: Kind, scope: Code)
  datatype MappingKey = MappingKey(provider: Provider, displayName: string)

  datatype ProvinceRow = ProvinceRow(name: string, url: string)
  datatype CityRow = CityRow(scope: Code, province: string, city: string, url: string)
  datatype CacheState = CacheState(fetchedAt: int, rowCount: nat)

  datatype Tables = Tables(
    provinces: map<RowKey, ProvinceRow>,
    cities: map<RowKey, CityRow>,
    states: map<StateKey, CacheState>,
    mappings: map<MappingKey, ProviderStation>)

  const EMPTY := Tables(map[], map[], map[], map[])
  const PROVINCE_SCOPE := Code("")

  datatype CatalogError =
    | BlankProvider
    | BlankScope
    | BlankCode
    | DuplicateCode(code: Code)
    | ForeignCity(code: Code)
    | BlankStationName
    | BlankUuid
    | NotCanonical
    | KeyTaken
    | OrphanCity
    | CountMismatch(kind: Kind, scope: Code)
    | Sqlite

  // ----- Validation -----

  /** The first code that is blank or was already used. */
  function CodeError(codes: seq<Code>, seen: set<Code>): Option<CatalogError> {
    if codes == [] then None
    else if IsBlank(codes[0].text) then Some(BlankCode)
    else if codes[0] in seen then Some(DuplicateCode(codes[0]))
    else CodeError(codes[1..], seen + {codes[0]})
  }

  predicate AllDiffer(codes: seq<Code>) {
    forall i, j | 0 <= i < j < |codes| :: codes[i] != codes[j]
  }

  /** Accepted are exactly the lists of codes that are not blank, all different and not used before. */
  lemma {:induction false} AcceptedCodes(codes: seq<Code>, seen: set<Code>)
    ensures CodeError(codes, seen) == None <==>
            AllDiffer(codes) && forall i | 0 <= i < |codes| :: codes[i] !in seen && !IsBlank(codes[i].text)
  {
    if codes != [] {
      var rest := codes[1..];
      AcceptedCodes(rest, seen + {codes[0]});
      assert codes == [codes[0]] + rest;
      if CodeError(codes, seen) == None {
        assert forall i | 1 <= i < |codes| :: codes[i] == rest[i - 1] && codes[i] != codes[0];
      } else if CodeError(rest, seen + {codes[0]}) != None && codes[0] !in seen && !IsBlank(codes[0].text) {
        RejectedTail(codes, seen);
      }
    }
  }

  lemma RejectedTail(codes: seq<Code>, seen: set<Code>)
    requires codes != []
    requires var rest := codes[1..];
             !(AllDiffer(rest) && forall i | 0 <= i < |rest| :: rest[i] !in seen + {codes[0]} && !IsBlank(rest[i].text))
    ensures !(AllDiffer(codes) && forall i | 0 <= i < |codes| :: codes[i] !in seen && !IsBlank(codes[i].text))
  {
    var rest := codes[1..];
    assert forall i | 0 <= i < |rest| :: rest[i] == codes[i + 1];
  }

  function ProvinceCodes(items: seq<ProvinceItem>): seq<Code> {
    seq(|items|, i requires 0 <= i < |items| => items[i].code)
  }

  function CityCodes(items: seq<CityItem>): seq<Code> {
    seq(|items|, i requires 0 <= i < |items| => items[i].code)
  }

  /** The first city that belongs to another province. */
  function ScopeError(scope: Code, items: seq<CityItem>): (r: Option<CatalogError>)
    ensures r.None? <==> forall i | 0 <= i < |items| :: items[i].scope == scope
  {
    if items == [] then None
    else if items[0].scope != scope then Some(ForeignCity(items[0].code))
    else
      var r := ScopeError(scope, items[1..]);
      assert forall i | 1 <= i < |items| :: items[i] == items[1..][i - 1];
      r
  }

  function ProvincesError(provider: Provider, items: seq<ProvinceItem>): Option<CatalogError> {
    if IsBlank(provider.text) then Some(BlankProvider) else CodeError(ProvinceCodes(items), {})
  }

  function CitiesError(provider: Provider, scope: Code, items: seq<CityItem>): Option<CatalogError> {
    if IsBlank(provider.text) then Some(BlankProvider)
    else if IsBlank(scope.text) then Some(BlankScope)
    else
      var codes := CodeError(CityCodes(items), {});
      if codes.Some? then codes else ScopeError(scope, items)
  }

  // ----- Replacing -----

  /** The row of each code. */
  function Rows<R>(provider: Provider, codes: seq<Code>, rows: seq<R>): map<RowKey, R>
    requires |codes| == |rows|
  {
    if codes == [] then map[]
    else
      var n := |codes| - 1;
      Rows(provider, codes[..n], rows[..n])[RowKey(provider, codes[n]) := rows[n]]
  }

  function ProvinceRowList(items: seq<ProvinceItem>): seq<ProvinceRow> {
    seq(|items|, i requires 0 <= i < |items| => ProvinceRow(items[i].name, items[i].url))
  }

  function CityRowList(scope: Code, items: seq<CityItem>): seq<CityRow> {
    seq(|items|, i requires 0 <= i < |items| => CityRow(scope, items[i].province, items[i].city, items[i].url))
  }

  function ProvinceRows(provider: Provider, items: seq<ProvinceItem>): map<RowKey, ProvinceRow> {
    Rows(provider, ProvinceCodes(items), ProvinceRowList(items))
  }

  function CityRows(provider: Provider, scope: Code, items: seq<CityItem>): map<RowKey, CityRow> {
    Rows(provider, CityCodes(items), CityRowList(scope, items))
  }

  predicate HasProvince(items: seq<ProvinceItem>, code: Code) {
    code in ProvinceCodes(items)
  }

  function ProvincesExcept(t: Tables, provider: Provider): map<RowKey, ProvinceRow> {
    map k | k in t.provinces && k.provider != provider :: t.provinces[k]
  }

  function CitiesExcept(t: Tables, provider: Provider, scope: Code): map<RowKey, CityRow> {
    map k | k in t.cities && !(k.provider == provider && t.cities[k].scope == scope) :: t.cities[k]
  }

  /** Drops what hangs on a province of the provider that is not in `provinces`. */
  function WithProvinces(t: Tables, provider: Provider, provinces: map<RowKey, ProvinceRow>): Tables {
    Tables(
      provinces,
      map k | k in t.cities && (k.provider == provider ==> RowKey(provider, t.cities[k].scope) in provinces) :: t.cities[k],
      map k | k in t.states && (k.provider == provider && k.kind == CityCatalog ==> RowKey(provider, k.scope) in provinces) :: t.states[k],
      map k | k in t.mappings && (k.provider == provider ==> RowKey(provider, t.mappings[k].scope) in provinces) :: t.mappings[k])
  }

  function ProvincesReplaced(t: Tables, provider: Provider, items: seq<ProvinceItem>, now: int): Tables {
    var next := WithProvinces(t, provider, ProvincesExcept(t, provider) + ProvinceRows(provider, items));
    next.(states := next.states[StateKey(provider, ProvinceCatalog, PROVINCE_SCOPE) := CacheState(now, |items|)])
  }

  function ReplaceProvinces(t: Tables, provider: Provider, items: seq<ProvinceItem>, now: int): Result<Tables, CatalogError> {
    var error := ProvincesError(provider, items);
    if error.Some? then Err(error.value) else Ok(ProvincesReplaced(t, provider, items, now))
  }

  predicate HasCity(items: seq<CityItem>, code: Code) {
    code in CityCodes(items)
  }

  /** A city code is unique for the provider, so it may be taken by a city of another province. */
  predicate CodeTaken(t: Tables, provider: Provider, scope: Code, items: seq<CityItem>) {
    exists k | k in CitiesExcept(t, provider, scope) :: k.provider == provider && HasCity(items, k.code)
  }

  function CitiesReplaced(t: Tables, provider: Provider, scope: Code, items: seq<CityItem>, now: int): Tables {
    Tables(
      t.provinces,
      CitiesExcept(t, provider, scope) + CityRows(provider, scope, items),
      t.states[StateKey(provider, CityCatalog, scope) := CacheState(now, |items|)],
      map k | k in t.mappings && !(k.provider == provider && t.mappings[k].scope == scope) :: t.mappings[k])
  }

  function ReplaceCities(t: Tables, provider: Provider, scope: Code, items: seq<CityItem>, now: int): Result<Tables, CatalogError> {
    var error := CitiesError(provider, scope, items);
    if error.Some? then Err(error.value)
    else if CodeTaken(t, provider, scope, items) then Err(KeyTaken)
    else Ok(CitiesReplaced(t, provider, scope, items, now))
  }

  /** Why a mapping is refused, if it is; `uuidOf` is the canonical identity of a station name. */
  function MappingError(station: ProviderStation, uuidOf: string -> string): Option<CatalogError> {
    if IsBlank(station.provider.text) then Some(BlankProvider)
    else if IsBlank(station.name) then Some(BlankStationName)
    else if IsBlank(station.uuid) then Some(BlankUuid)
    else if station.uuid != uuidOf(station.name) then Some(NotCanonical)
    else None
  }

  function PutMapping(t: Tables, station: ProviderStation, uuidOf: string -> string): Result<Tables, CatalogError> {
    var error := MappingError(station, uuidOf);
    if error.Some? then Err(error.value)
    else Ok(t.(mappings := t.mappings[MappingKey(station.provider, station.displayName) := station]))
  }

  // ----- Querying -----

  datatype Cache<T> = Cache(items: seq<T>, fetchedAt: int)
  datatype ScopeCache = ScopeCache(scope: Code, items: seq<CityItem>, fetchedAt: int)

  function ProvinceKeys(t: Tables, provider: Provider): set<RowKey> {
    set k | k in t.provinces && k.provider == provider
  }

  function CityKeys(t: Tables, provider: Provider, scope: Code): set<RowKey> {
    set k | k in t.cities && k.provider == provider && t.cities[k].scope == scope
  }

  function ProvinceSet(t: Tables, provider: Provider): set<ProvinceItem> {
    set k | k in ProvinceKeys(t, provider) :: ProvinceItem(k.code, t.provinces[k].name, t.provinces[k].url)
  }

  function CityOf(t: Tables, k: RowKey): CityItem
    requires k in t.cities
  {
    var row := t.cities[k];
    CityItem(k.code, row.scope, row.province, row.city, row.url)
  }

  function CitySet(t: Tables, provider: Provider, scope: Code): set<CityItem> {
    set k | k in CityKeys(t, provider, scope) :: CityOf(t, k)
  }

  function Scopes(t: Tables, provider: Provider): set<Code> {
    set k | k in t.states && k.provider == provider && k.kind == CityCatalog :: k.scope
  }

  function CodeBelow(a: Code, b: Code): bool {
    TextBelow(a.text, b.text)
  }

  function ProvinceBelow(a: ProvinceItem, b: ProvinceItem): bool {
    CodeBelow(a.code, b.code)
  }

  function CityBelow(a: CityItem, b: CityItem): bool {
    TextBelow(a.city, b.city) || (a.city == b.city && CodeBelow(a.code, b.code))
  }

  lemma CodesAreOrdered(codes: set<Code>)
    ensures Orders(CodeBelow, codes)
  {
    forall a: Code, b: Code ensures a == b || CodeBelow(a, b) || CodeBelow(b, a)
                            ensures CodeBelow(a, b) ==> a != b && !CodeBelow(b, a) {
      TextOrderIsTotal(a.text, b.text);
    }
    forall a: Code, b: Code, c: Code | CodeBelow(a, b) && CodeBelow(b, c) ensures CodeBelow(a, c) {
      TextOrderIsTransitive(a.text, b.text, c.text);
    }
  }

  lemma ProvincesAreOrdered(t: Tables, provider: Provider)
    ensures Orders(ProvinceBelow, ProvinceSet(t, provider))
  {
    forall a: ProvinceItem, b: ProvinceItem
      ensures a.code == b.code || ProvinceBelow(a, b) || ProvinceBelow(b, a)
      ensures ProvinceBelow(a, b) ==> a != b && !ProvinceBelow(b, a)
    {
      TextOrderIsTotal(a.code.text, b.code.text);
    }
    forall a: ProvinceItem, b: ProvinceItem, c: ProvinceItem | ProvinceBelow(a, b) && ProvinceBelow(b, c)
      ensures ProvinceBelow(a, c)
    {
      TextOrderIsTransitive(a.code.text, b.code.text, c.code.text);
    }
  }

  lemma CityOrderIsStrict(a: CityItem, b: CityItem, c: CityItem)
    ensures a.code == b.code || CityBelow(a, b) || CityBelow(b, a)
    ensures CityBelow(a, b) ==> a != b && !CityBelow(b, a)
    ensures CityBelow(a, b) && CityBelow(b, c) ==> CityBelow(a, c)
  {
    TextOrderIsTotal(a.city, b.city);
    TextOrderIsTotal(a.code.text, b.code.text);
    if TextBelow(a.city, b.city) && TextBelow(b.city, c.city) {
      TextOrderIsTransitive(a.city, b.city, c.city);
    }
    if CodeBelow(a.code, b.code) && CodeBelow(b.code, c.code) {
      TextOrderIsTransitive(a.code.text, b.code.text, c.code.text);
    }
  }

  lemma CitiesAreOrdered(t: Tables, provider: Provider, scope: Code)
    ensures Orders(CityBelow, CitySet(t, provider, scope))
  {
    forall a: CityItem, b: CityItem, c: CityItem
      ensures a.code == b.code || CityBelow(a, b) || CityBelow(b, a)
      ensures CityBelow(a, b) ==> a != b && !CityBelow(b, a)
      ensures CityBelow(a, b) && CityBelow(b, c) ==> CityBelow(a, c)
    {
      CityOrderIsStrict(a, b, c);
    }
  }

  ghost function ProvinceList(t: Tables, provider: Provider): seq<ProvinceItem> {
    ProvincesAreOrdered(t, provider);
    Listing(ProvinceSet(t, provider), ProvinceBelow)
  }

  ghost function CityList(t: Tables, provider: Provider, scope: Code): seq<CityItem> {
    CitiesAreOrdered(t, provider, scope);
    Listing(CitySet(t, provider, scope), CityBelow)
  }

  ghost function ScopeList(t: Tables, provider: Provider): seq<Code> {
    CodesAreOrdered(Scopes(t, provider));
    Listing(Scopes(t, provider), CodeBelow)
  }

  ghost function GetProvinces(t: Tables, provider: Provider): Result<Option<Cache<ProvinceItem>>, CatalogError> {
    var key := StateKey(provider, ProvinceCatalog, PROVINCE_SCOPE);
    if IsBlank(provider.text) then Err(BlankProvider)
    else if key !in t.states then Ok(None)
    else if t.states[key].rowCount != |ProvinceList(t, provider)| then Err(CountMismatch(ProvinceCatalog, PROVINCE_SCOPE))
    else Ok(Some(Cache(ProvinceList(t, provider), t.states[key].fetchedAt)))
  }

  ghost function GetCities(t: Tables, provider: Provider, scope: Code): Result<Option<Cache<CityItem>>, CatalogError> {
    var key := StateKey(provider, CityCatalog, scope);
    if IsBlank(provider.text) then Err(BlankProvider)
    else if key !in t.states then Ok(None)
    else if t.states[key].rowCount != |CityList(t, provider, scope)| then Err(CountMismatch(CityCatalog, scope))
    else Ok(Some(Cache(CityList(t, provider, scope), t.states[key].fetchedAt)))
  }

  /** A city row whose scope has no recorded state. */
  predicate HasOrphan(t: Tables, provider: Provider) {
    exists k | k in t.cities :: k.provider == provider && StateKey(provider, CityCatalog, t.cities[k].scope) !in t.states
  }

  /** The caches of some scopes, or the first mismatch among them. */
  ghost function CollectScopes(t: Tables, provider: Provider, scopes: seq<Code>): Result<seq<ScopeCache>, CatalogError>
    requires forall i | 0 <= i < |scopes| :: StateKey(provider, CityCatalog, scopes[i]) in t.states
  {
    if scopes == [] then Ok([])
    else
      var before := CollectScopes(t, provider, scopes[..|scopes| - 1]);
      var scope := scopes[|scopes| - 1];
      var state := t.states[StateKey(provider, CityCatalog, scope)];
      var items := CityList(t, provider, scope);
      if before.Err? then before
      else if state.rowCount != |items| then Err(CountMismatch(CityCatalog, scope))
      else Ok(before.value + [ScopeCache(scope, items, state.fetchedAt)])
  }

  lemma ScopesHaveStates(t: Tables, provider: Provider)
    ensures forall i | 0 <= i < |ScopeList(t, provider)| :: StateKey(provider, CityCatalog, ScopeList(t, provider)[i]) in t.states
  {
    CodesAreOrdered(Scopes(t, provider));
    ListingIsSorted(Scopes(t, provider), CodeBelow);
    forall i | 0 <= i < |ScopeList(t, provider)|
      ensures StateKey(provider, CityCatalog, ScopeList(t, provider)[i]) in t.states
    {
      assert ScopeList(t, provider)[i] in ScopeList(t, provider);
    }
  }

  ghost function GetAllScopes(t: Tables, provider: Provider): Result<seq<ScopeCache>, CatalogError> {
    if IsBlank(provider.text) then Err(BlankProvider)
    else if HasOrphan(t, provider) then Err(OrphanCity)
    else
      ScopesHaveStates(t, provider);
      CollectScopes(t, provider, ScopeList(t, provider))
  }
}
