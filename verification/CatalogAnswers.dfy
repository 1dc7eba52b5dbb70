/** The catalogue as its callers see it: what is accepted, and that the queries return what was accepted last. */
module CatalogAnswers {
  import opened Catalog
  import opened CatalogIsolation
  import opened CatalogRuns
  import opened Common
  import opened Ordering
  import opened Text

  // ----- What is accepted -----

  predicate HasText(code: Code) {
    Trim(code.text) != []
  }

  predicate AllHaveText(codes: seq<Code>) {
    forall i | 0 <= i < |codes| :: HasText(codes[i])
  }

  lemma CodesAreValidExactlyWhen(codes: seq<Code>)
    ensures CodeError(codes, {}) == None <==> AllHaveText(codes) && AllDiffer(codes)
  {
    AcceptedCodes(codes, {});
    forall i | 0 <= i < |codes| ensures IsBlank(codes[i].text) <==> !HasText(codes[i]) {
      BlankTrimsToNothing(codes[i].text);
    }
  }

  /** Provinces are accepted exactly if the provider and all codes have text and no code is there twice. */
  lemma AcceptsProvincesExactlyWhen(t: Tables, provider: Provider, items: seq<ProvinceItem>, now: int)
    ensures ReplaceProvinces(t, provider, items, now).Ok? <==>
            && Trim(provider.text) != []
            && AllHaveText(ProvinceCodes(items)) && AllDiffer(ProvinceCodes(items))
  {
    CodesAreValidExactlyWhen(ProvinceCodes(items));
    BlankTrimsToNothing(provider.text);
  }

  /** A cached city of another province of the provider has the code. */
  predicate IsUsedElsewhere(t: Tables, provider: Provider, scope: Code, code: Code) {
    RowKey(provider, code) in t.cities && t.cities[RowKey(provider, code)].scope != scope
  }

  lemma TakenIsUsedElsewhere(t: Tables, provider: Provider, scope: Code, items: seq<CityItem>)
    ensures CodeTaken(t, provider, scope, items) <==>
            exists i | 0 <= i < |items| :: IsUsedElsewhere(t, provider, scope, items[i].code)
  {
    if CodeTaken(t, provider, scope, items) {
      var k :| k in CitiesExcept(t, provider, scope) && k.provider == provider && HasCity(items, k.code);
      var i :| 0 <= i < |items| && CityCodes(items)[i] == k.code;
      assert IsUsedElsewhere(t, provider, scope, items[i].code);
    }
    forall i | 0 <= i < |items| && IsUsedElsewhere(t, provider, scope, items[i].code)
      ensures CodeTaken(t, provider, scope, items)
    {
      assert CityCodes(items)[i] == items[i].code;
      assert RowKey(provider, items[i].code) in CitiesExcept(t, provider, scope) && HasCity(items, items[i].code);
    }
  }

  lemma ValidCitiesExactlyWhen(provider: Provider, scope: Code, items: seq<CityItem>)
    ensures CitiesError(provider, scope, items) == None <==>
            && Trim(provider.text) != [] && Trim(scope.text) != []
            && AllHaveText(CityCodes(items)) && AllDiffer(CityCodes(items))
            && (forall i | 0 <= i < |items| :: items[i].scope == scope)
  {
    CodesAreValidExactlyWhen(CityCodes(items));
    BlankTrimsToNothing(provider.text);
    BlankTrimsToNothing(scope.text);
  }

  /** Cities must also belong to the province, and no other province of the provider may use their codes. */
  lemma AcceptsCitiesExactlyWhen(t: Tables, provider: Provider, scope: Code, items: seq<CityItem>, now: int)
    ensures ReplaceCities(t, provider, scope, items, now).Ok? <==>
            && Trim(provider.text) != [] && Trim(scope.text) != []
            && AllHaveText(CityCodes(items)) && AllDiffer(CityCodes(items))
            && (forall i | 0 <= i < |items| :: items[i].scope == scope)
            && (forall i | 0 <= i < |items| :: !IsUsedElsewhere(t, provider, scope, items[i].code))
  {
    ValidCitiesExactlyWhen(provider, scope, items);
    TakenIsUsedElsewhere(t, provider, scope, items);
  }

  lemma AcceptsMappingExactlyWhen(t: Tables, station: ProviderStation, uuidOf: string -> string)
    ensures PutMapping(t, station, uuidOf).Ok? <==>
            && Trim(station.provider.text) != [] && Trim(station.name) != [] && Trim(station.uuid) != []
            && station.uuid == uuidOf(station.name)
  {
    BlankTrimsToNothing(station.provider.text);
    BlankTrimsToNothing(station.name);
    BlankTrimsToNothing(station.uuid);
  }

  // ----- What a replacement leaves -----

  function Members<T>(items: seq<T>): set<T> {
    set x | x in items
  }

  lemma {:induction false} RowAt<R>(provider: Provider, codes: seq<Code>, rows: seq<R>, i: nat)
    requires i < |codes| == |rows| && AllDiffer(codes)
    ensures var k := RowKey(provider, codes[i]);
            k in Rows(provider, codes, rows) && Rows(provider, codes, rows)[k] == rows[i]
  {
    var n := |codes| - 1;
    if i < n {
      RowAt(provider, codes[..n], rows[..n], i);
    }
  }

  lemma RowOf<R>(provider: Provider, codes: seq<Code>, rows: seq<R>, k: RowKey) returns (i: nat)
    requires |codes| == |rows| && AllDiffer(codes) && k in Rows(provider, codes, rows)
    ensures i < |codes| && k == RowKey(provider, codes[i]) && Rows(provider, codes, rows)[k] == rows[i]
  {
    RowKeys(provider, codes, rows);
    i :| 0 <= i < |codes| && codes[i] == k.code;
    RowAt(provider, codes, rows, i);
  }

  lemma ProvinceRowOf(t: Tables, provider: Provider, items: seq<ProvinceItem>, now: int, x: ProvinceItem)
    requires AllDiffer(ProvinceCodes(items))
    ensures x in ProvinceSet(ProvincesReplaced(t, provider, items, now), provider) <==> x in items
  {
    var u := ProvincesReplaced(t, provider, items, now);
    var k := RowKey(provider, x.code);
    var added := ProvinceRows(provider, items);
    assert k in u.provinces <==> k in added;
    assert k in added ==> u.provinces[k] == added[k];
    if x in items {
      var i :| 0 <= i < |items| && items[i] == x;
      RowAt(provider, ProvinceCodes(items), ProvinceRowList(items), i);
      assert k in ProvinceKeys(u, provider);
    }
    if k in added {
      var i := RowOf(provider, ProvinceCodes(items), ProvinceRowList(items), k);
      assert added[k] == ProvinceRow(items[i].name, items[i].url) && items[i].code == x.code;
      assert items[i] in items;
    }
  }

  lemma ProvincesAfterReplace(t: Tables, provider: Provider, items: seq<ProvinceItem>, now: int, p: Provider)
    requires AllDiffer(ProvinceCodes(items))
    ensures ProvinceSet(ProvincesReplaced(t, provider, items, now), p)
            == if p == provider then Members(items) else ProvinceSet(t, p)
  {
    var u := ProvincesReplaced(t, provider, items, now);
    if p == provider {
      forall x: ProvinceItem ensures x in ProvinceSet(u, p) <==> x in Members(items) {
        ProvinceRowOf(t, provider, items, now, x);
      }
    } else {
      ReplacedProvinceKeys(t, provider, items, now, p);
      RowKeys(provider, ProvinceCodes(items), ProvinceRowList(items));
      assert forall k | k in ProvinceKeys(t, p) :: u.provinces[k] == t.provinces[k];
    }
  }

  lemma CityRowOf(t: Tables, provider: Provider, scope: Code, items: seq<CityItem>, now: int, x: CityItem)
    requires AllDiffer(CityCodes(items)) && !CodeTaken(t, provider, scope, items)
    requires forall i | 0 <= i < |items| :: items[i].scope == scope
    ensures x in CitySet(CitiesReplaced(t, provider, scope, items, now), provider, scope) <==> x in items
  {
    var u := CitiesReplaced(t, provider, scope, items, now);
    var k := RowKey(provider, x.code);
    var added := CityRows(provider, scope, items);
    ReplacedCityKeys(t, provider, scope, items, now, provider, scope);
    assert k in added ==> u.cities[k] == added[k];
    if x in items {
      var i :| 0 <= i < |items| && items[i] == x;
      RowAt(provider, CityCodes(items), CityRowList(scope, items), i);
      assert k in CityKeys(u, provider, scope) && CityOf(u, k) == x;
    }
    if k in added {
      var i := RowOf(provider, CityCodes(items), CityRowList(scope, items), k);
      assert CityOf(u, k) == items[i];
      assert items[i] in items;
    }
  }

  lemma CitiesAfterReplace(
    t: Tables, provider: Provider, scope: Code, items: seq<CityItem>, now: int, p: Provider, s: Code)
    requires AllDiffer(CityCodes(items)) && !CodeTaken(t, provider, scope, items)
    requires forall i | 0 <= i < |items| :: items[i].scope == scope
    ensures CitySet(CitiesReplaced(t, provider, scope, items, now), p, s)
            == if p == provider && s == scope then Members(items) else CitySet(t, p, s)
  {
    var u := CitiesReplaced(t, provider, scope, items, now);
    if p == provider && s == scope {
      forall x: CityItem ensures x in CitySet(u, p, s) <==> x in Members(items) {
        CityRowOf(t, provider, scope, items, now, x);
      }
    } else {
      ReplacedCityKeys(t, provider, scope, items, now, p, s);
      forall k | k in CityKeys(t, p, s) ensures CityOf(u, k) == CityOf(t, k) {
        AddedKeysAreFree(t, provider, scope, items, k);
      }
    }
  }

  lemma CitiesAfterProvinces(t: Tables, provider: Provider, items: seq<ProvinceItem>, now: int, p: Provider, s: Code)
    ensures CitySet(ProvincesReplaced(t, provider, items, now), p, s)
            == if p == provider && !Names(items, s) then {} else CitySet(t, p, s)
  {
    var u := ProvincesReplaced(t, provider, items, now);
    ReplacedProvinceCities(t, provider, items, now, p, s);
    NamedIsKey(t, provider, items, now, s);
    assert forall k | k in CityKeys(u, p, s) :: CityOf(u, k) == CityOf(t, k);
  }

  /** The list has a province with the code. */
  predicate Names(items: seq<ProvinceItem>, code: Code) {
    exists i | 0 <= i < |items| :: items[i].code == code
  }

  lemma NamedIsKey(t: Tables, provider: Provider, items: seq<ProvinceItem>, now: int, code: Code)
    ensures RowKey(provider, code) in ProvincesReplaced(t, provider, items, now).provinces <==> Names(items, code)
  {
    RowKeys(provider, ProvinceCodes(items), ProvinceRowList(items));
    assert forall i | 0 <= i < |items| :: ProvinceCodes(items)[i] == items[i].code;
  }

  // ----- The catalogue as registers -----

  predicate TakesProvinces(t: Tables, change: Change, uuidOf: string -> string, p: Provider) {
    change.NewProvinces? && change.provider == p && Outcome(t, change, uuidOf).Ok?
  }

  /** What the last accepted replacement of the provinces gave. */
  function ProvincesRegister(changes: seq<Change>, uuidOf: string -> string, p: Provider): Option<Cache<ProvinceItem>> {
    if changes == [] then None
    else
      var front, last := changes[..|changes| - 1], changes[|changes| - 1];
      if TakesProvinces(Run(front, uuidOf), last, uuidOf, p) then Some(Cache(last.provinces, last.now))
      else ProvincesRegister(front, uuidOf, p)
  }

  /** What the last accepted replacement of a scope gave, unless a later province list left the scope out. */
  function CitiesRegister(changes: seq<Change>, uuidOf: string -> string, p: Provider, s: Code): Option<Cache<CityItem>> {
    if changes == [] then None
    else
      var front, last := changes[..|changes| - 1], changes[|changes| - 1];
      var before := CitiesRegister(front, uuidOf, p, s);
      if Outcome(Run(front, uuidOf), last, uuidOf).Err? then before
      else
        match last
        case NewProvinces(provider, provinces, _) => if provider == p && !Names(provinces, s) then None else before
        case NewCities(provider, scope, cities, now) =>
          if provider == p && scope == s then Some(Cache(cities, now)) else before
        case _ => before
  }

  /** The last accepted mapping, unless a later replacement touched the catalogue that it was derived from. */
  function MappingRegister(changes: seq<Change>, uuidOf: string -> string, k: MappingKey): Option<ProviderStation> {
    if changes == [] then None
    else
      var front, last := changes[..|changes| - 1], changes[|changes| - 1];
      var before := MappingRegister(front, uuidOf, k);
      if Outcome(Run(front, uuidOf), last, uuidOf).Err? then before
      else
        match last
        case NewProvinces(provider, provinces, _) =>
          if before.Some? && provider == k.provider && !Names(provinces, before.value.scope) then None else before
        case NewCities(provider, scope, _, _) =>
          if before.Some? && provider == k.provider && scope == before.value.scope then None else before
        case NewMapping(station) =>
          if k == MappingKey(station.provider, station.displayName) then Some(station) else before
        case Failed(_) => before
  }

  ghost predicate ProvincesAre(t: Tables, p: Provider, register: Option<Cache<ProvinceItem>>) {
    var key := StateKey(p, ProvinceCatalog, PROVINCE_SCOPE);
    if register.None? then ProvinceSet(t, p) == {} && key !in t.states
    else ProvinceSet(t, p) == Members(register.value.items) && key in t.states
         && t.states[key].fetchedAt == register.value.fetchedAt
  }

  ghost predicate CitiesAre(t: Tables, p: Provider, s: Code, register: Option<Cache<CityItem>>) {
    var key := StateKey(p, CityCatalog, s);
    if register.None? then CitySet(t, p, s) == {} && key !in t.states
    else CitySet(t, p, s) == Members(register.value.items) && key in t.states
         && t.states[key].fetchedAt == register.value.fetchedAt
  }

  lemma ProvincesStep(t: Tables, change: Change, uuidOf: string -> string, p: Provider, register: Option<Cache<ProvinceItem>>)
    requires ProvincesAre(t, p, register)
    ensures ProvincesAre(Apply(t, change, uuidOf), p,
                         if TakesProvinces(t, change, uuidOf, p) then Some(Cache(change.provinces, change.now)) else register)
  {
    var u := Apply(t, change, uuidOf);
    if change.NewProvinces? && Outcome(t, change, uuidOf).Ok? {
      ValidProvincesDiffer(change.provider, change.provinces);
      ProvincesAfterReplace(t, change.provider, change.provinces, change.now, p);
    } else {
      assert u.provinces == t.provinces;
      assert ProvinceKeys(u, p) == ProvinceKeys(t, p);
    }
  }

  lemma CitiesStepOfProvinces(t: Tables, items: seq<ProvinceItem>, now: int, provider: Provider, p: Provider, s: Code,
                              register: Option<Cache<CityItem>>)
    requires CitiesAre(t, p, s, register)
    ensures CitiesAre(ProvincesReplaced(t, provider, items, now), p, s,
                      if provider == p && !Names(items, s) then None else register)
  {
    CitiesAfterProvinces(t, provider, items, now, p, s);
    ReplacedProvinceCities(t, provider, items, now, p, s);
    NamedIsKey(t, provider, items, now, s);
  }

  lemma CitiesStepOfCities(t: Tables, scope: Code, items: seq<CityItem>, now: int, provider: Provider, p: Provider, s: Code,
                           register: Option<Cache<CityItem>>)
    requires CitiesAre(t, p, s, register)
    requires ReplaceCities(t, provider, scope, items, now).Ok?
    ensures CitiesAre(CitiesReplaced(t, provider, scope, items, now), p, s,
                      if provider == p && scope == s then Some(Cache(items, now)) else register)
  {
    ValidCitiesDiffer(provider, scope, items);
    CitiesAfterReplace(t, provider, scope, items, now, p, s);
  }

  lemma CitiesStepOfMapping(t: Tables, u: Tables, p: Provider, s: Code, register: Option<Cache<CityItem>>)
    requires CitiesAre(t, p, s, register) && u == t.(mappings := u.mappings)
    ensures CitiesAre(u, p, s, register)
  {
    assert CityKeys(u, p, s) == CityKeys(t, p, s);
  }

  lemma {:induction false} ProvincesAreTheRegister(changes: seq<Change>, uuidOf: string -> string, p: Provider)
    ensures ProvincesAre(Run(changes, uuidOf), p, ProvincesRegister(changes, uuidOf, p))
  {
    if changes != [] {
      var front := changes[..|changes| - 1];
      ProvincesAreTheRegister(front, uuidOf, p);
      ProvincesStep(Run(front, uuidOf), changes[|front|], uuidOf, p, ProvincesRegister(front, uuidOf, p));
    }
  }

  lemma {:induction false} CitiesAreTheRegister(changes: seq<Change>, uuidOf: string -> string, p: Provider, s: Code)
    ensures CitiesAre(Run(changes, uuidOf), p, s, CitiesRegister(changes, uuidOf, p, s))
  {
    if changes != [] {
      var front, last := changes[..|changes| - 1], changes[|changes| - 1];
      var t, before := Run(front, uuidOf), CitiesRegister(front, uuidOf, p, s);
      CitiesAreTheRegister(front, uuidOf, p, s);
      if Outcome(t, last, uuidOf).Ok? {
        match last
        case NewProvinces(provider, provinces, now) => CitiesStepOfProvinces(t, provinces, now, provider, p, s, before);
        case NewCities(provider, scope, cities, now) => CitiesStepOfCities(t, scope, cities, now, provider, p, s, before);
        case _ => CitiesStepOfMapping(t, Run(changes, uuidOf), p, s, before);
      }
    }
  }

  lemma MappingStepOfProvinces(t: Tables, provider: Provider, items: seq<ProvinceItem>, now: int, k: MappingKey)
    ensures At(ProvincesReplaced(t, provider, items, now).mappings, k) ==
            var before := At(t.mappings, k);
            if before.Some? && provider == k.provider && !Names(items, before.value.scope) then None else before
  {
    if k in t.mappings {
      NamedIsKey(t, provider, items, now, t.mappings[k].scope);
    }
  }

  /** A stored mapping is the one put last, if no later replacement touched the catalogue it came from. */
  lemma {:induction false} MappingsAreTheRegister(changes: seq<Change>, uuidOf: string -> string, k: MappingKey)
    ensures At(Run(changes, uuidOf).mappings, k) == MappingRegister(changes, uuidOf, k)
  {
    if changes != [] {
      var front, last := changes[..|changes| - 1], changes[|changes| - 1];
      MappingsAreTheRegister(front, uuidOf, k);
      if last.NewProvinces? {
        MappingStepOfProvinces(Run(front, uuidOf), last.provider, last.provinces, last.now, k);
      }
    }
  }

  // ----- What the queries return -----

  ghost predicate ReadsAs<T(!new)>(r: Result<Option<Cache<T>>, CatalogError>, register: Option<Cache<T>>) {
    if register.None? then r == Ok(None)
    else
      && r.Ok? && r.value.Some? && r.value.value.fetchedAt == register.value.fetchedAt
      && (forall x :: x in r.value.value.items <==> x in register.value.items)
  }

  lemma ProvinceListIsSorted(t: Tables, p: Provider)
    ensures forall x :: x in ProvinceList(t, p) <==> x in ProvinceSet(t, p)
    ensures forall i, j | 0 <= i < j < |ProvinceList(t, p)| ::
              TextBelow(ProvinceList(t, p)[i].code.text, ProvinceList(t, p)[j].code.text)
  {
    ProvincesAreOrdered(t, p);
    ListingIsSorted(ProvinceSet(t, p), ProvinceBelow);
  }

  lemma CityListIsSorted(t: Tables, p: Provider, s: Code)
    ensures forall x :: x in CityList(t, p, s) <==> x in CitySet(t, p, s)
    ensures forall i, j | 0 <= i < j < |CityList(t, p, s)| ::
              var a, b := CityList(t, p, s)[i], CityList(t, p, s)[j];
              TextBelow(a.city, b.city) || (a.city == b.city && TextBelow(a.code.text, b.code.text))
  {
    CitiesAreOrdered(t, p, s);
    ListingIsSorted(CitySet(t, p, s), CityBelow);
  }

  /** After any history the query returns the provinces accepted last, each once and by code. */
  lemma ProvincesReadBack(changes: seq<Change>, uuidOf: string -> string, p: Provider)
    requires !IsBlank(p.text)
    ensures var r := GetProvinces(Run(changes, uuidOf), p);
            && ReadsAs(r, ProvincesRegister(changes, uuidOf, p))
            && (r.value.Some? ==> forall i, j | 0 <= i < j < |r.value.value.items| ::
                  TextBelow(r.value.value.items[i].code.text, r.value.value.items[j].code.text))
  {
    var t := Run(changes, uuidOf);
    EveryRunIsConsistent(changes, uuidOf);
    ProvincesAreTheRegister(changes, uuidOf, p);
    QueriesNeverMismatch(t, p, PROVINCE_SCOPE);
    ProvinceListIsSorted(t, p);
  }

  /** The query of a scope returns the cities accepted last for it, each once and by name and code. */
  lemma CitiesReadBack(changes: seq<Change>, uuidOf: string -> string, p: Provider, s: Code)
    requires !IsBlank(p.text)
    ensures var r := GetCities(Run(changes, uuidOf), p, s);
            && ReadsAs(r, CitiesRegister(changes, uuidOf, p, s))
            && (r.value.Some? ==> forall i, j | 0 <= i < j < |r.value.value.items| ::
                  var a, b := r.value.value.items[i], r.value.value.items[j];
                  TextBelow(a.city, b.city) || (a.city == b.city && TextBelow(a.code.text, b.code.text)))
  {
    var t := Run(changes, uuidOf);
    EveryRunIsConsistent(changes, uuidOf);
    CitiesAreTheRegister(changes, uuidOf, p, s);
    QueriesNeverMismatch(t, p, s);
    CityListIsSorted(t, p, s);
  }

  // ----- Tables that no history leads to -----

  /** Whatever is in the tables, a count that is not the number of rows is reported, and nothing else is. */
  lemma MismatchesAreReported(t: Tables, p: Provider, s: Code)
    requires !IsBlank(p.text)
    ensures var key := StateKey(p, ProvinceCatalog, PROVINCE_SCOPE);
            if key in t.states && t.states[key].rowCount != |ProvinceKeys(t, p)|
            then GetProvinces(t, p) == Err(CountMismatch(ProvinceCatalog, PROVINCE_SCOPE))
            else GetProvinces(t, p).Ok? && (GetProvinces(t, p).value.Some? <==> key in t.states)
    ensures var key := StateKey(p, CityCatalog, s);
            if key in t.states && t.states[key].rowCount != |CityKeys(t, p, s)|
            then GetCities(t, p, s) == Err(CountMismatch(CityCatalog, s))
            else GetCities(t, p, s).Ok? && (GetCities(t, p, s).value.Some? <==> key in t.states)
  {
    ProvinceListSize(t, p);
    CityListSize(t, p, s);
  }

  lemma {:induction false} CollectionFindsNoOrphans(t: Tables, p: Provider, scopes: seq<Code>)
    requires forall i | 0 <= i < |scopes| :: StateKey(p, CityCatalog, scopes[i]) in t.states
    ensures CollectScopes(t, p, scopes).Err? ==> CollectScopes(t, p, scopes).error.CountMismatch?
  {
    if scopes != [] {
      CollectionFindsNoOrphans(t, p, scopes[..|scopes| - 1]);
    }
  }

  /** A city of a scope without a state is reported by the bulk query, and by it alone. */
  lemma OrphansAreReported(t: Tables, p: Provider)
    requires !IsBlank(p.text)
    ensures GetAllScopes(t, p) == Err(OrphanCity) <==>
            exists k | k in t.cities :: k.provider == p && StateKey(p, CityCatalog, t.cities[k].scope) !in t.states
  {
    ScopesHaveStates(t, p);
    CollectionFindsNoOrphans(t, p, ScopeList(t, p));
  }
}
