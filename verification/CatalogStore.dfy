/**
  The catalogue operations of the database connection. A transaction is a single assignment to
  `tables`; `fault` says that the database reports an error, which rolls the transaction back.
 */
module CatalogStore {
  import opened Catalog
  import opened CatalogRuns
  import opened Common
  import opened Ordering
  import opened Text

  predicate NoneTaken(others: map<RowKey, CityRow>, provider: Provider, codes: seq<Code>) {
    forall k | k in others :: !(k.provider == provider && k.code in codes)
  }

  lemma NextKey<R>(others: map<RowKey, R>, provider: Provider, codes: seq<Code>, rows: seq<R>, i: nat)
    requires i < |codes| == |rows| && AllDiffer(codes)
    ensures var key := RowKey(provider, codes[i]);
            key in others + Rows(provider, codes[..i], rows[..i]) <==> key in others
  {
    RowKeys(provider, codes[..i], rows[..i]);
    assert codes[i] !in codes[..i];
  }

  lemma OneMoreRow<R>(others: map<RowKey, R>, provider: Provider, codes: seq<Code>, rows: seq<R>, i: nat)
    requires i < |codes| == |rows|
    ensures others + Rows(provider, codes[..i + 1], rows[..i + 1])
            == (others + Rows(provider, codes[..i], rows[..i]))[RowKey(provider, codes[i]) := rows[i]]
  {
    assert codes[..i + 1][..i] == codes[..i] && rows[..i + 1][..i] == rows[..i];
  }

  class CatalogDb {
    var tables: Tables

    constructor ()
      ensures tables == EMPTY
    {
      tables := EMPTY;
    }

    method ReplaceProviderProvinces(provider: Provider, items: seq<ProvinceItem>, now: int, fault: bool)
      returns (r: Result<(), CatalogError>)
      modifies this
      ensures r.Err? ==> tables == old(tables)
      ensures r.Err? ==> ReplaceProvinces(old(tables), provider, items, now) == Err(r.error) || (fault && r.error == Sqlite)
      ensures r.Ok? ==> !fault && ReplaceProvinces(old(tables), provider, items, now) == Ok(tables)
    {
      var error := ProvincesError(provider, items);
      if error.Some? {
        return Err(error.value);
      }
      if fault {
        return Err(Sqlite);
      }
      ValidProvincesDiffer(provider, items);
      var staged := InsertProvinces(ProvincesExcept(tables, provider), provider, items);
      var next := WithProvinces(tables, provider, staged);
      tables := next.(states := next.states[StateKey(provider, ProvinceCatalog, PROVINCE_SCOPE) := CacheState(now, |items|)]);
      return Ok(());
    }

    /** Inserts row by row; after validation the primary key is always free. */
    method InsertProvinces(others: map<RowKey, ProvinceRow>, provider: Provider, items: seq<ProvinceItem>)
      returns (staged: map<RowKey, ProvinceRow>)
      requires AllDiffer(ProvinceCodes(items)) && forall k | k in others :: k.provider != provider
      ensures staged == others + ProvinceRows(provider, items)
    {
      ghost var codes, rows := ProvinceCodes(items), ProvinceRowList(items);
      staged := others;
      for i := 0 to |items|
        invariant staged == others + Rows(provider, codes[..i], rows[..i])
      {
        var key := RowKey(provider, items[i].code);
        NextKey(others, provider, codes, rows, i);
        assert key !in staged;
        OneMoreRow(others, provider, codes, rows, i);
        staged := staged[key := ProvinceRow(items[i].name, items[i].url)];
      }
      assert codes[..|items|] == codes && rows[..|items|] == rows;
    }

    method ReplaceProviderCities(provider: Provider, scope: Code, items: seq<CityItem>, now: int, fault: bool)
      returns (r: Result<(), CatalogError>)
      modifies this
      ensures r.Err? ==> tables == old(tables)
      ensures r.Err? ==> ReplaceCities(old(tables), provider, scope, items, now) == Err(r.error) || (fault && r.error == Sqlite)
      ensures r.Ok? ==> !fault && ReplaceCities(old(tables), provider, scope, items, now) == Ok(tables)
    {
      var error := CitiesError(provider, scope, items);
      if error.Some? {
        return Err(error.value);
      }
      if fault {
        return Err(Sqlite);
      }
      ValidCitiesDiffer(provider, scope, items);
      var mappings := map k | k in tables.mappings && !(k.provider == provider && tables.mappings[k].scope == scope) :: tables.mappings[k];
      var staged := InsertCities(tables, provider, scope, items);
      if staged.None? {
        return Err(KeyTaken);
      }
      tables := Tables(tables.provinces, staged.value,
                       tables.states[StateKey(provider, CityCatalog, scope) := CacheState(now, |items|)], mappings);
      return Ok(());
    }

    /** Inserts row by row until a code turns out to be taken by a city of another province. */
    method InsertCities(t: Tables, provider: Provider, scope: Code, items: seq<CityItem>)
      returns (r: Option<map<RowKey, CityRow>>)
      requires AllDiffer(CityCodes(items))
      ensures r.None? <==> CodeTaken(t, provider, scope, items)
      ensures r.Some? ==> r.value == CitiesExcept(t, provider, scope) + CityRows(provider, scope, items)
    {
      var others := CitiesExcept(t, provider, scope);
      ghost var codes, rows := CityCodes(items), CityRowList(scope, items);
      var staged := others;
      for i := 0 to |items|
        invariant staged == others + Rows(provider, codes[..i], rows[..i])
        invariant NoneTaken(others, provider, codes[..i])
      {
        var key := RowKey(provider, items[i].code);
        NextKey(others, provider, codes, rows, i);
        if key in staged {
          assert HasCity(items, codes[i]);
          return None;
        }
        OneMoreRow(others, provider, codes, rows, i);
        assert codes[..i + 1] == codes[..i] + [codes[i]];
        staged := staged[key := CityRow(scope, items[i].province, items[i].city, items[i].url)];
      }
      assert codes[..|items|] == codes && rows[..|items|] == rows;
      return Some(staged);
    }

    method PutProviderStationMapping(station: ProviderStation, uuidOf: string -> string, fault: bool)
      returns (r: Result<(), CatalogError>)
      modifies this
      ensures r.Err? ==> tables == old(tables)
      ensures r.Err? ==> PutMapping(old(tables), station, uuidOf) == Err(r.error) || (fault && r.error == Sqlite)
      ensures r.Ok? ==> !fault && PutMapping(old(tables), station, uuidOf) == Ok(tables)
    {
      var error := MappingError(station, uuidOf);
      if error.Some? {
        return Err(error.value);
      }
      if fault {
        return Err(Sqlite);
      }
      tables := tables.(mappings := tables.mappings[MappingKey(station.provider, station.displayName) := station]);
      return Ok(());
    }

    method GetProviderProvinces(provider: Provider) returns (r: Result<Option<Cache<ProvinceItem>>, CatalogError>)
      ensures r == GetProvinces(tables, provider)
    {
      if IsBlank(provider.text) {
        return Err(BlankProvider);
      }
      var key := StateKey(provider, ProvinceCatalog, PROVINCE_SCOPE);
      if key !in tables.states {
        return Ok(None);
      }
      ProvincesAreOrdered(tables, provider);
      var items := Sorted(ProvinceSet(tables, provider), ProvinceBelow);
      if tables.states[key].rowCount != |items| {
        return Err(CountMismatch(ProvinceCatalog, PROVINCE_SCOPE));
      }
      return Ok(Some(Cache(items, tables.states[key].fetchedAt)));
    }

    method GetProviderCities(provider: Provider, scope: Code) returns (r: Result<Option<Cache<CityItem>>, CatalogError>)
      ensures r == GetCities(tables, provider, scope)
    {
      if IsBlank(provider.text) {
        return Err(BlankProvider);
      }
      var key := StateKey(provider, CityCatalog, scope);
      if key !in tables.states {
        return Ok(None);
      }
      var items := SelectCities(provider, scope);
      if tables.states[key].rowCount != |items| {
        return Err(CountMismatch(CityCatalog, scope));
      }
      return Ok(Some(Cache(items, tables.states[key].fetchedAt)));
    }

    method GetAllProviderCityScopes(provider: Provider) returns (r: Result<seq<ScopeCache>, CatalogError>)
      ensures r == GetAllScopes(tables, provider)
    {
      if IsBlank(provider.text) {
        return Err(BlankProvider);
      }
      if HasOrphan(tables, provider) {
        return Err(OrphanCity);
      }
      var scopes := SelectScopes(provider);
      ScopesHaveStates(tables, provider);
      r := CollectCaches(provider, scopes);
    }

    method SelectScopes(provider: Provider) returns (scopes: seq<Code>)
      ensures scopes == ScopeList(tables, provider)
    {
      CodesAreOrdered(Scopes(tables, provider));
      scopes := Sorted(Scopes(tables, provider), CodeBelow);
    }

    method CollectCaches(provider: Provider, scopes: seq<Code>) returns (r: Result<seq<ScopeCache>, CatalogError>)
      requires forall i | 0 <= i < |scopes| :: StateKey(provider, CityCatalog, scopes[i]) in tables.states
      ensures r == CollectScopes(tables, provider, scopes)
    {
      var caches: seq<ScopeCache> := [];
      for i := 0 to |scopes|
        invariant CollectScopes(tables, provider, scopes[..i]) == Ok(caches)
      {
        assert scopes[..i + 1][..i] == scopes[..i];
        var items := SelectCities(provider, scopes[i]);
        var state := tables.states[StateKey(provider, CityCatalog, scopes[i])];
        if state.rowCount != |items| {
          MismatchEndsTheCollection(tables, provider, scopes, i + 1);
          return Err(CountMismatch(CityCatalog, scopes[i]));
        }
        caches := caches + [ScopeCache(scopes[i], items, state.fetchedAt)];
      }
      assert scopes[..|scopes|] == scopes;
      return Ok(caches);
    }

    method SelectCities(provider: Provider, scope: Code) returns (items: seq<CityItem>)
      ensures items == CityList(tables, provider, scope)
    {
      CitiesAreOrdered(tables, provider, scope);
      items := Sorted(CitySet(tables, provider, scope), CityBelow);
    }

    static lemma {:induction false} MismatchEndsTheCollection(t: Tables, provider: Provider, scopes: seq<Code>, i: nat)
      requires i <= |scopes|
      requires forall i | 0 <= i < |scopes| :: StateKey(provider, CityCatalog, scopes[i]) in t.states
      requires CollectScopes(t, provider, scopes[..i]).Err?
      ensures CollectScopes(t, provider, scopes) == CollectScopes(t, provider, scopes[..i])
    {
      if i < |scopes| {
        var front := scopes[..|scopes| - 1];
        assert front[..i] == scopes[..i];
        MismatchEndsTheCollection(t, provider, front, i);
      } else {
        assert scopes[..i] == scopes;
      }
    }
  }
}
