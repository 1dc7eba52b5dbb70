/** What a request leaves alone: other providers entirely, and what was derived from other scopes. */
module CatalogIsolation {
  import opened Catalog
  import opened CatalogRuns
  import opened Common

  function At<K, V>(m: map<K, V>, k: K): Option<V> {
    if k in m then Some(m[k]) else None
  }

  // ----- Row by row -----

  lemma ReplacedProvinceAt(t: Tables, provider: Provider, items: seq<ProvinceItem>, now: int, k: RowKey)
    ensures At(ProvincesReplaced(t, provider, items, now).provinces, k)
            == if k.provider == provider then At(ProvinceRows(provider, items), k) else At(t.provinces, k)
    ensures k.provider == provider ==>
              (k in ProvincesReplaced(t, provider, items, now).provinces <==> HasProvince(items, k.code))
  {
    RowKeys(provider, ProvinceCodes(items), ProvinceRowList(items));
    assert ProvincesReplaced(t, provider, items, now).provinces == ProvincesExcept(t, provider) + ProvinceRows(provider, items);
  }

  /** Cities, city states and mappings of a dropped province go; everything else stays. */
  lemma CityAfterProvinces(t: Tables, provider: Provider, items: seq<ProvinceItem>, now: int, k: RowKey)
    ensures At(ProvincesReplaced(t, provider, items, now).cities, k)
            == if k in t.cities && k.provider == provider && !HasProvince(items, t.cities[k].scope) then None else At(t.cities, k)
  {
    if k in t.cities {
      ReplacedProvinceAt(t, provider, items, now, RowKey(provider, t.cities[k].scope));
    }
  }

  lemma StateAfterProvinces(t: Tables, provider: Provider, items: seq<ProvinceItem>, now: int, k: StateKey)
    ensures At(ProvincesReplaced(t, provider, items, now).states, k)
            == if k == StateKey(provider, ProvinceCatalog, PROVINCE_SCOPE) then Some(CacheState(now, |items|))
               else if k.provider == provider && k.kind == CityCatalog && !HasProvince(items, k.scope) then None
               else At(t.states, k)
  {
    ReplacedProvinceAt(t, provider, items, now, RowKey(provider, k.scope));
  }

  lemma MappingAfterProvinces(t: Tables, provider: Provider, items: seq<ProvinceItem>, now: int, k: MappingKey)
    ensures At(ProvincesReplaced(t, provider, items, now).mappings, k)
            == if k in t.mappings && k.provider == provider && !HasProvince(items, t.mappings[k].scope) then None
               else At(t.mappings, k)
  {
    if k in t.mappings {
      ReplacedProvinceAt(t, provider, items, now, RowKey(provider, t.mappings[k].scope));
    }
  }

  lemma CityAfterCities(t: Tables, provider: Provider, scope: Code, items: seq<CityItem>, now: int, k: RowKey)
    ensures At(CitiesReplaced(t, provider, scope, items, now).cities, k)
            == if k.provider == provider && HasCity(items, k.code) then At(CityRows(provider, scope, items), k)
               else if k in t.cities && k.provider == provider && t.cities[k].scope == scope then None
               else At(t.cities, k)
  {
    RowKeys(provider, CityCodes(items), CityRowList(scope, items));
    assert CitiesReplaced(t, provider, scope, items, now).cities == CitiesExcept(t, provider, scope) + CityRows(provider, scope, items);
  }

  // ----- Providers do not see each other -----

  /** Two states that hold the same for a provider. */
  ghost predicate Agree(t: Tables, u: Tables, p: Provider) {
    && (forall k: RowKey | k.provider == p :: At(t.provinces, k) == At(u.provinces, k))
    && (forall k: RowKey | k.provider == p :: At(t.cities, k) == At(u.cities, k))
    && (forall k: StateKey | k.provider == p :: At(t.states, k) == At(u.states, k))
    && (forall k: MappingKey | k.provider == p :: At(t.mappings, k) == At(u.mappings, k))
  }

  lemma OthersKeepProvinces(t: Tables, provider: Provider, items: seq<ProvinceItem>, now: int, p: Provider)
    requires p != provider
    ensures Agree(ProvincesReplaced(t, provider, items, now), t, p)
  {
    forall k: RowKey | k.provider == p
      ensures At(ProvincesReplaced(t, provider, items, now).provinces, k) == At(t.provinces, k)
      ensures At(ProvincesReplaced(t, provider, items, now).cities, k) == At(t.cities, k)
    {
      ReplacedProvinceAt(t, provider, items, now, k);
      CityAfterProvinces(t, provider, items, now, k);
    }
    forall k: StateKey | k.provider == p ensures At(ProvincesReplaced(t, provider, items, now).states, k) == At(t.states, k) {
      StateAfterProvinces(t, provider, items, now, k);
    }
    forall k: MappingKey | k.provider == p ensures At(ProvincesReplaced(t, provider, items, now).mappings, k) == At(t.mappings, k) {
      MappingAfterProvinces(t, provider, items, now, k);
    }
  }

  lemma OthersKeepCities(t: Tables, provider: Provider, scope: Code, items: seq<CityItem>, now: int, p: Provider)
    requires p != provider
    ensures Agree(CitiesReplaced(t, provider, scope, items, now), t, p)
  {
    forall k: RowKey | k.provider == p ensures At(CitiesReplaced(t, provider, scope, items, now).cities, k) == At(t.cities, k) {
      CityAfterCities(t, provider, scope, items, now, k);
    }
  }

  lemma SameProvinces(t: Tables, u: Tables, items: seq<ProvinceItem>, now: int, p: Provider)
    requires Agree(t, u, p)
    ensures Agree(ProvincesReplaced(t, p, items, now), ProvincesReplaced(u, p, items, now), p)
  {
    var t', u' := ProvincesReplaced(t, p, items, now), ProvincesReplaced(u, p, items, now);
    forall k: RowKey | k.provider == p
      ensures At(t'.provinces, k) == At(u'.provinces, k) && At(t'.cities, k) == At(u'.cities, k)
    {
      assert At(t.cities, k) == At(u.cities, k);
      ReplacedProvinceAt(t, p, items, now, k);
      ReplacedProvinceAt(u, p, items, now, k);
      CityAfterProvinces(t, p, items, now, k);
      CityAfterProvinces(u, p, items, now, k);
    }
    forall k: StateKey | k.provider == p ensures At(t'.states, k) == At(u'.states, k) {
      StateAfterProvinces(t, p, items, now, k);
      StateAfterProvinces(u, p, items, now, k);
    }
    forall k: MappingKey | k.provider == p ensures At(t'.mappings, k) == At(u'.mappings, k) {
      assert At(t.mappings, k) == At(u.mappings, k);
      MappingAfterProvinces(t, p, items, now, k);
      MappingAfterProvinces(u, p, items, now, k);
    }
  }

  lemma SameCities(t: Tables, u: Tables, scope: Code, items: seq<CityItem>, now: int, p: Provider)
    requires Agree(t, u, p)
    ensures Agree(CitiesReplaced(t, p, scope, items, now), CitiesReplaced(u, p, scope, items, now), p)
  {
    var t', u' := CitiesReplaced(t, p, scope, items, now), CitiesReplaced(u, p, scope, items, now);
    forall k: RowKey | k.provider == p ensures At(t'.cities, k) == At(u'.cities, k) {
      assert At(t.cities, k) == At(u.cities, k);
      CityAfterCities(t, p, scope, items, now, k);
      CityAfterCities(u, p, scope, items, now, k);
    }
    forall k: MappingKey | k.provider == p ensures At(t'.mappings, k) == At(u'.mappings, k) {
      assert At(t.mappings, k) == At(u.mappings, k);
    }
  }

  lemma SameCodesTaken(t: Tables, u: Tables, scope: Code, items: seq<CityItem>, p: Provider)
    requires Agree(t, u, p)
    ensures CodeTaken(t, p, scope, items) ==> CodeTaken(u, p, scope, items)
  {
    if CodeTaken(t, p, scope, items) {
      var k :| k in CitiesExcept(t, p, scope) && k.provider == p && HasCity(items, k.code);
      assert At(t.cities, k) == At(u.cities, k);
      assert k in CitiesExcept(u, p, scope);
    }
  }

  /** A request changes nothing for other providers. */
  lemma OthersAreUntouched(t: Tables, change: Change, uuidOf: string -> string, p: Provider)
    requires p != change.Owner()
    ensures Agree(Apply(t, change, uuidOf), t, p)
  {
    var r := Outcome(t, change, uuidOf);
    match change
    case NewProvinces(provider, provinces, now) => ProvincesLeaveOthers(t, provider, provinces, now, p, r);
    case NewCities(provider, scope, cities, now) => CitiesLeaveOthers(t, provider, scope, cities, now, p, r);
    case NewMapping(station) => MappingLeavesOthers(t, station, uuidOf, p, r);
    case Failed(_) =>
  }

  lemma ProvincesLeaveOthers(t: Tables, provider: Provider, items: seq<ProvinceItem>, now: int, p: Provider, r: Result<Tables, CatalogError>)
    requires p != provider && r == ReplaceProvinces(t, provider, items, now)
    ensures r.Ok? ==> Agree(r.value, t, p)
  {
    OthersKeepProvinces(t, provider, items, now, p);
  }

  lemma CitiesLeaveOthers(t: Tables, provider: Provider, scope: Code, items: seq<CityItem>, now: int, p: Provider, r: Result<Tables, CatalogError>)
    requires p != provider && r == ReplaceCities(t, provider, scope, items, now)
    ensures r.Ok? ==> Agree(r.value, t, p)
  {
    OthersKeepCities(t, provider, scope, items, now, p);
  }

  lemma MappingLeavesOthers(t: Tables, station: ProviderStation, uuidOf: string -> string, p: Provider, r: Result<Tables, CatalogError>)
    requires p != station.provider && r == PutMapping(t, station, uuidOf)
    ensures r.Ok? ==> Agree(r.value, t, p)
  {
  }

  /** Two answers for the same request: both refused, or both accepted with the same rows for `p`. */
  ghost predicate Match(r: Result<Tables, CatalogError>, s: Result<Tables, CatalogError>, p: Provider) {
    r.Ok? == s.Ok? && (r.Ok? ==> Agree(r.value, s.value, p))
  }

  lemma ProvincesMatch(t: Tables, u: Tables, p: Provider, items: seq<ProvinceItem>, now: int)
    requires Agree(t, u, p)
    ensures Match(ReplaceProvinces(t, p, items, now), ReplaceProvinces(u, p, items, now), p)
  {
    SameProvinces(t, u, items, now, p);
  }

  lemma CitiesMatch(t: Tables, u: Tables, p: Provider, scope: Code, items: seq<CityItem>, now: int)
    requires Agree(t, u, p)
    ensures Match(ReplaceCities(t, p, scope, items, now), ReplaceCities(u, p, scope, items, now), p)
  {
    SameCities(t, u, scope, items, now, p);
    SameCodesTaken(t, u, scope, items, p);
    SameCodesTaken(u, t, scope, items, p);
  }

  lemma MappingsMatch(t: Tables, u: Tables, station: ProviderStation, uuidOf: string -> string)
    requires Agree(t, u, station.provider)
    ensures Match(PutMapping(t, station, uuidOf), PutMapping(u, station, uuidOf), station.provider)
  {
    if MappingError(station, uuidOf).None? {
      SameMappings(t, u, MappingKey(station.provider, station.displayName), station);
    }
  }

  lemma SameMappings(t: Tables, u: Tables, key: MappingKey, station: ProviderStation)
    requires Agree(t, u, key.provider)
    ensures Agree(t.(mappings := t.mappings[key := station]), u.(mappings := u.mappings[key := station]), key.provider)
  {
    forall k: MappingKey | k.provider == key.provider
      ensures At(t.mappings[key := station], k) == At(u.mappings[key := station], k)
    {
      assert At(t.mappings, k) == At(u.mappings, k);
    }
  }

  /** What a request does for its provider depends on that provider's rows alone. */
  lemma OwnRowsDecide(t: Tables, u: Tables, change: Change, uuidOf: string -> string)
    requires Agree(t, u, change.Owner())
    ensures Match(Outcome(t, change, uuidOf), Outcome(u, change, uuidOf), change.Owner())
  {
    match change
    case NewProvinces(provider, provinces, now) => ProvincesMatch(t, u, provider, provinces, now);
    case NewCities(provider, scope, cities, now) => CitiesMatch(t, u, provider, scope, cities, now);
    case NewMapping(station) => MappingsMatch(t, u, station, uuidOf);
    case Failed(_) =>
  }

  /** The requests for one provider. */
  function Own(changes: seq<Change>, p: Provider): seq<Change> {
    if changes == [] then []
    else
      var last := changes[|changes| - 1];
      Own(changes[..|changes| - 1], p) + if last.Owner() == p then [last] else []
  }

  lemma AgreeAcross(t: Tables, u: Tables, v: Tables, p: Provider)
    requires Agree(t, u, p) && Agree(u, v, p)
    ensures Agree(t, v, p)
  {
    forall k: RowKey | k.provider == p ensures At(t.provinces, k) == At(v.provinces, k) && At(t.cities, k) == At(v.cities, k) {
      assert At(t.provinces, k) == At(u.provinces, k) && At(t.cities, k) == At(u.cities, k);
    }
    forall k: StateKey | k.provider == p ensures At(t.states, k) == At(v.states, k) {
      assert At(t.states, k) == At(u.states, k);
    }
    forall k: MappingKey | k.provider == p ensures At(t.mappings, k) == At(v.mappings, k) {
      assert At(t.mappings, k) == At(u.mappings, k);
    }
  }

  lemma IsolationStep(t: Tables, u: Tables, change: Change, uuidOf: string -> string, p: Provider, t': Tables)
    requires Agree(t, u, p) && t' == Apply(t, change, uuidOf)
    ensures Agree(t', if change.Owner() == p then Apply(u, change, uuidOf) else u, p)
  {
    if change.Owner() == p {
      OwnRowsDecide(t, u, change, uuidOf);
    } else {
      OthersAreUntouched(t, change, uuidOf, p);
      AgreeAcross(t', t, u, p);
    }
  }

  lemma RunOfOwn(changes: seq<Change>, uuidOf: string -> string, p: Provider)
    requires changes != []
    ensures var before := Run(Own(changes[..|changes| - 1], p), uuidOf);
            var last := changes[|changes| - 1];
            Run(Own(changes, p), uuidOf) == if last.Owner() == p then Apply(before, last, uuidOf) else before
  {
    var own, last := Own(changes[..|changes| - 1], p), changes[|changes| - 1];
    if last.Owner() == p {
      assert (own + [last])[..|own|] == own;
      assert Own(changes, p) == own + [last];
    } else {
      assert Own(changes, p) == own;
    }
  }

  /** After any history a provider has what its own requests alone would have given it. */
  lemma {:induction false} ProvidersAreIsolated(changes: seq<Change>, uuidOf: string -> string, p: Provider)
    ensures Agree(Run(changes, uuidOf), Run(Own(changes, p), uuidOf), p)
  {
    if changes != [] {
      var front := changes[..|changes| - 1];
      ProvidersAreIsolated(front, uuidOf, p);
      RunOfOwn(changes, uuidOf, p);
      IsolationStep(Run(front, uuidOf), Run(Own(front, p), uuidOf), changes[|changes| - 1], uuidOf, p, Run(changes, uuidOf));
    }
  }

  // ----- Station mappings follow their catalogue -----

  /** An accepted replacement that a mapping derived from the scope must not outlive. */
  predicate Invalidates(t: Tables, change: Change, uuidOf: string -> string, p: Provider, scope: Code) {
    && Outcome(t, change, uuidOf).Ok?
    && match change
       case NewProvinces(provider, provinces, _) => provider == p && !HasProvince(provinces, scope)
       case NewCities(provider, replaced, _, _) => provider == p && replaced == scope
       case NewMapping(_) => false
       case Failed(_) => false
  }

  /** The position of the last such replacement, or -1. */
  function LastInvalidation(changes: seq<Change>, uuidOf: string -> string, p: Provider, scope: Code): (i: int)
    ensures -1 <= i < |changes|
  {
    if changes == [] then -1
    else
      var front := changes[..|changes| - 1];
      if Invalidates(Run(front, uuidOf), changes[|front|], uuidOf, p, scope) then |front|
      else LastInvalidation(front, uuidOf, p, scope)
  }

  lemma MappingAfter(t: Tables, change: Change, uuidOf: string -> string, u: Tables, k: MappingKey)
    requires u == Apply(t, change, uuidOf) && k in u.mappings
    ensures change == NewMapping(u.mappings[k])
            || (At(t.mappings, k) == At(u.mappings, k) && !Invalidates(t, change, uuidOf, k.provider, u.mappings[k].scope))
  {
    if change.NewProvinces? {
      MappingAfterProvinces(t, change.provider, change.provinces, change.now, k);
    }
  }

  /** No mapping outlives the replacement of the catalogue it was derived from. */
  lemma {:induction false} MappingsAreCurrent(changes: seq<Change>, uuidOf: string -> string, k: MappingKey)
    returns (j: nat)
    requires k in Run(changes, uuidOf).mappings
    ensures var m := Run(changes, uuidOf).mappings[k];
            LastInvalidation(changes, uuidOf, k.provider, m.scope) < j < |changes| && changes[j] == NewMapping(m)
  {
    var u := Run(changes, uuidOf);
    var n := |changes| - 1;
    var t := Run(changes[..n], uuidOf);
    MappingAfter(t, changes[n], uuidOf, u, k);
    if changes[n] == NewMapping(u.mappings[k]) {
      j := n;
    } else {
      j := MappingsAreCurrent(changes[..n], uuidOf, k);
    }
  }
}
