/** Station paths such as "region-city-district": canonical form and the parent of a district. */
module Station {
  import opened Common
  import opened Text

  const SEPARATOR := '-'

  predicate IsComponent(part: string) {
    part != [] && IsTrimmed(part) && SEPARATOR !in part
  }

  predicate AreComponents(parts: seq<string>) {
    forall i | 0 <= i < |parts| :: IsComponent(parts[i])
  }

  /** The trimmed pieces that are not empty. */
  function Clean(parts: seq<string>): (r: seq<string>)
    ensures AllFree(parts, SEPARATOR) ==> AreComponents(r)
  {
    if parts == [] then []
    else if Trim(parts[0]) == [] then Clean(parts[1..])
    else [Trim(parts[0])] + Clean(parts[1..])
  }

  /** The trimmed, non-empty components of a station path. */
  function Components(name: string): (r: seq<string>)
    ensures AreComponents(r)
  {
    Clean(Split(name, SEPARATOR))
  }

  function NormalizeStationName(name: string): string {
    Join(Components(name), SEPARATOR)
  }

  function ParentStationName(name: string): Option<string> {
    var parts := Split(NormalizeStationName(name), SEPARATOR);
    if |parts| == 3 then Some(Join(parts[..2], SEPARATOR)) else None
  }

  lemma {:induction false} CleanKeepsComponents(parts: seq<string>)
    requires AreComponents(parts)
    ensures Clean(parts) == parts
  {
    if parts != [] {
      assert IsComponent(parts[0]);
      TrimmedIsKept(parts[0]);
      CleanKeepsComponents(parts[1..]);
    }
  }

  /** Joining components and taking the result apart again changes nothing. */
  lemma ComponentsOfJoin(parts: seq<string>)
    requires AreComponents(parts)
    ensures Components(Join(parts, SEPARATOR)) == parts
  {
    if parts == [] {
      var none: string := [];
      assert Split([], SEPARATOR) == [none] && Clean([none]) == Clean([none][1..]);
    } else {
      SplitOfComponents(parts);
      CleanKeepsComponents(parts);
    }
  }

  lemma SplitOfComponents(parts: seq<string>)
    requires AreComponents(parts) && parts != []
    ensures Split(Join(parts, SEPARATOR), SEPARATOR) == parts
  {
    forall i | 0 <= i < |parts| ensures SEPARATOR !in parts[i] {
      assert IsComponent(parts[i]);
    }
    SplitAfterJoin(parts, SEPARATOR);
  }

  /** Normalizing twice is normalizing once, and keeps the components. */
  lemma NormalizeIsIdempotent(name: string)
    ensures NormalizeStationName(NormalizeStationName(name)) == NormalizeStationName(name)
    ensures Components(NormalizeStationName(name)) == Components(name)
  {
    ComponentsOfJoin(Components(name));
  }

  /** Exactly the three-level paths have a parent: the path of their first two components. */
  lemma ParentOf(name: string, parts: seq<string>)
    requires parts == Components(name)
    ensures ParentStationName(name) == if |parts| == 3 then Some(Join(parts[..2], SEPARATOR)) else None
  {
    if parts == [] {
      assert Split([], SEPARATOR) == [[]];
    } else {
      SplitOfComponents(parts);
    }
  }

  lemma TwoLevelsHaveNoParent(parts: seq<string>)
    requires AreComponents(parts) && |parts| == 2
    ensures ParentStationName(Join(parts, SEPARATOR)) == None
  {
    ComponentsOfJoin(parts);
    ParentOf(Join(parts, SEPARATOR), parts);
  }

  lemma FirstTwo(parts: seq<string>)
    requires AreComponents(parts) && |parts| == 3
    ensures AreComponents(parts[..2]) && |parts[..2]| == 2
  {
  }

  /** Inheritance stops at two levels: a parent has no parent. */
  lemma ParentHasNoParent(name: string, parent: string)
    requires ParentStationName(name) == Some(parent)
    ensures ParentStationName(parent) == None
  {
    var parts := Components(name);
    ParentOf(name, parts);
    FirstTwo(parts);
    TwoLevelsHaveNoParent(parts[..2]);
  }

  // ----- Region names -----

  const REGION_SUFFIXES: seq<string> := ["市", "省", "自治区", "特别行政区"]

  function ShortRegionName(value: string): string {
    var city := StripSuffix(value, "市");
    var province := StripSuffix(value, "省");
    var region := StripSuffix(value, "自治区");
    var special := StripSuffix(value, "特别行政区");
    if city.Some? then city.value
    else if province.Some? then province.value
    else if region.Some? then region.value
    else special.GetOr(value)
  }

  lemma OtherSuffix(value: string, suffix: string, i: nat)
    requires i < |suffix|
    requires |suffix| <= |value| ==> value[|value| - |suffix| + i] != suffix[i]
    ensures StripSuffix(value, suffix) == None
  {
    if |suffix| <= |value| {
      assert value[|value| - |suffix|..][i] != suffix[i];
    }
  }

  lemma StrippedOf(core: string, suffix: string)
    ensures StripSuffix(core + suffix, suffix) == Some(core)
  {
    assert (core + suffix)[|core|..] == suffix && (core + suffix)[..|core|] == core;
  }

  /** Exactly one administrative suffix goes, and nothing else changes. */
  lemma ShortNameDropsOneSuffix(core: string, k: nat)
    requires k < |REGION_SUFFIXES|
    ensures ShortRegionName(core + REGION_SUFFIXES[k]) == core
  {
    var value := core + REGION_SUFFIXES[k];
    StrippedOf(core, REGION_SUFFIXES[k]);
    if k > 0 {
      OtherSuffix(value, "市", 0);
    }
    if k > 1 {
      OtherSuffix(value, "省", 0);
    }
    if k > 2 {
      OtherSuffix(value, "自治区", 1);
    }
  }

  /** A name without any of the suffixes is its own short name. */
  lemma PlainNameStays(value: string)
    requires forall core, k | 0 <= k < |REGION_SUFFIXES| :: value != core + REGION_SUFFIXES[k]
    ensures ShortRegionName(value) == value
  {
    forall k | 0 <= k < |REGION_SUFFIXES| ensures StripSuffix(value, REGION_SUFFIXES[k]) == None {
    }
    assert REGION_SUFFIXES[0] == "市" && REGION_SUFFIXES[1] == "省";
    assert REGION_SUFFIXES[2] == "自治区" && REGION_SUFFIXES[3] == "特别行政区";
  }

  /** The public path of a city: two levels for the province's own city, three otherwise. */
  function CanonicalStationName(province: string, city: string): string {
    var region := ShortRegionName(province);
    if city == region || city == province
    then region + [SEPARATOR] + province
    else region + [SEPARATOR] + province + [SEPARATOR] + city
  }

  lemma JoinTwo(a: string, b: string)
    ensures Join([a, b], SEPARATOR) == a + [SEPARATOR] + b
  {
    assert [a, b][1..] == [b];
  }

  lemma JoinThree(a: string, b: string, c: string)
    ensures Join([a, b, c], SEPARATOR) == a + [SEPARATOR] + b + [SEPARATOR] + c
  {
    var parts := [a, b, c];
    assert parts[1..] == [b, c];
    JoinTwo(b, c);
    assert a + [SEPARATOR] + (b + [SEPARATOR] + c) == a + [SEPARATOR] + b + [SEPARATOR] + c;
  }

  lemma ParentOfThree(a: string, b: string, c: string)
    requires IsComponent(a) && IsComponent(b) && IsComponent(c)
    ensures ParentStationName(Join([a, b, c], SEPARATOR)) == Some(Join([a, b], SEPARATOR))
  {
    var parts := [a, b, c];
    ComponentsOfJoin(parts);
    ParentOf(Join(parts, SEPARATOR), parts);
    assert parts[..2] == [a, b];
  }

  /** Inheritance goes from a city's path to its province's path. */
  lemma CanonicalParent(province: string, city: string)
    requires IsComponent(province) && IsComponent(city) && IsComponent(ShortRegionName(province))
    ensures ParentStationName(CanonicalStationName(province, city))
            == if city == ShortRegionName(province) || city == province then None
               else Some(CanonicalStationName(province, province))
  {
    var region := ShortRegionName(province);
    JoinTwo(region, province);
    if city == region || city == province {
      TwoLevelsHaveNoParent([region, province]);
    } else {
      JoinThree(region, province, city);
      ParentOfThree(region, province, city);
    }
  }
}
