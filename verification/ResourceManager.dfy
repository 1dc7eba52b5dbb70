/** The resource manager: registration with pinning, fetch coordination, and the byte-bounded cache. */
module ResourceManager {
  import opened Common
  import opened ResourceState
  import Text

  type IdOf = string -> Id

  // ----- What the operations do -----

  function Touched(s: State): State {
    s.(sequence := WrappingNext(s.sequence))
  }

  predicate IsPending(s: State, id: Id) {
    id in s.fetches && s.fetches[id] == Pending
  }

  /** A registration that may be evicted: no fetch is outstanding, and none such was used earlier. */
  predicate IsVictim(s: State, id: Id) {
    && id in s.registrations && !IsPending(s, id)
    && forall other | other in s.registrations && !IsPending(s, other) ::
         s.registrations[id].lastUsed <= s.registrations[other].lastUsed
  }

  function WithoutCached(s: State, id: Id): State {
    if id in s.cache
    then s.(cache := s.cache - {id}, cacheBytes := SaturatingSub(s.cacheBytes, Size(s.cache[id])))
    else s
  }

  function WithoutId(s: State, id: Id): State {
    WithoutCached(s.(registrations := s.registrations - {id}, fetches := s.fetches - {id}), id)
  }

  function WithRegistration(s: State, id: Id, url: string): State {
    s.(registrations := s.registrations[id := Registration(url, s.sequence)])
  }

  function DropIfExpired(s: State, id: Id, now: Instant): State {
    if id in s.cache && s.cache[id].expiresAt <= now then WithoutCached(s, id) else s
  }

  function WithUse(s: State, id: Id): State
    requires id in s.cache
  {
    s.(cache := s.cache[id := s.cache[id].(lastUsed := s.sequence)])
  }

  /** The answer for a registered resource whose cached copy, if any, has not expired. */
  function Answered(s: State, id: Id, url: string, now: Instant): (State, Plan) {
    if id in s.cache then (WithUse(s, id), Ready(s.cache[id].resource))
    else if id !in s.fetches || (s.fetches[id].Failed? && s.fetches[id].expiresAt <= now) then
      (s.(fetches := s.fetches[id := Pending]), Start(url))
    else match s.fetches[id]
      case Pending => (s, StillPending)
      case Failed(message, _) => (s, Refused(message))
  }

  /** The answer to a fetch request, and the state in which it leaves the manager. */
  function BegunFetch(s: State, id: Id, now: Instant): (State, Plan) {
    var t := Touched(s);
    if id !in t.registrations then (t, Missing)
    else
      var url := t.registrations[id].sourceUrl;
      Answered(DropIfExpired(WithRegistration(t, id, url), id, now), id, url, now)
  }

  function FinishedFetch(s: State, id: Id, error: Option<string>, now: Instant): State {
    if id !in s.registrations || error == None then s.(fetches := s.fetches - {id})
    else s.(fetches := s.fetches[id := Failed(error.value, now + FAILED_FETCH_TTL)])
  }

  // ----- The invariant -----

  /** The byte count is the sum of the cached sizes and within the limit. */
  ghost predicate Counted(limits: Limits, s: State) {
    s.cacheBytes == Total(s.cache) && s.cacheBytes <= limits.maxBytes
  }

  /** What is cached or fetched is registered, and the registry is within its limit. */
  ghost predicate Linked(limits: Limits, s: State) {
    && s.cache.Keys <= s.registrations.Keys && s.fetches.Keys <= s.registrations.Keys
    && |s.registrations| <= limits.maxRegistrations
  }

  /** In each map the last uses are different numbers that have been given out. */
  ghost predicate Stamped(s: State) {
    && s.sequence <= U64_MAX
    && DistinctUses(s.cache) && DistinctRegistrations(s.registrations)
    && (forall id | id in s.cache :: s.cache[id].lastUsed <= s.sequence)
    && (forall id | id in s.registrations :: s.registrations[id].lastUsed <= s.sequence)
  }

  ghost predicate Sound(limits: Limits, s: State) {
    2 * limits.maxBytes <= USIZE_MAX && Counted(limits, s) && Linked(limits, s) && Stamped(s)
  }

  ghost predicate UnusedInCache(s: State) {
    forall id | id in s.cache :: s.cache[id].lastUsed < s.sequence
  }

  /** The current number of the sequence has not been given out yet. */
  ghost predicate Unstamped(s: State) {
    UnusedInCache(s) && forall id | id in s.registrations :: s.registrations[id].lastUsed < s.sequence
  }

  lemma TouchKeepsSound(limits: Limits, s: State)
    requires Sound(limits, s) && s.sequence < U64_MAX
    ensures Sound(limits, Touched(s)) && Unstamped(Touched(s))
  {
  }

  lemma CacheRemovalKeepsSound(limits: Limits, s: State, id: Id)
    requires Sound(limits, s)
    ensures Sound(limits, WithoutCached(s, id))
    ensures UnusedInCache(s) ==> UnusedInCache(WithoutCached(s, id))
  {
    if id in s.cache {
      TotalWithout(s.cache, id);
    }
  }

  /** Unregistering what is not cached. */
  function Unregistered(s: State, id: Id): State {
    s.(registrations := s.registrations - {id}, fetches := s.fetches - {id})
  }

  lemma UnregisteringKeepsLinked(limits: Limits, s: State, id: Id)
    requires Linked(limits, s) && id !in s.cache
    ensures Linked(limits, Unregistered(s, id))
  {
    var keys := s.registrations.Keys;
    assert Unregistered(s, id).registrations.Keys == keys - {id};
    assert |keys - {id}| <= |keys|;
  }

  lemma UnregisteringKeepsStamped(s: State, id: Id)
    requires Stamped(s)
    ensures Stamped(Unregistered(s, id)) && (Unstamped(s) ==> Unstamped(Unregistered(s, id)))
  {
  }

  lemma UnregisteringKeepsSound(limits: Limits, s: State, id: Id)
    requires Sound(limits, s) && id !in s.cache
    ensures Sound(limits, Unregistered(s, id)) && (Unstamped(s) ==> Unstamped(Unregistered(s, id)))
  {
    UnregisteringKeepsLinked(limits, s, id);
    UnregisteringKeepsStamped(s, id);
  }

  lemma RemovalParts(s: State, id: Id)
    ensures WithoutId(s, id) == Unregistered(WithoutCached(s, id), id) && id !in WithoutCached(s, id).cache
    ensures Unstamped(s) ==> Unstamped(WithoutCached(s, id))
  {
  }

  lemma RemovalKeepsSound(limits: Limits, s: State, id: Id)
    requires Sound(limits, s)
    ensures Sound(limits, WithoutId(s, id))
    ensures Unstamped(s) ==> Unstamped(WithoutId(s, id))
  {
    CacheRemovalKeepsSound(limits, s, id);
    RemovalParts(s, id);
    UnregisteringKeepsSound(limits, WithoutCached(s, id), id);
  }

  lemma RegistrationKeepsSound(limits: Limits, s: State, id: Id, url: string)
    requires Sound(limits, s) && Unstamped(s)
    requires id in s.registrations || |s.registrations| < limits.maxRegistrations
    ensures Sound(limits, WithRegistration(s, id, url)) && UnusedInCache(WithRegistration(s, id, url))
  {
    assert WithRegistration(s, id, url).registrations.Keys == s.registrations.Keys + {id};
  }

  lemma UseKeepsTotal(s: State, id: Id)
    requires id in s.cache
    ensures Total(WithUse(s, id).cache) == Total(s.cache)
  {
    var used := s.cache[id].(lastUsed := s.sequence);
    TotalWithout(s.cache, id);
    TotalWith(s.cache - {id}, id, used);
    assert s.cache[id := used] == (s.cache - {id})[id := used];
  }

  lemma UseKeepsSound(limits: Limits, s: State, id: Id)
    requires Sound(limits, s) && id in s.cache && UnusedInCache(s)
    ensures Sound(limits, WithUse(s, id))
  {
    UseKeepsTotal(s, id);
    UseKeepsStamped(s, id);
  }

  lemma UseKeepsStamped(s: State, id: Id)
    requires Stamped(s) && id in s.cache && UnusedInCache(s)
    ensures Stamped(WithUse(s, id))
  {
  }

  lemma AnswerKeepsSound(limits: Limits, s: State, id: Id, url: string, now: Instant)
    requires Sound(limits, s) && UnusedInCache(s) && id in s.registrations
    ensures Sound(limits, Answered(s, id, url, now).0)
  {
    if id in s.cache {
      UseKeepsSound(limits, s, id);
    }
  }

  lemma BeginKeepsSound(limits: Limits, s: State, id: Id, now: Instant)
    requires Sound(limits, s) && s.sequence < U64_MAX
    ensures Sound(limits, BegunFetch(s, id, now).0)
  {
    TouchKeepsSound(limits, s);
    var t := Touched(s);
    if id in t.registrations {
      var url := t.registrations[id].sourceUrl;
      var used := WithRegistration(t, id, url);
      RegistrationKeepsSound(limits, t, id, url);
      RemovalKeepsSound(limits, used, id);
      AnswerKeepsSound(limits, DropIfExpired(used, id, now), id, url, now);
    }
  }

  lemma StoreKeepsStamped(s: State, id: Id, entry: CacheEntry, cacheBytes: nat)
    requires Stamped(s) && UnusedInCache(s) && entry.lastUsed == s.sequence
    ensures Stamped(s.(cache := s.cache[id := entry], cacheBytes := cacheBytes))
  {
  }

  lemma StoreKeepsSound(limits: Limits, s: State, id: Id, entry: CacheEntry)
    requires Sound(limits, s) && UnusedInCache(s) && id in s.registrations && id !in s.cache
    requires entry.lastUsed == s.sequence && s.cacheBytes + Size(entry) <= limits.maxBytes
    ensures Sound(limits, s.(cache := s.cache[id := entry], cacheBytes := SaturatingAdd(s.cacheBytes, Size(entry))))
  {
    TotalWith(s.cache, id, entry);
    StoreKeepsStamped(s, id, entry, SaturatingAdd(s.cacheBytes, Size(entry)));
  }

  lemma EvictionShrinks(s: State, id: Id)
    requires id in s.registrations
    ensures |WithoutId(s, id).registrations| == |s.registrations| - 1
  {
    assert (s.registrations - {id}).Keys == s.registrations.Keys - {id};
  }

  /** What adding a new registration does: add, refuse, or add in place of a victim. */
  ghost predicate IsAdded(limits: Limits, s: State, t: State, key: Id, url: string, id: Option<Id>) {
    if |s.registrations| < limits.maxRegistrations then
      id == Some(key) && t == WithRegistration(s, key, url)
    else if forall other | other in s.registrations :: IsPending(s, other) then
      id == None && t == s
    else
      id == Some(key) && exists victim | IsVictim(s, victim) :: t == WithRegistration(WithoutId(s, victim), key, url)
  }

  /** What is left while the expired entries go one by one. */
  ghost predicate IsPurging(before: Cache, now: Instant, expired: set<Id>, entries: Cache) {
    && (forall id | id in entries :: id in before && entries[id] == before[id])
    && (forall id | id in before && before[id].expiresAt > now :: id in entries)
    && (forall id :: id in expired <==> id in entries && entries[id].expiresAt <= now)
  }

  lemma PurgeOne(before: Cache, now: Instant, expired: set<Id>, entries: Cache, id: Id)
    requires IsPurging(before, now, expired, entries) && id in expired
    ensures IsPurging(before, now, expired - {id}, entries - {id})
  {
  }

  lemma AllPurged(before: Cache, now: Instant, entries: Cache)
    requires IsPurging(before, now, {}, entries)
    ensures entries == Unexpired(before, now)
  {
    forall id | id in entries ensures entries[id].expiresAt > now {
      var none: set<Id> := {};
      assert id !in none;
    }
  }

  lemma OneEvicted(before: Cache, entries: Cache, oldest: Id, bytes: nat, maxBytes: nat)
    requires IsOldest(before, oldest) && entries == before - {oldest} && Total(before) + bytes > maxBytes
    ensures |entries| < |before|
    ensures forall kept | IsEvicted(entries, bytes, maxBytes, kept) :: IsEvicted(before, bytes, maxBytes, kept)
  {
    assert entries.Keys == before.Keys - {oldest};
  }

  /** What registering `url` under `key` does: refuse, refresh, or add. */
  ghost predicate IsRegistered(limits: Limits, s: State, t: State, key: Id, url: string, id: Option<Id>) {
    if url == [] || limits.maxRegistrations == 0 then id == None && t == s
    else if key in s.registrations then
      if s.registrations[key].sourceUrl == url
      then id == Some(key) && t == WithRegistration(Touched(s), key, url)
      else id == None && t == Touched(s)
    else IsAdded(limits, Touched(s), t, key, url, id)
  }

  class Manager {
    const limits: Limits
    const idOf: IdOf
    var registrations: Registrations
    var entries: Cache
    var fetches: Fetches
    var cacheBytes: nat
    var sequence: nat

    ghost function View(): State
      reads this
    {
      State(registrations, entries, fetches, cacheBytes, sequence)
    }

    ghost predicate Valid()
      reads this
    {
      Sound(limits, View())
    }

    constructor (limits: Limits, idOf: IdOf)
      requires 2 * limits.maxBytes <= USIZE_MAX
      ensures Valid() && this.limits == limits && this.idOf == idOf
      ensures View() == State(map[], map[], map[], 0, 0)
    {
      this.limits, this.idOf := limits, idOf;
      registrations, entries, fetches, cacheBytes, sequence := map[], map[], map[], 0, 0;
    }

    method NextSequence() returns (next: nat)
      modifies this`sequence
      ensures next == sequence == WrappingNext(old(sequence))
    {
      sequence := if sequence >= U64_MAX then 0 else sequence + 1;
      next := sequence;
    }

    method RemoveCacheEntry(id: Id)
      modifies this`entries, this`cacheBytes
      ensures View() == WithoutCached(old(View()), id)
      ensures old(cacheBytes == Total(entries)) ==> cacheBytes == Total(entries)
    {
      if id in entries {
        TotalWithout(entries, id);
        var size := Size(entries[id]);
        entries := entries - {id};
        cacheBytes := SaturatingSub(cacheBytes, size);
      }
    }

    /** Some registration that is not pinned by an outstanding fetch, used longest ago. */
    method OldestUnpinned() returns (oldest: Option<Id>)
      ensures oldest.Some? ==> IsVictim(View(), oldest.value)
      ensures oldest == None ==> forall id | id in registrations :: IsPending(View(), id)
    {
      oldest := None;
      var rest := registrations.Keys;
      while rest != {}
        invariant rest <= registrations.Keys
        invariant oldest == None ==> forall id | id in registrations.Keys - rest :: IsPending(View(), id)
        invariant oldest.Some? ==>
                    && oldest.value in registrations && !IsPending(View(), oldest.value)
                    && forall id | id in registrations.Keys - rest && !IsPending(View(), id) ::
                         registrations[oldest.value].lastUsed <= registrations[id].lastUsed
        decreases rest
      {
        var id := Pick(rest);
        rest := rest - {id};
        var pinned := id in fetches && fetches[id] == Pending;
        if !pinned && (oldest == None || registrations[id].lastUsed < registrations[oldest.value].lastUsed) {
          oldest := Some(id);
        }
      }
    }

    method EvictRegistration(id: Id)
      modifies this`registrations, this`entries, this`fetches, this`cacheBytes
      ensures View() == WithoutId(old(View()), id)
    {
      registrations := registrations - {id};
      fetches := fetches - {id};
      RemoveCacheEntry(id);
    }

    /**
      Makes place in the registry: the least recently used registration without an outstanding
      fetch goes, with all that belongs to it. There may be none.
     */
    method MakeRegistryRoom() returns (ok: bool)
      requires Valid() && Unstamped(View())
      modifies this`registrations, this`entries, this`fetches, this`cacheBytes
      ensures Valid() && Unstamped(View())
      ensures ok ==> |registrations| < limits.maxRegistrations
      ensures |old(registrations)| < limits.maxRegistrations ==> ok && View() == old(View())
      ensures !ok ==> View() == old(View()) && forall id | id in registrations :: IsPending(View(), id)
      ensures ok && |old(registrations)| >= limits.maxRegistrations ==>
                exists victim | IsVictim(old(View()), victim) :: View() == WithoutId(old(View()), victim)
    {
      while |registrations| >= limits.maxRegistrations
        invariant Valid() && Unstamped(View())
        invariant View() == old(View()) || (
                    |registrations| < limits.maxRegistrations <= |old(registrations)|
                    && exists victim | IsVictim(old(View()), victim) :: View() == WithoutId(old(View()), victim))
        decreases |registrations|
      {
        var oldest := OldestUnpinned();
        if oldest == None {
          return false;
        }
        RemovalKeepsSound(limits, View(), oldest.value);
        EvictionShrinks(View(), oldest.value);
        EvictRegistration(oldest.value);
      }
      return true;
    }

    method SetRegistration(id: Id, url: string)
      modifies this`registrations
      ensures View() == WithRegistration(old(View()), id, url)
    {
      registrations := registrations[id := Registration(url, sequence)];
    }

    /** Registers a source under the identifier derived from it; see `IsRegistered`. */
    method Register(source: string) returns (id: Option<Id>)
      requires Valid() && sequence < U64_MAX
      modifies this`registrations, this`entries, this`fetches, this`cacheBytes, this`sequence
      ensures Valid()
      ensures IsRegistered(limits, old(View()), View(), idOf(Text.Trim(source)), Text.Trim(source), id)
    {
      var url := Text.Trim(source);
      id := RegisterUrl(idOf(url), url);
    }

    method RegisterUrl(key: Id, url: string) returns (id: Option<Id>)
      requires Valid() && sequence < U64_MAX
      modifies this`registrations, this`entries, this`fetches, this`cacheBytes, this`sequence
      ensures Valid()
      ensures IsRegistered(limits, old(View()), View(), key, url, id)
    {
      if url == [] || limits.maxRegistrations == 0 {
        return None;
      }
      TouchKeepsSound(limits, View());
      var next := NextSequence();
      if key in registrations {
        if registrations[key].sourceUrl == url {
          RegistrationKeepsSound(limits, View(), key, url);
          SetRegistration(key, url);
          return Some(key);
        }
        return None;
      }
      id := AddRegistration(key, url);
    }

    method AddRegistration(key: Id, url: string) returns (id: Option<Id>)
      requires Valid() && Unstamped(View()) && key !in registrations
      modifies this`registrations, this`entries, this`fetches, this`cacheBytes
      ensures Valid() && IsAdded(limits, old(View()), View(), key, url, id)
    {
      var room := MakeRegistryRoom();
      if !room {
        return None;
      }
      RegistrationKeepsSound(limits, View(), key, url);
      SetRegistration(key, url);
      return Some(key);
    }

    method RemoveIfExpired(id: Id, now: Instant)
      modifies this`entries, this`cacheBytes
      ensures View() == DropIfExpired(old(View()), id, now)
    {
      if id in entries && entries[id].expiresAt <= now {
        RemoveCacheEntry(id);
      }
    }

    /** Answers a fetch request; `Start` is given to one caller only, until its fetch is finished. */
    method BeginFetch(id: Id, now: Instant) returns (plan: Plan)
      requires Valid() && sequence < U64_MAX
      modifies this`registrations, this`entries, this`fetches, this`cacheBytes, this`sequence
      ensures Valid()
      ensures View() == BegunFetch(old(View()), id, now).0 && plan == BegunFetch(old(View()), id, now).1
    {
      BeginKeepsSound(limits, View(), id, now);
      var next := NextSequence();
      if id !in registrations {
        return Missing;
      }
      var url := registrations[id].sourceUrl;
      SetRegistration(id, url);
      RemoveIfExpired(id, now);
      plan := Answer(id, url, now);
    }

    method Answer(id: Id, url: string, now: Instant) returns (plan: Plan)
      modifies this`entries, this`fetches
      ensures View() == Answered(old(View()), id, url, now).0 && plan == Answered(old(View()), id, url, now).1
    {
      if id in entries {
        entries := entries[id := entries[id].(lastUsed := sequence)];
        return Ready(entries[id].resource);
      }
      ghost var before := fetches;
      if id in fetches && fetches[id].Failed? && fetches[id].expiresAt <= now {
        fetches := fetches - {id};
      }
      if id in fetches {
        match fetches[id] {
          case Pending => return StillPending;
          case Failed(message, _) => return Refused(message);
        }
      }
      fetches := fetches[id := Pending];
      assert fetches == before[id := Pending];
      return Start(url);
    }

    method FinishFetch(id: Id, error: Option<string>, now: Instant)
      requires Valid()
      modifies this`fetches
      ensures Valid() && View() == FinishedFetch(old(View()), id, error, now)
    {
      if id !in registrations {
        fetches := fetches - {id};
        return;
      }
      if error.Some? {
        fetches := fetches[id := Failed(error.value, now + FAILED_FETCH_TTL)];
      } else {
        fetches := fetches - {id};
      }
    }

    method PurgeExpired(now: Instant)
      requires Valid()
      modifies this`entries, this`cacheBytes
      ensures Valid() && entries == Unexpired(old(entries), now)
    {
      ghost var before := entries;
      var expired := set id | id in entries && entries[id].expiresAt <= now;
      while expired != {}
        invariant Valid() && IsPurging(before, now, expired, entries)
        decreases expired
      {
        var id := Pick(expired);
        PurgeOne(before, now, expired, entries, id);
        expired := expired - {id};
        DropEntry(id);
      }
      AllPurged(before, now, entries);
    }

    method DropEntry(id: Id)
      requires Valid()
      modifies this`entries, this`cacheBytes
      ensures Valid() && entries == old(entries) - {id}
      ensures UnusedInCache(old(View())) ==> UnusedInCache(View())
    {
      CacheRemovalKeepsSound(limits, View(), id);
      RemoveCacheEntry(id);
    }

    method OldestEntry() returns (oldest: Id)
      requires entries != map[]
      ensures IsOldest(entries, oldest)
    {
      oldest := Pick(entries.Keys);
      var rest := entries.Keys - {oldest};
      while rest != {}
        invariant rest <= entries.Keys && oldest in entries
        invariant forall id | id in entries :: id in rest || entries[oldest].lastUsed <= entries[id].lastUsed
        decreases rest
      {
        var id := Pick(rest);
        rest := rest - {id};
        if entries[id].lastUsed < entries[oldest].lastUsed {
          oldest := id;
        }
      }
    }

    method EvictOldest()
      requires Valid() && entries != map[]
      modifies this`entries, this`cacheBytes
      ensures Valid()
      ensures exists oldest | IsOldest(old(entries), oldest) :: entries == old(entries) - {oldest}
    {
      var oldest := OldestEntry();
      DropEntry(oldest);
    }

    method EvictUntilFits(bytes: nat)
      requires Valid() && bytes <= limits.maxBytes
      modifies this`entries, this`cacheBytes
      ensures Valid() && cacheBytes + bytes <= limits.maxBytes
      ensures IsEvicted(old(entries), bytes, limits.maxBytes, entries)
    {
      while SaturatingAdd(cacheBytes, bytes) > limits.maxBytes
        invariant Valid()
        invariant forall kept | IsEvicted(entries, bytes, limits.maxBytes, kept) ::
                    IsEvicted(old(entries), bytes, limits.maxBytes, kept)
        decreases |entries|
      {
        if entries == map[] {
          break;
        }
        ghost var before := entries;
        EvictOldest();
        ghost var oldest :| IsOldest(before, oldest) && entries == before - {oldest};
        OneEvicted(before, entries, oldest, bytes, limits.maxBytes);
      }
    }

    method MakeCacheRoom(id: Id, bytes: nat, now: Instant)
      requires Valid() && bytes <= limits.maxBytes
      modifies this`entries, this`cacheBytes
      ensures Valid() && cacheBytes + bytes <= limits.maxBytes && id !in entries
      ensures IsEvicted(Unexpired(old(entries), now) - {id}, bytes, limits.maxBytes, entries)
    {
      PurgeExpired(now);
      DropEntry(id);
      ghost var others := entries;
      assert others == Unexpired(old(entries), now) - {id};
      EvictUntilFits(bytes);
      EvictedIsSubset(others, bytes, limits.maxBytes, entries);
    }

    /**
      Caches the bytes of a registered resource: expired entries and an old copy go first, then the
      least recently used ones until the new bytes fit.
     */
    method Store(id: Id, resource: Resource, now: Instant) returns (ok: bool)
      requires Valid() && sequence < U64_MAX
      modifies this`entries, this`cacheBytes, this`sequence
      ensures Valid()
      ensures ok <==> |resource.bytes| <= limits.maxBytes && id in registrations
      ensures !ok ==> View() == old(View())
      ensures ok ==> IsStored(limits, old(View()), View(), id, resource, now)
    {
      var size := |resource.bytes|;
      if size > limits.maxBytes {
        return false;
      }
      if id !in registrations {
        return false;
      }
      MakeCacheRoom(id, size, now);
      TouchKeepsSound(limits, View());
      var next := NextSequence();
      AddEntry(id, CacheEntry(resource, now + limits.ttl, next));
      return true;
    }

    method AddEntry(id: Id, entry: CacheEntry)
      requires Valid() && UnusedInCache(View()) && id in registrations && id !in entries
      requires entry.lastUsed == sequence && cacheBytes + Size(entry) <= limits.maxBytes
      modifies this`entries, this`cacheBytes
      ensures Valid() && id in entries && entries[id] == entry && entries - {id} == old(entries)
    {
      StoreKeepsSound(limits, View(), id, entry);
      RemovedAgain(entries, id, entry);
      cacheBytes := SaturatingAdd(cacheBytes, Size(entry));
      entries := entries[id := entry];
    }
  }

  /** The new entry stands beside what eviction has left of the unexpired others. */
  ghost predicate IsStored(limits: Limits, s: State, t: State, id: Id, resource: Resource, now: Instant) {
    && t == s.(cache := t.cache, cacheBytes := t.cacheBytes, sequence := WrappingNext(s.sequence))
    && id in t.cache && t.cache[id] == CacheEntry(resource, now + limits.ttl, t.sequence)
    && t.cacheBytes == Total(t.cache)
    && IsEvicted(Unexpired(s.cache, now) - {id}, |resource.bytes|, limits.maxBytes, t.cache - {id})
  }
}
