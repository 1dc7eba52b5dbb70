/**
  The resource cache as a value: registered sources, cached bytes and outstanding fetches, with the
  limits they must respect. Every use gets the next number of one sequence, and what has the
  smallest number goes first.
 */
module ResourceState {
  import opened Common

  datatype Id = Id(text: string)

  type Instant = nat

  datatype Resource = Resource(contentType: string, bytes: seq<nat>)
  datatype Registration = Registration(sourceUrl: string, lastUsed: nat)
  datatype CacheEntry = CacheEntry(resource: Resource, expiresAt: Instant, lastUsed: nat)
  datatype Fetch = Pending | Failed(message: string, expiresAt: Instant)

  datatype Plan = Ready(resource: Resource) | Start(sourceUrl: string) | StillPending | Refused(message: string) | Missing

  datatype Limits = Limits(ttl: nat, maxBytes: nat, maxRegistrations: nat)

  type Registrations = map<Id, Registration>
  type Cache = map<Id, CacheEntry>
  type Fetches = map<Id, Fetch>

  datatype State = State(
    registrations: Registrations,
    cache: Cache,
    fetches: Fetches,
    cacheBytes: nat,
    sequence: nat)

  const USIZE_MAX: nat := 0xFFFF_FFFF_FFFF_FFFF
  const U64_MAX: nat := 0xFFFF_FFFF_FFFF_FFFF
  const FAILED_FETCH_TTL: nat := 5_000_000_000

  function Size(entry: CacheEntry): nat {
    |entry.resource.bytes|
  }

  function SaturatingAdd(a: nat, b: nat): nat {
    if a + b <= USIZE_MAX then a + b else USIZE_MAX
  }

  function SaturatingSub(a: nat, b: nat): nat {
    if a >= b then a - b else 0
  }

  function WrappingNext(sequence: nat): nat {
    if sequence >= U64_MAX then 0 else sequence + 1
  }

  // ----- The sum of the cached sizes -----

  ghost function Total(cache: Cache): nat {
    if cache == map[] then 0
    else
      var id :| id in cache;
      Size(cache[id]) + Total(cache - {id})
  }

  /** The sum does not depend on the order in which entries are counted. */
  lemma {:induction false} TotalWithout(cache: Cache, id: Id)
    requires id in cache
    ensures Total(cache) == Size(cache[id]) + Total(cache - {id})
    decreases |cache|
  {
    var first :| first in cache && Total(cache) == Size(cache[first]) + Total(cache - {first});
    if first != id {
      TotalWithout(cache - {first}, id);
      TotalWithout(cache - {id}, first);
      assert cache - {first} - {id} == cache - {id} - {first};
    }
  }

  lemma TotalWith(cache: Cache, id: Id, entry: CacheEntry)
    requires id !in cache
    ensures Total(cache[id := entry]) == Total(cache) + Size(entry)
  {
    TotalWithout(cache[id := entry], id);
    assert cache[id := entry] - {id} == cache;
  }

  lemma RemovedAgain(cache: Cache, id: Id, entry: CacheEntry)
    requires id !in cache
    ensures cache[id := entry] - {id} == cache
  {
  }

  // ----- Least recently used -----

  ghost predicate DistinctUses(cache: Cache) {
    forall a, b | a in cache && b in cache && cache[a].lastUsed == cache[b].lastUsed :: a == b
  }

  ghost predicate DistinctRegistrations(registrations: Registrations) {
    forall a, b | a in registrations && b in registrations && registrations[a].lastUsed == registrations[b].lastUsed ::
      a == b
  }

  predicate IsOldest(cache: Cache, id: Id) {
    id in cache && forall other | other in cache :: cache[id].lastUsed <= cache[other].lastUsed
  }

  function Unexpired(cache: Cache, now: Instant): Cache {
    map id | id in cache && cache[id].expiresAt > now :: cache[id]
  }

  /** What is left when the least recently used entries go until `bytes` more fit. */
  ghost predicate IsEvicted(cache: Cache, bytes: nat, maxBytes: nat, kept: Cache)
    decreases |cache|
  {
    if cache == map[] || Total(cache) + bytes <= maxBytes then kept == cache
    else exists oldest | IsOldest(cache, oldest) :: IsEvicted(cache - {oldest}, bytes, maxBytes, kept)
  }

  lemma {:induction false} EvictedIsSubset(cache: Cache, bytes: nat, maxBytes: nat, kept: Cache)
    requires IsEvicted(cache, bytes, maxBytes, kept)
    ensures forall id | id in kept :: id in cache && kept[id] == cache[id]
    decreases |cache|
  {
    if cache != map[] && Total(cache) + bytes > maxBytes {
      var oldest :| IsOldest(cache, oldest) && IsEvicted(cache - {oldest}, bytes, maxBytes, kept);
      EvictedIsSubset(cache - {oldest}, bytes, maxBytes, kept);
    }
  }

  /** The ids of the cache, least recently used first. */
  ghost predicate IsRecencyList(cache: Cache, order: seq<Id>) {
    && (forall id :: id in cache <==> id in order)
    && (forall i, j | 0 <= i < j < |order| :: order[i] in cache && order[j] in cache
          && cache[order[i]].lastUsed < cache[order[j]].lastUsed)
  }

  function Restrict(cache: Cache, order: seq<Id>): Cache {
    map id | id in cache && id in order :: cache[id]
  }

  lemma OldestIsFirst(cache: Cache, order: seq<Id>, oldest: Id)
    requires IsRecencyList(cache, order) && IsOldest(cache, oldest)
    ensures order != [] && oldest == order[0] && IsRecencyList(cache - {oldest}, order[1..])
  {
    var i :| 0 <= i < |order| && order[i] == oldest;
    assert order[0] in cache;
    forall id ensures id in cache - {oldest} <==> id in order[1..] {
      if id in cache && id != oldest {
        var k :| 0 <= k < |order| && order[k] == id;
        assert order[1..][k - 1] == id;
      }
    }
  }

  lemma RestrictTail(cache: Cache, order: seq<Id>, i: nat)
    requires IsRecencyList(cache, order) && 0 < i <= |order|
    ensures Restrict(cache - {order[0]}, order[1..][i - 1..]) == Restrict(cache, order[i..])
  {
    assert order[1..][i - 1..] == order[i..];
    assert forall k | i <= k < |order| :: order[k] != order[0];
  }

  /** No suffix of the list that starts before position `n` makes room. */
  ghost predicate TooBigBefore(cache: Cache, order: seq<Id>, n: nat, bytes: nat, maxBytes: nat)
    requires n <= |order|
  {
    forall i | 0 <= i < n :: Total(Restrict(cache, order[i..])) + bytes > maxBytes
  }

  lemma TooBigAt(cache: Cache, order: seq<Id>, n: nat, bytes: nat, maxBytes: nat, i: nat)
    requires IsRecencyList(cache, order) && 0 < i <= n < |order|
    requires TooBigBefore(cache - {order[0]}, order[1..], n, bytes, maxBytes)
    ensures Total(Restrict(cache, order[i..])) + bytes > maxBytes
  {
    RestrictTail(cache, order, i);
  }

  lemma WholeListRestricts(cache: Cache, order: seq<Id>)
    requires IsRecencyList(cache, order)
    ensures Restrict(cache, order[0..]) == cache
  {
    assert order[0..] == order;
  }

  lemma TooBigFromHead(cache: Cache, order: seq<Id>, n: nat, bytes: nat, maxBytes: nat)
    requires IsRecencyList(cache, order) && n < |order| && Total(cache) + bytes > maxBytes
    requires TooBigBefore(cache - {order[0]}, order[1..], n, bytes, maxBytes)
    ensures TooBigBefore(cache, order, n + 1, bytes, maxBytes)
  {
    forall i | 0 <= i < n + 1 ensures Total(Restrict(cache, order[i..])) + bytes > maxBytes {
      if i == 0 {
        WholeListRestricts(cache, order);
      } else {
        TooBigAt(cache, order, n, bytes, maxBytes, i);
      }
    }
  }

  /** Eviction drops the shortest least-recent prefix of the recency list that makes room. */
  lemma {:induction false} EvictionDropsShortestPrefix(
    cache: Cache, order: seq<Id>, bytes: nat, maxBytes: nat, kept: Cache) returns (n: nat)
    requires IsRecencyList(cache, order) && IsEvicted(cache, bytes, maxBytes, kept)
    ensures n <= |order| && kept == Restrict(cache, order[n..])
    ensures TooBigBefore(cache, order, n, bytes, maxBytes)
    ensures bytes <= maxBytes ==> Total(kept) + bytes <= maxBytes
    decreases |order|, 1
  {
    if cache == map[] || Total(cache) + bytes <= maxBytes {
      n := 0;
      WholeListRestricts(cache, order);
    } else {
      n := EvictOldest(cache, order, bytes, maxBytes, kept);
    }
  }

  lemma {:induction false} EvictOldest(
    cache: Cache, order: seq<Id>, bytes: nat, maxBytes: nat, kept: Cache) returns (n: nat)
    requires IsRecencyList(cache, order) && IsEvicted(cache, bytes, maxBytes, kept)
    requires cache != map[] && Total(cache) + bytes > maxBytes
    ensures 0 < n <= |order| && kept == Restrict(cache, order[n..])
    ensures TooBigBefore(cache, order, n, bytes, maxBytes)
    ensures bytes <= maxBytes ==> Total(kept) + bytes <= maxBytes
    decreases |order|, 0
  {
    var oldest :| IsOldest(cache, oldest) && IsEvicted(cache - {oldest}, bytes, maxBytes, kept);
    OldestIsFirst(cache, order, oldest);
    var m := EvictionDropsShortestPrefix(cache - {oldest}, order[1..], bytes, maxBytes, kept);
    TooBigFromHead(cache, order, m, bytes, maxBytes);
    n := m + 1;
    RestrictTail(cache, order, n);
  }

  /** Entries with different last uses can be listed by recency. */
  lemma {:induction false} RecencyListExists(cache: Cache) returns (order: seq<Id>)
    requires DistinctUses(cache)
    ensures IsRecencyList(cache, order)
    decreases |cache|
  {
    if cache == map[] {
      order := [];
    } else {
      var oldest := OldestExists(cache, cache.Keys);
      var rest := cache - {oldest};
      assert rest.Keys == cache.Keys - {oldest};
      order := RecencyListExists(rest);
      OldestInFront(cache, oldest, order);
      order := [oldest] + order;
    }
  }

  lemma {:induction false} OldestExists(cache: Cache, ids: set<Id>) returns (oldest: Id)
    requires ids != {} && ids <= cache.Keys
    ensures oldest in ids && forall id | id in ids :: cache[oldest].lastUsed <= cache[id].lastUsed
    decreases |ids|
  {
    oldest :| oldest in ids;
    if ids != {oldest} {
      var other := OldestExists(cache, ids - {oldest});
      oldest := if cache[oldest].lastUsed <= cache[other].lastUsed then oldest else other;
    }
  }

  lemma OldestInFront(cache: Cache, oldest: Id, order: seq<Id>)
    requires DistinctUses(cache) && IsOldest(cache, oldest) && IsRecencyList(cache - {oldest}, order)
    ensures IsRecencyList(cache, [oldest] + order)
  {
    var all := [oldest] + order;
    forall id ensures id in cache <==> id in all {
      assert id in cache - {oldest} <==> id in order;
    }
    forall i, j | 0 <= i < j < |all|
      ensures all[i] in cache && all[j] in cache && cache[all[i]].lastUsed < cache[all[j]].lastUsed
    {
      assert all[j] == order[j - 1] && all[j] in cache - {oldest};
      assert i > 0 ==> all[i] == order[i - 1];
    }
  }
}
