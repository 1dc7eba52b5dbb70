/**
  Runs of the resource manager: any sequence of its operations by any callers, as long as the
  64-bit sequence has not run out.
 */
module ResourceRuns {
  import opened Common
  import opened ResourceState
  import opened ResourceManager
  import Text

  datatype Op =
    | Register(source: string)
    | Begin(id: Id, now: Instant)
    | Finish(id: Id, error: Option<string>, now: Instant)
    | Store(id: Id, resource: Resource, now: Instant)

  datatype Answer = Registered(id: Option<Id>) | Planned(plan: Plan) | Finished | Stored(ok: bool)

  /** One operation, as the methods of the manager carry it out. */
  ghost predicate IsStep(limits: Limits, idOf: IdOf, s: State, op: Op, answer: Answer, t: State) {
    && s.sequence < U64_MAX
    && match op
       case Register(source) =>
         && answer.Registered?
         && IsRegistered(limits, s, t, idOf(Text.Trim(source)), Text.Trim(source), answer.id)
       case Begin(id, now) => answer == Planned(BegunFetch(s, id, now).1) && t == BegunFetch(s, id, now).0
       case Finish(id, error, now) => answer == Finished && t == FinishedFetch(s, id, error, now)
       case Store(id, resource, now) =>
         if |resource.bytes| <= limits.maxBytes && id in s.registrations
         then answer == Stored(true) && IsStored(limits, s, t, id, resource, now)
         else answer == Stored(false) && t == s
  }

  datatype Trace = Trace(states: seq<State>, ops: seq<Op>, answers: seq<Answer>)

  /** A run from an empty manager. */
  ghost predicate IsRun(limits: Limits, idOf: IdOf, run: Trace) {
    && 2 * limits.maxBytes <= USIZE_MAX
    && |run.answers| == |run.ops| && |run.states| == |run.ops| + 1
    && run.states[0] == State(map[], map[], map[], 0, 0)
    && forall i | 0 <= i < |run.ops| :: StepHolds(limits, idOf, run, i)
  }

  ghost predicate StepHolds(limits: Limits, idOf: IdOf, run: Trace, i: nat) {
    && i < |run.ops| && |run.answers| == |run.ops| && |run.states| == |run.ops| + 1
    && IsStep(limits, idOf, run.states[i], run.ops[i], run.answers[i], run.states[i + 1])
  }

  lemma StepAt(limits: Limits, idOf: IdOf, run: Trace, i: nat)
    requires IsRun(limits, idOf, run) && i < |run.ops|
    ensures IsStep(limits, idOf, run.states[i], run.ops[i], run.answers[i], run.states[i + 1])
  {
    assert StepHolds(limits, idOf, run, i);
  }

  // ----- Safety -----

  lemma AdditionKeepsSound(limits: Limits, s: State, t: State, key: Id, url: string, id: Option<Id>)
    requires Sound(limits, s) && Unstamped(s) && key !in s.registrations && limits.maxRegistrations > 0
    requires IsAdded(limits, s, t, key, url, id)
    ensures Sound(limits, t)
  {
    if |s.registrations| < limits.maxRegistrations {
      RegistrationKeepsSound(limits, s, key, url);
    } else if id.Some? {
      var victim :| IsVictim(s, victim) && t == WithRegistration(WithoutId(s, victim), key, url);
      RemovalKeepsSound(limits, s, victim);
      EvictionShrinks(s, victim);
      RegistrationKeepsSound(limits, WithoutId(s, victim), key, url);
    }
  }

  lemma RegisteringKeepsSound(limits: Limits, s: State, t: State, key: Id, url: string, id: Option<Id>)
    requires Sound(limits, s) && s.sequence < U64_MAX && IsRegistered(limits, s, t, key, url, id)
    ensures Sound(limits, t)
  {
    TouchKeepsSound(limits, s);
    if url != [] && limits.maxRegistrations > 0 {
      if key in s.registrations {
        RegistrationKeepsSound(limits, Touched(s), key, url);
      } else {
        AdditionKeepsSound(limits, Touched(s), t, key, url, id);
      }
    }
  }

  lemma StoringKeepsSound(limits: Limits, s: State, t: State, id: Id, resource: Resource, now: Instant)
    requires Sound(limits, s) && s.sequence < U64_MAX && id in s.registrations && |resource.bytes| <= limits.maxBytes
    requires IsStored(limits, s, t, id, resource, now)
    ensures Sound(limits, t)
  {
    var others := Unexpired(s.cache, now) - {id};
    EvictedIsSubset(others, |resource.bytes|, limits.maxBytes, t.cache - {id});
    TotalWithout(t.cache, id);
    EvictionFits(others, |resource.bytes|, limits.maxBytes, t.cache - {id});
    assert forall other | other in t.cache && other != id :: other in t.cache - {id};
    StoredIsStamped(s, t, id);
  }

  lemma StoredIsStamped(s: State, t: State, id: Id)
    requires Stamped(s) && s.sequence < U64_MAX && id in t.cache
    requires t.registrations == s.registrations && t.sequence == s.sequence + 1 == t.cache[id].lastUsed
    requires forall other | other in t.cache && other != id :: other in s.cache && t.cache[other] == s.cache[other]
    ensures Stamped(t)
  {
  }

  lemma {:induction false} EvictionFits(cache: Cache, bytes: nat, maxBytes: nat, kept: Cache)
    requires IsEvicted(cache, bytes, maxBytes, kept) && bytes <= maxBytes
    ensures Total(kept) + bytes <= maxBytes
    decreases |cache|
  {
    if cache != map[] && Total(cache) + bytes > maxBytes {
      var oldest :| IsOldest(cache, oldest) && IsEvicted(cache - {oldest}, bytes, maxBytes, kept);
      EvictionFits(cache - {oldest}, bytes, maxBytes, kept);
    }
  }

  lemma FinishKeepsSound(limits: Limits, s: State, id: Id, error: Option<string>, now: Instant)
    requires Sound(limits, s)
    ensures Sound(limits, FinishedFetch(s, id, error, now))
  {
  }

  lemma StepKeepsSound(limits: Limits, idOf: IdOf, s: State, op: Op, answer: Answer, t: State)
    requires Sound(limits, s) && IsStep(limits, idOf, s, op, answer, t)
    ensures Sound(limits, t)
  {
    match op
    case Register(source) =>
      RegisteringKeepsSound(limits, s, t, idOf(Text.Trim(source)), Text.Trim(source), answer.id);
    case Begin(id, now) => BeginKeepsSound(limits, s, id, now);
    case Finish(id, error, now) => FinishKeepsSound(limits, s, id, error, now);
    case Store(id, resource, now) =>
      if answer.ok {
        StoringKeepsSound(limits, s, t, id, resource, now);
      }
  }

  /**
    In every state of every run the byte count is the sum of the cached sizes and within the limit,
    everything cached or fetched is registered, the registry is within its limit, and the uses are
    stamped with different numbers.
   */
  lemma {:induction false} EveryStateIsSound(limits: Limits, idOf: IdOf, run: Trace, i: nat)
    requires IsRun(limits, idOf, run) && i < |run.states|
    ensures Sound(limits, run.states[i])
  {
    if i > 0 {
      EveryStateIsSound(limits, idOf, run, i - 1);
      StepAt(limits, idOf, run, i - 1);
      StepKeepsSound(limits, idOf, run.states[i - 1], run.ops[i - 1], run.answers[i - 1], run.states[i]);
    }
  }

  // ----- One fetch at a time -----

  /** A fetch for `id` from `url` is outstanding and its registration is there. */
  predicate IsPinned(s: State, id: Id, url: string) {
    IsPending(s, id) && id in s.registrations && s.registrations[id].sourceUrl == url
  }

  predicate TellsToStart(answer: Answer) {
    answer.Planned? && answer.plan.Start?
  }

  lemma AdditionKeepsPinned(limits: Limits, s: State, t: State, key: Id, source: string, added: Option<Id>, id: Id, url: string)
    requires IsAdded(limits, s, t, key, source, added) && key !in s.registrations && IsPinned(s, id, url)
    ensures IsPinned(t, id, url)
  {
  }

  lemma RegisterKeepsPinned(limits: Limits, s: State, t: State, key: Id, source: string, added: Option<Id>, id: Id, url: string)
    requires IsRegistered(limits, s, t, key, source, added) && IsPinned(s, id, url)
    ensures IsPinned(t, id, url)
  {
    if source != [] && limits.maxRegistrations > 0 && key !in s.registrations {
      AdditionKeepsPinned(limits, Touched(s), t, key, source, added, id, url);
    }
  }

  lemma BeginKeepsPinned(s: State, fetched: Id, now: Instant, id: Id, url: string)
    requires IsPinned(s, id, url)
    ensures IsPinned(BegunFetch(s, fetched, now).0, id, url)
    ensures fetched == id ==> !BegunFetch(s, fetched, now).1.Start?
  {
  }

  lemma StepKeepsPinned(limits: Limits, idOf: IdOf, s: State, op: Op, answer: Answer, t: State, id: Id, url: string)
    requires IsStep(limits, idOf, s, op, answer, t) && IsPinned(s, id, url)
    requires !(op.Finish? && op.id == id)
    ensures IsPinned(t, id, url)
    ensures op.Begin? && op.id == id ==> !TellsToStart(answer)
  {
    match op
    case Register(source) =>
      RegisterKeepsPinned(limits, s, t, idOf(Text.Trim(source)), Text.Trim(source), answer.id, id, url);
    case Begin(fetched, now) => BeginKeepsPinned(s, fetched, now, id, url);
    case _ =>
  }

  /**
    From the moment a caller is told to start a fetch until that fetch is reported finished, the
    registration keeps its place and its source, and nobody else is told to start it.
   */
  lemma {:induction false} OneFetchAtATime(limits: Limits, idOf: IdOf, run: Trace, i: nat, j: nat, url: string)
    requires IsRun(limits, idOf, run) && i < j <= |run.ops|
    requires run.ops[i].Begin? && run.answers[i] == Planned(Start(url))
    requires forall k | i < k < j :: !(run.ops[k].Finish? && run.ops[k].id == run.ops[i].id)
    ensures IsPinned(run.states[j], run.ops[i].id, url)
    ensures forall k | i < k < j && run.ops[k].Begin? && run.ops[k].id == run.ops[i].id ::
              !TellsToStart(run.answers[k])
    decreases j
  {
    var id := run.ops[i].id;
    StepAt(limits, idOf, run, j - 1);
    if j > i + 1 {
      OneFetchAtATime(limits, idOf, run, i, j - 1, url);
      StepKeepsPinned(limits, idOf, run.states[j - 1], run.ops[j - 1], run.answers[j - 1], run.states[j], id, url);
    }
  }

  // ----- What is served was stored -----

  predicate IsStoreOf(run: Trace, k: nat, id: Id)
    requires k < |run.ops| && |run.answers| == |run.ops|
  {
    run.ops[k].Store? && run.ops[k].id == id && run.answers[k] == Stored(true)
  }

  ghost predicate SameEntry(s: State, t: State, id: Id) {
    id in t.cache ==> id in s.cache && t.cache[id].(lastUsed := 0) == s.cache[id].(lastUsed := 0)
  }

  lemma BeginKeepsEntries(s: State, fetched: Id, now: Instant, id: Id)
    ensures SameEntry(s, BegunFetch(s, fetched, now).0, id)
  {
  }

  lemma RegisterKeepsEntries(limits: Limits, s: State, t: State, key: Id, source: string, added: Option<Id>, id: Id)
    requires IsRegistered(limits, s, t, key, source, added)
    ensures SameEntry(s, t, id)
  {
  }

  lemma StoreKeepsEntries(limits: Limits, s: State, t: State, stored: Id, resource: Resource, now: Instant, id: Id)
    requires IsStored(limits, s, t, stored, resource, now) && id != stored
    ensures SameEntry(s, t, id)
  {
    if id in t.cache {
      EvictedIsSubset(Unexpired(s.cache, now) - {stored}, |resource.bytes|, limits.maxBytes, t.cache - {stored});
      assert id in t.cache - {stored};
    }
  }

  /** Only storing under an identifier gives it an entry or changes what the entry holds. */
  lemma StepKeepsEntries(limits: Limits, idOf: IdOf, s: State, op: Op, answer: Answer, t: State, id: Id)
    requires IsStep(limits, idOf, s, op, answer, t)
    ensures if op.Store? && op.id == id && answer == Stored(true)
            then id in t.cache && t.cache[id].(lastUsed := 0) == CacheEntry(op.resource, op.now + limits.ttl, 0)
            else SameEntry(s, t, id)
  {
    match op
    case Register(source) =>
      RegisterKeepsEntries(limits, s, t, idOf(Text.Trim(source)), Text.Trim(source), answer.id, id);
    case Begin(fetched, now) => BeginKeepsEntries(s, fetched, now, id);
    case Finish(_, _, _) =>
    case Store(stored, resource, now) =>
      if answer.ok && stored != id {
        StoreKeepsEntries(limits, s, t, stored, resource, now, id);
      }
  }

  lemma EntryStep(limits: Limits, idOf: IdOf, run: Trace, i: nat, id: Id)
    requires IsRun(limits, idOf, run) && i < |run.ops|
    ensures if IsStoreOf(run, i, id)
            then id in run.states[i + 1].cache && run.states[i + 1].cache[id].(lastUsed := 0) ==
                   CacheEntry(run.ops[i].resource, run.ops[i].now + limits.ttl, 0)
            else SameEntry(run.states[i], run.states[i + 1], id)
  {
    StepAt(limits, idOf, run, i);
    StepKeepsEntries(limits, idOf, run.states[i], run.ops[i], run.answers[i], run.states[i + 1], id);
  }

  lemma {:induction false} EntryWasStored(limits: Limits, idOf: IdOf, run: Trace, i: nat, id: Id) returns (k: nat)
    requires IsRun(limits, idOf, run) && i < |run.states| && id in run.states[i].cache
    ensures k < i && IsStoreOf(run, k, id)
    ensures run.states[i].cache[id].(lastUsed := 0) == CacheEntry(run.ops[k].resource, run.ops[k].now + limits.ttl, 0)
    ensures forall m | k < m < i :: !IsStoreOf(run, m, id)
    decreases i
  {
    assert run.states[0].cache == map[];
    EntryStep(limits, idOf, run, i - 1, id);
    if IsStoreOf(run, i - 1, id) {
      k := i - 1;
    } else {
      k := EntryWasStored(limits, idOf, run, i - 1, id);
    }
  }

  lemma ReadyIsCached(s: State, id: Id, now: Instant)
    requires BegunFetch(s, id, now).1.Ready?
    ensures id in s.cache && s.cache[id].expiresAt > now && BegunFetch(s, id, now).1.resource == s.cache[id].resource
  {
  }

  /** A ready answer serves the bytes stored last under that identifier, less than the TTL ago. */
  lemma ReadyServesLastStore(limits: Limits, idOf: IdOf, run: Trace, i: nat) returns (k: nat)
    requires IsRun(limits, idOf, run) && i < |run.ops|
    requires run.ops[i].Begin? && run.answers[i].Planned? && run.answers[i].plan.Ready?
    ensures k < i && IsStoreOf(run, k, run.ops[i].id)
    ensures run.answers[i].plan.resource == run.ops[k].resource
    ensures run.ops[i].now < run.ops[k].now + limits.ttl
    ensures forall m | k < m < i :: !IsStoreOf(run, m, run.ops[i].id)
  {
    StepAt(limits, idOf, run, i);
    ReadyIsCached(run.states[i], run.ops[i].id, run.ops[i].now);
    k := EntryWasStored(limits, idOf, run, i, run.ops[i].id);
  }

  // ----- What an accepted store evicts -----

  /**
    Every accepted store of a run evicts the shortest prefix of its candidates, the unexpired other
    entries from the least to the most recently used, that makes room for the new bytes.
   */
  lemma StoreEvictsShortestPrefix(limits: Limits, idOf: IdOf, run: Trace, i: nat) returns (order: seq<Id>, n: nat)
    requires IsRun(limits, idOf, run) && i < |run.ops| && run.ops[i].Store? && run.answers[i] == Stored(true)
    ensures var op := run.ops[i];
            var others := Unexpired(run.states[i].cache, op.now) - {op.id};
            && IsRecencyList(others, order) && n <= |order|
            && run.states[i + 1].cache - {op.id} == Restrict(others, order[n..])
            && TooBigBefore(others, order, n, |op.resource.bytes|, limits.maxBytes)
            && Total(Restrict(others, order[n..])) + |op.resource.bytes| <= limits.maxBytes
  {
    var op := run.ops[i];
    StepAt(limits, idOf, run, i);
    EveryStateIsSound(limits, idOf, run, i);
    var others := Unexpired(run.states[i].cache, op.now) - {op.id};
    order := RecencyListExists(others);
    n := EvictionDropsShortestPrefix(others, order, |op.resource.bytes|, limits.maxBytes, run.states[i + 1].cache - {op.id});
  }
}
