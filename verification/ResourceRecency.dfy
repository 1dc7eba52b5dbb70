/**
  What the stamps of the resource manager mean over a run: the entry used last has the greatest
  number, so eviction follows the order of events. And what each fetch request is answered.
 */
module ResourceRecency {
  import opened Common
  import opened ResourceState
  import opened ResourceManager
  import opened ResourceRuns
  import Text

  // ----- Uses of a cached entry -----

  /** The operation stored the entry or served it. */
  predicate IsUse(op: Op, answer: Answer, id: Id) {
    || (op.Store? && op.id == id && answer == Stored(true))
    || (op.Begin? && op.id == id && answer.Planned? && answer.plan.Ready?)
  }

  /** The last operation before `i` that used the entry, or -1. */
  function LastUse(run: Trace, i: nat, id: Id): (k: int)
    requires i <= |run.ops| == |run.answers|
    ensures -1 <= k < i && (k >= 0 ==> IsUse(run.ops[k], run.answers[k], id))
  {
    if i == 0 then -1
    else if IsUse(run.ops[i - 1], run.answers[i - 1], id) then i - 1
    else LastUse(run, i - 1, id)
  }

  lemma RegisterSequence(limits: Limits, s: State, t: State, key: Id, url: string, id: Option<Id>)
    requires IsRegistered(limits, s, t, key, url, id) && s.sequence < U64_MAX
    ensures s.sequence <= t.sequence && (id.Some? ==> t.sequence == s.sequence + 1)
  {
  }

  lemma BeginSequence(s: State, id: Id, now: Instant)
    requires s.sequence < U64_MAX
    ensures BegunFetch(s, id, now).0.sequence == s.sequence + 1
  {
  }

  lemma StepSequence(limits: Limits, idOf: IdOf, s: State, op: Op, answer: Answer, t: State)
    requires IsStep(limits, idOf, s, op, answer, t)
    ensures s.sequence <= t.sequence
    ensures op.Begin? || answer == Stored(true) || (answer.Registered? && answer.id.Some?) ==> t.sequence == s.sequence + 1
  {
    match op
    case Register(source) =>
      RegisterSequence(limits, s, t, idOf(Text.Trim(source)), Text.Trim(source), answer.id);
    case Begin(id, now) => BeginSequence(s, id, now);
    case Finish(_, _, _) =>
    case Store(_, _, _) =>
  }

  lemma {:induction false} SequenceGrows(limits: Limits, idOf: IdOf, run: Trace, i: nat, j: nat)
    requires IsRun(limits, idOf, run) && i <= j <= |run.ops|
    ensures run.states[i].sequence <= run.states[j].sequence
    decreases j
  {
    if i < j {
      SequenceGrows(limits, idOf, run, i, j - 1);
      StepAt(limits, idOf, run, j - 1);
      StepSequence(limits, idOf, run.states[j - 1], run.ops[j - 1], run.answers[j - 1], run.states[j]);
    }
  }

  lemma BeginStamp(s: State, fetched: Id, now: Instant, id: Id)
    requires id in BegunFetch(s, fetched, now).0.cache
    ensures var t := BegunFetch(s, fetched, now).0;
            if fetched == id && BegunFetch(s, fetched, now).1.Ready? then t.cache[id].lastUsed == t.sequence
            else id in s.cache && t.cache[id].lastUsed == s.cache[id].lastUsed
  {
  }

  lemma RegisterStamp(limits: Limits, s: State, t: State, key: Id, url: string, added: Option<Id>, id: Id)
    requires IsRegistered(limits, s, t, key, url, added) && id in t.cache
    ensures id in s.cache && t.cache[id].lastUsed == s.cache[id].lastUsed
  {
  }

  lemma StoreStamp(limits: Limits, s: State, t: State, stored: Id, resource: Resource, now: Instant, id: Id)
    requires IsStored(limits, s, t, stored, resource, now) && id in t.cache
    ensures if id == stored then t.cache[id].lastUsed == t.sequence
            else id in s.cache && t.cache[id].lastUsed == s.cache[id].lastUsed
  {
    if id != stored {
      EvictedIsSubset(Unexpired(s.cache, now) - {stored}, |resource.bytes|, limits.maxBytes, t.cache - {stored});
      assert id in t.cache - {stored};
    }
  }

  /** A use gives its entry the newest number; nothing else changes the number of an entry. */
  lemma StepStamp(limits: Limits, idOf: IdOf, s: State, op: Op, answer: Answer, t: State, id: Id)
    requires IsStep(limits, idOf, s, op, answer, t) && id in t.cache
    ensures if IsUse(op, answer, id) then t.cache[id].lastUsed == t.sequence
            else id in s.cache && t.cache[id].lastUsed == s.cache[id].lastUsed
  {
    match op
    case Register(source) =>
      RegisterStamp(limits, s, t, idOf(Text.Trim(source)), Text.Trim(source), answer.id, id);
    case Begin(fetched, now) => BeginStamp(s, fetched, now, id);
    case Finish(_, _, _) =>
    case Store(stored, resource, now) =>
      if answer.ok {
        StoreStamp(limits, s, t, stored, resource, now, id);
      }
  }

  lemma {:induction false} EntryHasLastUse(limits: Limits, idOf: IdOf, run: Trace, i: nat, id: Id)
    requires IsRun(limits, idOf, run) && i <= |run.ops| && id in run.states[i].cache
    ensures LastUse(run, i, id) >= 0
    ensures run.states[i].cache[id].lastUsed == run.states[LastUse(run, i, id) + 1].sequence
    decreases i
  {
    assert run.states[0].cache == map[];
    StepAt(limits, idOf, run, i - 1);
    StepStamp(limits, idOf, run.states[i - 1], run.ops[i - 1], run.answers[i - 1], run.states[i], id);
    if !IsUse(run.ops[i - 1], run.answers[i - 1], id) {
      EntryHasLastUse(limits, idOf, run, i - 1, id);
    }
  }

  lemma LaterEventHasGreaterNumber(limits: Limits, idOf: IdOf, run: Trace, k: nat, j: nat)
    requires IsRun(limits, idOf, run) && k < j < |run.ops|
    requires var answer := run.answers[j];
             run.ops[j].Begin? || answer == Stored(true) || (answer.Registered? && answer.id.Some?)
    ensures run.states[k + 1].sequence < run.states[j + 1].sequence
  {
    SequenceGrows(limits, idOf, run, k + 1, j);
    StepAt(limits, idOf, run, j);
    StepSequence(limits, idOf, run.states[j], run.ops[j], run.answers[j], run.states[j + 1]);
  }

  /** In every state of every run the cached entries are numbered in the order of their last uses. */
  lemma RecencyIsOrderOfUse(limits: Limits, idOf: IdOf, run: Trace, i: nat, a: Id, b: Id)
    requires IsRun(limits, idOf, run) && i <= |run.ops|
    requires a in run.states[i].cache && b in run.states[i].cache && a != b
    ensures run.states[i].cache[a].lastUsed < run.states[i].cache[b].lastUsed <==> LastUse(run, i, a) < LastUse(run, i, b)
  {
    EntryHasLastUse(limits, idOf, run, i, a);
    EntryHasLastUse(limits, idOf, run, i, b);
    var k, j := LastUse(run, i, a), LastUse(run, i, b);
    if k < j {
      LaterEventHasGreaterNumber(limits, idOf, run, k, j);
    } else if j < k {
      LaterEventHasGreaterNumber(limits, idOf, run, j, k);
    }
  }

  /** After an accepted store and after a ready answer the entry is the most recently used one. */
  lemma UsedIsMostRecent(limits: Limits, idOf: IdOf, run: Trace, i: nat, id: Id, other: Id)
    requires IsRun(limits, idOf, run) && i < |run.ops| && IsUse(run.ops[i], run.answers[i], id)
    requires other in run.states[i + 1].cache && other != id
    ensures id in run.states[i + 1].cache
    ensures run.states[i + 1].cache[other].lastUsed < run.states[i + 1].cache[id].lastUsed
  {
    StepAt(limits, idOf, run, i);
    UsedIsCached(limits, idOf, run.states[i], run.ops[i], run.answers[i], run.states[i + 1], id);
    RecencyIsOrderOfUse(limits, idOf, run, i + 1, other, id);
  }

  lemma UsedIsCached(limits: Limits, idOf: IdOf, s: State, op: Op, answer: Answer, t: State, id: Id)
    requires IsStep(limits, idOf, s, op, answer, t) && IsUse(op, answer, id)
    ensures id in t.cache
  {
  }

  /**
    Every accepted store evicts in the order of the trace: the unexpired other entries stand by their
    last store or ready answer, and the shortest prefix of that list that makes room goes.
   */
  lemma StoreEvictsLeastRecentlyUsed(limits: Limits, idOf: IdOf, run: Trace, i: nat) returns (order: seq<Id>, n: nat)
    requires IsRun(limits, idOf, run) && i < |run.ops| && run.ops[i].Store? && run.answers[i] == Stored(true)
    ensures var op := run.ops[i];
            var others := Unexpired(run.states[i].cache, op.now) - {op.id};
            && (forall id :: id in others <==> id in order)
            && (forall id :: id in order <==>
                  id in run.states[i].cache && id != op.id && run.states[i].cache[id].expiresAt > op.now)
            && (forall p, q | 0 <= p < q < |order| :: LastUse(run, i, order[p]) < LastUse(run, i, order[q]))
            && n <= |order| && run.states[i + 1].cache - {op.id} == Restrict(others, order[n..])
            && TooBigBefore(others, order, n, |op.resource.bytes|, limits.maxBytes)
            && Total(Restrict(others, order[n..])) + |op.resource.bytes| <= limits.maxBytes
  {
    var op := run.ops[i];
    var others := Unexpired(run.states[i].cache, op.now) - {op.id};
    order, n := StoreEvictsShortestPrefix(limits, idOf, run, i);
    forall p, q | 0 <= p < q < |order| ensures LastUse(run, i, order[p]) < LastUse(run, i, order[q]) {
      assert order[p] in others && order[q] in others && others[order[p]].lastUsed < others[order[q]].lastUsed;
      RecencyIsOrderOfUse(limits, idOf, run, i, order[p], order[q]);
    }
  }

  // ----- Uses of a registration -----

  /** The operation registered the source, again or for the first time, or asked for it. */
  predicate IsTouch(op: Op, answer: Answer, id: Id) {
    || (op.Register? && answer == Registered(Some(id)))
    || (op.Begin? && op.id == id && answer.Planned? && !answer.plan.Missing?)
  }

  function LastTouch(run: Trace, i: nat, id: Id): (k: int)
    requires i <= |run.ops| == |run.answers|
    ensures -1 <= k < i && (k >= 0 ==> IsTouch(run.ops[k], run.answers[k], id))
  {
    if i == 0 then -1
    else if IsTouch(run.ops[i - 1], run.answers[i - 1], id) then i - 1
    else LastTouch(run, i - 1, id)
  }

  lemma BeginTouch(s: State, fetched: Id, now: Instant, id: Id)
    requires id in BegunFetch(s, fetched, now).0.registrations
    ensures var t := BegunFetch(s, fetched, now).0;
            && id in s.registrations
            && (fetched == id ==> !BegunFetch(s, fetched, now).1.Missing?)
            && t.registrations[id].lastUsed == if fetched == id then t.sequence else s.registrations[id].lastUsed
  {
  }

  lemma RegisterTouch(limits: Limits, s: State, t: State, key: Id, url: string, added: Option<Id>, id: Id)
    requires IsRegistered(limits, s, t, key, url, added) && id in t.registrations
    ensures if added == Some(id) then t.registrations[id].lastUsed == t.sequence
            else id in s.registrations && t.registrations[id].lastUsed == s.registrations[id].lastUsed
  {
  }

  lemma StepTouch(limits: Limits, idOf: IdOf, s: State, op: Op, answer: Answer, t: State, id: Id)
    requires IsStep(limits, idOf, s, op, answer, t) && id in t.registrations
    ensures if IsTouch(op, answer, id) then t.registrations[id].lastUsed == t.sequence
            else id in s.registrations && t.registrations[id].lastUsed == s.registrations[id].lastUsed
  {
    match op
    case Register(source) =>
      RegisterTouch(limits, s, t, idOf(Text.Trim(source)), Text.Trim(source), answer.id, id);
    case Begin(fetched, now) => BeginTouch(s, fetched, now, id);
    case Finish(_, _, _) =>
    case Store(_, _, _) =>
  }

  lemma {:induction false} RegistrationHasLastTouch(limits: Limits, idOf: IdOf, run: Trace, i: nat, id: Id)
    requires IsRun(limits, idOf, run) && i <= |run.ops| && id in run.states[i].registrations
    ensures LastTouch(run, i, id) >= 0
    ensures run.states[i].registrations[id].lastUsed == run.states[LastTouch(run, i, id) + 1].sequence
    decreases i
  {
    assert run.states[0].registrations == map[];
    StepAt(limits, idOf, run, i - 1);
    StepTouch(limits, idOf, run.states[i - 1], run.ops[i - 1], run.answers[i - 1], run.states[i], id);
    if !IsTouch(run.ops[i - 1], run.answers[i - 1], id) {
      RegistrationHasLastTouch(limits, idOf, run, i - 1, id);
    }
  }

  /** And the registrations in the order in which they were last registered or asked for. */
  lemma RegistryIsOrderOfTouch(limits: Limits, idOf: IdOf, run: Trace, i: nat, a: Id, b: Id)
    requires IsRun(limits, idOf, run) && i <= |run.ops|
    requires a in run.states[i].registrations && b in run.states[i].registrations && a != b
    ensures run.states[i].registrations[a].lastUsed < run.states[i].registrations[b].lastUsed
            <==> LastTouch(run, i, a) < LastTouch(run, i, b)
  {
    RegistrationHasLastTouch(limits, idOf, run, i, a);
    RegistrationHasLastTouch(limits, idOf, run, i, b);
    var k, j := LastTouch(run, i, a), LastTouch(run, i, b);
    if k < j {
      LaterEventHasGreaterNumber(limits, idOf, run, k, j);
    } else if j < k {
      LaterEventHasGreaterNumber(limits, idOf, run, j, k);
    }
  }

  lemma DroppedIsVictim(limits: Limits, s: State, t: State, key: Id, url: string, id: Option<Id>, dropped: Id)
    requires IsRegistered(limits, s, t, key, url, id) && dropped in s.registrations && dropped !in t.registrations
    ensures IsVictim(Touched(s), dropped)
  {
  }

  /** A registration leaves only as the least recently touched one of those without an outstanding fetch. */
  lemma OnlyTheOldestIsDropped(limits: Limits, idOf: IdOf, run: Trace, i: nat, dropped: Id, other: Id)
    requires IsRun(limits, idOf, run) && i < |run.ops|
    requires dropped in run.states[i].registrations && dropped !in run.states[i + 1].registrations
    requires other in run.states[i].registrations && other != dropped && !IsPending(run.states[i], other)
    ensures !IsPending(run.states[i], dropped) && LastTouch(run, i, dropped) < LastTouch(run, i, other)
  {
    var s, op := run.states[i], run.ops[i];
    StepAt(limits, idOf, run, i);
    OnlyRegisterDrops(limits, idOf, s, op, run.answers[i], run.states[i + 1], dropped);
    DroppedIsVictim(limits, s, run.states[i + 1], idOf(Text.Trim(op.source)), Text.Trim(op.source), run.answers[i].id, dropped);
    EveryStateIsSound(limits, idOf, run, i);
    assert !IsPending(Touched(s), other);
    assert s.registrations[dropped].lastUsed != s.registrations[other].lastUsed;
    RegistryIsOrderOfTouch(limits, idOf, run, i, dropped, other);
  }

  lemma OnlyRegisterDrops(limits: Limits, idOf: IdOf, s: State, op: Op, answer: Answer, t: State, dropped: Id)
    requires IsStep(limits, idOf, s, op, answer, t) && dropped in s.registrations && dropped !in t.registrations
    ensures op.Register?
  {
  }

  /**
    Registering succeeds for a source that is not blank, unless its identifier stands for another
    source or every place is taken by an outstanding fetch; then the source is there.
   */
  lemma RegisterSucceedsExactlyWhen(limits: Limits, idOf: IdOf, run: Trace, i: nat)
    requires IsRun(limits, idOf, run) && i < |run.ops| && run.ops[i].Register?
    ensures var s, t, url, answer := run.states[i], run.states[i + 1], Text.Trim(run.ops[i].source), run.answers[i];
            var id := idOf(url);
            && answer.Registered?
            && (answer.id.Some? <==>
                  && url != [] && limits.maxRegistrations > 0
                  && if id in s.registrations then s.registrations[id].sourceUrl == url
                     else |s.registrations| < limits.maxRegistrations
                          || exists other | other in s.registrations :: !IsPending(s, other))
            && (answer.id.Some? ==> answer.id == Some(id) && id in t.registrations && t.registrations[id].sourceUrl == url)
  {
    var s, t, url := run.states[i], run.states[i + 1], Text.Trim(run.ops[i].source);
    StepAt(limits, idOf, run, i);
    RegisterAnswer(limits, s, t, idOf(url), url, run.answers[i].id);
  }

  lemma RegisterAnswer(limits: Limits, s: State, t: State, key: Id, url: string, id: Option<Id>)
    requires IsRegistered(limits, s, t, key, url, id)
    ensures id.Some? <==>
            && url != [] && limits.maxRegistrations > 0
            && if key in s.registrations then s.registrations[key].sourceUrl == url
               else |s.registrations| < limits.maxRegistrations || exists other | other in s.registrations :: !IsPending(s, other)
    ensures id.Some? ==> id == Some(key) && key in t.registrations && t.registrations[key].sourceUrl == url
  {
    assert forall other | other in s.registrations :: IsPending(Touched(s), other) == IsPending(s, other);
  }

  // ----- What a fetch request is answered -----

  /** The bytes are there and have not expired. */
  predicate IsFresh(s: State, id: Id, now: Instant) {
    id in s.cache && s.cache[id].expiresAt > now
  }

  /** Which answer is given, for every state. */
  lemma BeginAnswers(s: State, id: Id, now: Instant, message: string)
    ensures var plan := BegunFetch(s, id, now).1;
            && (plan == Missing <==> id !in s.registrations)
            && (plan.Ready? <==> id in s.registrations && IsFresh(s, id, now))
            && (plan.Ready? ==> plan == Ready(s.cache[id].resource))
            && (plan == StillPending <==> id in s.registrations && !IsFresh(s, id, now) && IsPending(s, id))
            && (plan == Refused(message) <==>
                  && id in s.registrations && !IsFresh(s, id, now)
                  && id in s.fetches && s.fetches[id].Failed?
                  && s.fetches[id].message == message && s.fetches[id].expiresAt > now)
            && (plan.Start? ==> id in s.registrations && plan == Start(s.registrations[id].sourceUrl))
  {
  }

  /** A registered source whose last store is not expired is served while its entry is cached, and only then. */
  lemma CachedIsServed(limits: Limits, idOf: IdOf, run: Trace, i: nat, k: nat)
    requires IsRun(limits, idOf, run) && i < |run.ops| && run.ops[i].Begin? && run.ops[i].id in run.states[i].cache
    requires k < i && IsStoreOf(run, k, run.ops[i].id)
    requires forall m | k < m < i :: !IsStoreOf(run, m, run.ops[i].id)
    ensures run.ops[i].now < run.ops[k].now + limits.ttl ==> run.answers[i] == Planned(Ready(run.ops[k].resource))
    ensures run.ops[i].now >= run.ops[k].now + limits.ttl ==> run.answers[i].Planned? && !run.answers[i].plan.Ready?
  {
    var id := run.ops[i].id;
    StepAt(limits, idOf, run, i);
    EveryStateIsSound(limits, idOf, run, i);
    var j := EntryWasStored(limits, idOf, run, i, id);
    assert j == k;
    BeginAnswers(run.states[i], id, run.ops[i].now, "");
  }

  // ----- A failed fetch -----

  /** The failure is remembered until the given instant. */
  predicate Remembers(s: State, id: Id, message: string, until: Instant) {
    id in s.registrations && id in s.fetches && s.fetches[id] == Failed(message, until)
  }

  lemma RegisterRemembers(limits: Limits, s: State, t: State, key: Id, url: string, added: Option<Id>,
                          id: Id, message: string, until: Instant)
    requires IsRegistered(limits, s, t, key, url, added) && Remembers(s, id, message, until) && id in t.registrations
    ensures Remembers(t, id, message, until)
  {
  }

  lemma BeginRemembers(s: State, fetched: Id, now: Instant, id: Id, message: string, until: Instant)
    requires Remembers(s, id, message, until) && (fetched == id ==> now < until)
    ensures Remembers(BegunFetch(s, fetched, now).0, id, message, until)
  {
  }

  /** Nothing but time, another report, or the loss of the registration makes a failure forgotten. */
  lemma StepRemembers(limits: Limits, idOf: IdOf, s: State, op: Op, answer: Answer, t: State,
                      id: Id, message: string, until: Instant)
    requires IsStep(limits, idOf, s, op, answer, t) && Remembers(s, id, message, until) && id in t.registrations
    requires (op.Finish? ==> op.id != id) && (op.Begin? && op.id == id ==> op.now < until)
    ensures Remembers(t, id, message, until)
  {
    match op
    case Register(source) =>
      RegisterRemembers(limits, s, t, idOf(Text.Trim(source)), Text.Trim(source), answer.id, id, message, until);
    case Begin(fetched, now) => BeginRemembers(s, fetched, now, id, message, until);
    case Finish(_, _, _) =>
    case Store(_, _, _) =>
  }

  /** The operations from `i` on leave the failure of `id` alone. */
  predicate LeavesFailure(run: Trace, i: nat, j: nat, id: Id, until: Instant)
    requires j <= |run.ops| < |run.states|
  {
    forall k | i < k < j ::
      && id in run.states[k + 1].registrations
      && (run.ops[k].Finish? ==> run.ops[k].id != id)
      && (run.ops[k].Begin? && run.ops[k].id == id ==> run.ops[k].now < until)
  }

  lemma {:induction false} FailureStays(limits: Limits, idOf: IdOf, run: Trace, i: nat, j: nat, message: string)
    requires IsRun(limits, idOf, run) && i < j <= |run.ops|
    requires run.ops[i].Finish? && run.ops[i].error == Some(message) && run.ops[i].id in run.states[i].registrations
    requires LeavesFailure(run, i, j, run.ops[i].id, run.ops[i].now + 5_000_000_000)
    ensures Remembers(run.states[j], run.ops[i].id, message, run.ops[i].now + 5_000_000_000)
    decreases j
  {
    StepAt(limits, idOf, run, j - 1);
    if j > i + 1 {
      FailureStays(limits, idOf, run, i, j - 1, message);
      StepRemembers(limits, idOf, run.states[j - 1], run.ops[j - 1], run.answers[j - 1], run.states[j],
                    run.ops[i].id, message, run.ops[i].now + 5_000_000_000);
    }
  }

  /**
    A reported failure answers every request for the resource with its message for five seconds, and
    then lets one caller start again, unless bytes have been stored or the registration was lost.
   */
  lemma FailureIsRepeated(limits: Limits, idOf: IdOf, run: Trace, i: nat, j: nat, message: string)
    requires IsRun(limits, idOf, run) && i < j < |run.ops|
    requires run.ops[i].Finish? && run.ops[i].error == Some(message) && run.ops[i].id in run.states[i].registrations
    requires LeavesFailure(run, i, j, run.ops[i].id, run.ops[i].now + 5_000_000_000)
    requires run.ops[j].Begin? && run.ops[j].id == run.ops[i].id && !IsFresh(run.states[j], run.ops[j].id, run.ops[j].now)
    ensures run.ops[j].id in run.states[j].registrations
    ensures run.answers[j] == Planned(
              if run.ops[j].now < run.ops[i].now + 5_000_000_000 then Refused(message)
              else Start(run.states[j].registrations[run.ops[j].id].sourceUrl))
  {
    FailureStays(limits, idOf, run, i, j, message);
    StepAt(limits, idOf, run, j);
    BeginAnswers(run.states[j], run.ops[j].id, run.ops[j].now, message);
  }
}
