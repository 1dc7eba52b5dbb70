/**
  The refresh schedule as a value: what a configuration change, a change of the local date, a
  dispatch and a completed job do to it. Instants and durations are in nanoseconds; an instant
  after `last` is not representable, and a deadline there is infinitely far away.
 */
module RefreshSchedule {
  import opened Common

  datatype Name = Name(text: string)
  type Instant = nat
  type Duration = nat
  type JobId = nat
  type LocalDate = int

  const STAGGER: Duration := 5_000_000_000
  const FALLBACK_WAKE: Duration := 60_000_000_000
  const MAX_CONCURRENT_REFRESHES: nat := 4
  const U32_MAX: nat := 0xFFFF_FFFF

  datatype StationSchedule = StationSchedule(
    lastCompleted: Option<Instant>,
    nextDue: Option<Instant>,
    inFlight: bool,
    dateRefreshPending: bool)

  type Schedules = map<Name, StationSchedule>

  function Deadline(last: Instant, start: Instant, delay: Duration): Option<Instant> {
    if start + delay <= last then Some(start + delay) else None
  }

  function Stagger(index: nat): Duration {
    STAGGER * (if index <= U32_MAX then index else U32_MAX)
  }

  ghost predicate Distinct(order: seq<Name>) {
    forall i, j | 0 <= i < j < |order| :: order[i] != order[j]
  }

  function IndexOf(order: seq<Name>, name: Name): (i: nat)
    requires name in order
    ensures i < |order| && order[i] == name
  {
    if order[0] == name then 0 else 1 + IndexOf(order[1..], name)
  }

  lemma IndexIsUnique(order: seq<Name>, i: nat)
    requires Distinct(order) && i < |order|
    ensures IndexOf(order, order[i]) == i
  {
    var j := IndexOf(order, order[i]);
  }

  // ----- Configuration change -----

  /** A kept station keeps its state; without a pending date refresh its deadline follows the new TTL. */
  function Retimed(last: Instant, s: StationSchedule, ttl: Duration): StationSchedule {
    if !s.dateRefreshPending && s.lastCompleted.Some?
    then s.(nextDue := Deadline(last, s.lastCompleted.value, ttl))
    else s
  }

  function NewStation(last: Instant, now: Instant, index: nat): StationSchedule {
    StationSchedule(None, Deadline(last, now, Stagger(index)), false, false)
  }

  function Reconciled(last: Instant, schedules: Schedules, order: seq<Name>, now: Instant, ttl: Duration): Schedules {
    map name | name in order ::
      if name in schedules then Retimed(last, schedules[name], ttl)
      else NewStation(last, now, IndexOf(order, name))
  }

  // ----- Change of the local date -----

  function Noted(last: Instant, s: StationSchedule, now: Instant, index: nat): StationSchedule {
    s.(dateRefreshPending := true,
       nextDue := if s.inFlight then s.nextDue else Deadline(last, now, Stagger(index)))
  }

  function DateRefreshed(last: Instant, schedules: Schedules, order: seq<Name>, now: Instant): Schedules {
    map name | name in schedules ::
      if name in order then Noted(last, schedules[name], now, IndexOf(order, name)) else schedules[name]
  }

  // ----- Dispatch -----

  predicate IsDue(s: StationSchedule, now: Instant) {
    !s.inFlight && s.nextDue.Some? && s.nextDue.value <= now
  }

  /** The due stations, in configuration order. */
  function DueNames(order: seq<Name>, schedules: Schedules, now: Instant): seq<Name> {
    if order == [] then []
    else
      var rest := DueNames(order[1..], schedules, now);
      if order[0] in schedules && IsDue(schedules[order[0]], now) then [order[0]] + rest else rest
  }

  function Prefix(names: seq<Name>, n: nat): seq<Name> {
    if n <= |names| then names[..n] else names
  }

  /** The first `available` of them. */
  function Claims(order: seq<Name>, schedules: Schedules, now: Instant, available: nat): seq<Name> {
    Prefix(DueNames(order, schedules, now), available)
  }

  function Claimed(last: Instant, s: StationSchedule, now: Instant, ttl: Duration): StationSchedule {
    s.(inFlight := true, dateRefreshPending := false, nextDue := Deadline(last, now, ttl))
  }

  function WithClaims(last: Instant, schedules: Schedules, claims: seq<Name>, now: Instant, ttl: Duration): Schedules {
    map name | name in schedules :: if name in claims then Claimed(last, schedules[name], now, ttl) else schedules[name]
  }

  function Available(jobs: nat): nat {
    if jobs <= MAX_CONCURRENT_REFRESHES then MAX_CONCURRENT_REFRESHES - jobs else 0
  }

  lemma {:induction false} DueNamesAreDue(order: seq<Name>, schedules: Schedules, now: Instant)
    ensures forall name :: name in DueNames(order, schedules, now) <==>
                           name in order && name in schedules && IsDue(schedules[name], now)
  {
    if order != [] {
      DueNamesAreDue(order[1..], schedules, now);
      assert forall name :: name in order <==> name == order[0] || name in order[1..];
    }
  }

  lemma {:induction false} DueNamesAreDistinct(order: seq<Name>, schedules: Schedules, now: Instant)
    requires Distinct(order)
    ensures Distinct(DueNames(order, schedules, now))
  {
    if order != [] {
      DueNamesAreDistinct(order[1..], schedules, now);
      DueNamesAreDue(order[1..], schedules, now);
    }
  }

  lemma {:induction false} DueNamesOfPrefix(order: seq<Name>, schedules: Schedules, now: Instant, i: nat)
    requires i < |order|
    ensures DueNames(order[..i + 1], schedules, now) ==
            DueNames(order[..i], schedules, now) +
            if order[i] in schedules && IsDue(schedules[order[i]], now) then [order[i]] else []
    decreases i
  {
    if i == 0 {
      assert order[..1] == [order[0]] && order[..1][1..] == [];
    } else {
      DueNamesOfPrefix(order[1..], schedules, now, i - 1);
      assert order[..i + 1][1..] == order[1..][..i] && order[..i][1..] == order[1..][..i - 1];
    }
  }

  lemma {:induction false} PrefixIsShorter(order: seq<Name>, schedules: Schedules, now: Instant, i: nat)
    requires i <= |order|
    ensures DueNames(order[..i], schedules, now) <= DueNames(order, schedules, now)
    decreases |order| - i
  {
    if i == |order| {
      assert order[..i] == order;
    } else {
      PrefixIsShorter(order, schedules, now, i + 1);
      DueNamesOfPrefix(order, schedules, now, i);
    }
  }

  // ----- A completed job -----

  function Completed(last: Instant, s: StationSchedule, at: Instant, ttl: Duration): StationSchedule {
    StationSchedule(Some(at), if s.dateRefreshPending then Some(at) else Deadline(last, at, ttl),
                    false, s.dateRefreshPending)
  }

  function WithCompletion(last: Instant, schedules: Schedules, name: Name, at: Instant, ttl: Duration): Schedules {
    if name in schedules then schedules[name := Completed(last, schedules[name], at, ttl)] else schedules
  }

  // ----- How long the loop may sleep -----

  function Gap(due: Instant, now: Instant): Duration {
    if due > now then due - now else 0
  }

  /** The gaps to the deadlines of the idle stations. */
  function IdleGaps(schedules: Schedules, now: Instant): set<Duration> {
    set name | name in schedules && !schedules[name].inFlight && schedules[name].nextDue.Some? ::
      Gap(schedules[name].nextDue.value, now)
  }

  /** The fallback when no slot is free or nothing is due, otherwise the shortest gap. */
  predicate IsSchedulerWait(wait: Duration, schedules: Schedules, now: Instant, jobs: nat) {
    if jobs >= MAX_CONCURRENT_REFRESHES then wait == FALLBACK_WAKE
    else
      var gaps := IdleGaps(schedules, now);
      if gaps == {} then wait == FALLBACK_WAKE else wait in gaps && forall gap | gap in gaps :: wait <= gap
  }

  // ----- What these functions amount to -----

  /** A station new in the configuration is due five seconds after the one before it; a kept one only follows the TTL. */
  lemma ReconciledStation(last: Instant, schedules: Schedules, order: seq<Name>, now: Instant, ttl: Duration, i: nat)
    requires Distinct(order) && i < |order| && i <= U32_MAX && now + 5_000_000_000 * i <= last
    ensures var station := Reconciled(last, schedules, order, now, ttl)[order[i]];
            if order[i] !in schedules
            then station == StationSchedule(None, Some(now + 5_000_000_000 * i), false, false)
            else
              var kept := schedules[order[i]];
              station == kept.(nextDue :=
                if kept.dateRefreshPending || kept.lastCompleted == None then kept.nextDue
                else if kept.lastCompleted.value + ttl <= last then Some(kept.lastCompleted.value + ttl) else None)
  {
    IndexIsUnique(order, i);
  }

  /** A noted date change spreads the idle stations five seconds apart and leaves running ones their deadline. */
  lemma DateRefreshedStation(last: Instant, schedules: Schedules, order: seq<Name>, now: Instant, i: nat)
    requires Distinct(order) && i < |order| && i <= U32_MAX && order[i] in schedules && now + 5_000_000_000 * i <= last
    ensures var kept := schedules[order[i]];
            DateRefreshed(last, schedules, order, now)[order[i]]
            == StationSchedule(kept.lastCompleted, if kept.inFlight then kept.nextDue else Some(now + 5_000_000_000 * i),
                               kept.inFlight, true)
  {
    IndexIsUnique(order, i);
  }

  lemma DueNameAt(order: seq<Name>, schedules: Schedules, now: Instant, p: nat)
    requires p < |order| && order[p] in schedules && IsDue(schedules[order[p]], now)
    ensures var n := |DueNames(order[..p], schedules, now)|;
            n < |DueNames(order, schedules, now)| && DueNames(order, schedules, now)[n] == order[p]
  {
    DueNamesOfPrefix(order, schedules, now, p);
    PrefixIsShorter(order, schedules, now, p + 1);
  }

  lemma FewerBefore(order: seq<Name>, schedules: Schedules, now: Instant, p: nat, q: nat)
    requires p <= q <= |order|
    ensures |DueNames(order[..p], schedules, now)| <= |DueNames(order[..q], schedules, now)|
  {
    assert order[..q][..p] == order[..p];
    PrefixIsShorter(order[..q], schedules, now, p);
  }

  /**
    Claimed are as many due stations as there is room for, and the first ones of the configuration:
    with a claimed station every due station that stands before it is claimed.
   */
  lemma ClaimsAreFirst(order: seq<Name>, schedules: Schedules, now: Instant, available: nat, p: nat, q: nat)
    requires Distinct(order) && p < q < |order|
    requires order[p] in schedules && IsDue(schedules[order[p]], now)
    ensures var due, claims := DueNames(order, schedules, now), Claims(order, schedules, now, available);
            && |claims| == (if available < |due| then available else |due|)
            && (order[q] in claims ==> order[p] in claims)
  {
    var due, claims := DueNames(order, schedules, now), Claims(order, schedules, now, available);
    if order[q] in claims {
      DueNamesAreDue(order, schedules, now);
      DueNamesAreDistinct(order, schedules, now);
      var i :| 0 <= i < |claims| && claims[i] == order[q];
      assert due[i] == order[q] && order[q] in due;
      DueNameAt(order, schedules, now, p);
      DueNameAt(order, schedules, now, q);
      FewerBefore(order, schedules, now, p, q);
      var n := |DueNames(order[..p], schedules, now)|;
      assert claims[n] == due[n] == order[p];
    }
  }

  /** The wait ends at the first deadline of an idle station, or after a minute when there is none or no slot is free. */
  lemma WaitEndsAtADeadline(wait: Duration, schedules: Schedules, now: Instant, jobs: nat)
    requires IsSchedulerWait(wait, schedules, now, jobs)
    ensures jobs >= 4 ==> wait == 60_000_000_000
    ensures jobs < 4 && (exists name :: IsWaiting(schedules, name)) ==>
              exists name :: IsWaiting(schedules, name) && wait == if schedules[name].nextDue.value > now then schedules[name].nextDue.value - now else 0
    ensures jobs < 4 && !(exists name :: IsWaiting(schedules, name)) ==> wait == 60_000_000_000
  {
    if jobs < 4 {
      if name :| IsWaiting(schedules, name) {
        assert Gap(schedules[name].nextDue.value, now) in IdleGaps(schedules, now);
        var first :| IsWaiting(schedules, first) && wait == Gap(schedules[first].nextDue.value, now);
      } else {
        assert IdleGaps(schedules, now) == {} by {
          if gap :| gap in IdleGaps(schedules, now) {
            var name :| name in schedules && !schedules[name].inFlight && schedules[name].nextDue.Some?;
            assert IsWaiting(schedules, name);
          }
        }
      }
    }
  }

  predicate IsWaiting(schedules: Schedules, name: Name) {
    name in schedules && !schedules[name].inFlight && schedules[name].nextDue.Some?
  }
}
