/** The refresh scheduler of the engine: the state of its loop and the operations the loop calls. */
module Refresh {
  import opened Common
  import opened RefreshSchedule
  import Station

  // ----- Which stations are refreshed -----

  datatype StationConfig = StationConfig(name: Name, enabled: bool)

  function ParentName(name: Name): Option<Name> {
    var parent := Station.ParentStationName(name.text);
    if parent.Some? then Some(Name(parent.value)) else None
  }

  lemma ParentHasNoParent(name: Name, parent: Name)
    requires ParentName(name) == Some(parent)
    ensures ParentName(parent) == None
  {
    Station.ParentHasNoParent(name.text, parent.text);
  }

  /** `a` stands before `b` in the list. */
  ghost predicate StandsBefore(list: seq<Name>, a: Name, b: Name) {
    exists i, j :: 0 <= i < j < |list| && list[i] == a && list[j] == b
  }

  type Parents = Name -> Option<Name>

  /** Every listed station that has a parent stands after it. */
  ghost predicate ParentsFirst(parentOf: Parents, list: seq<Name>) {
    forall name | name in list && parentOf(name).Some? :: StandsBefore(list, parentOf(name).value, name)
  }

  predicate Wants(parentOf: Parents, station: StationConfig, name: Name) {
    station.enabled && (name == station.name || parentOf(station.name) == Some(name))
  }

  /** The station is enabled in the configuration, or the parent of one that is. */
  ghost predicate IsWanted(parentOf: Parents, stations: seq<StationConfig>, name: Name) {
    exists i :: 0 <= i < |stations| && Wants(parentOf, stations[i], name)
  }

  lemma WantedExactlyWhen(stations: seq<StationConfig>, name: Name)
    ensures IsWanted(ParentName, stations, name) <==>
            exists i | 0 <= i < |stations| ::
              stations[i].enabled && (name == stations[i].name || Station.ParentStationName(stations[i].name.text) == Some(name.text))
  {
    if i :| 0 <= i < |stations| && stations[i].enabled
            && (name == stations[i].name || Station.ParentStationName(stations[i].name.text) == Some(name.text)) {
      assert Wants(ParentName, stations[i], name);
    }
  }

  /** The first station of the configuration that wants the name. */
  function FirstMention(parentOf: Parents, stations: seq<StationConfig>, name: Name): (i: nat)
    ensures i <= |stations|
  {
    if stations == [] || Wants(parentOf, stations[0], name) then 0
    else 1 + FirstMention(parentOf, stations[1..], name)
  }

  lemma {:induction false} MentionedFirstAt(parentOf: Parents, stations: seq<StationConfig>, name: Name, i: nat)
    requires i < |stations| && Wants(parentOf, stations[i], name) && !IsWanted(parentOf, stations[..i], name)
    ensures FirstMention(parentOf, stations, name) == i
    decreases i
  {
    if i > 0 {
      assert stations[..i][0] == stations[0] && !Wants(parentOf, stations[0], name);
      var front := stations[1..][..i - 1];
      forall k | 0 <= k < |front| ensures !Wants(parentOf, front[k], name) {
        assert front[k] == stations[..i][k + 1];
      }
      MentionedFirstAt(parentOf, stations[1..], name, i - 1);
    }
  }

  predicate MentionedNoLater(parentOf: Parents, stations: seq<StationConfig>, a: Name, b: Name) {
    FirstMention(parentOf, stations, a) <= FirstMention(parentOf, stations, b)
  }

  /** The names stand in the order in which the configuration mentions them. */
  ghost predicate InOrderOfMention(parentOf: Parents, stations: seq<StationConfig>, order: seq<Name>) {
    forall i, j | 0 <= i < j < |order| :: MentionedNoLater(parentOf, stations, order[i], order[j])
  }

  /** The enabled stations and their parents, each once, as mentioned, every district after its parent. */
  method EnabledStations(stations: seq<StationConfig>) returns (order: seq<Name>)
    ensures Distinct(order) && ParentsFirst(ParentName, order) && InOrderOfMention(ParentName, stations, order)
    ensures forall name :: name in order <==>
              exists i | 0 <= i < |stations| ::
                stations[i].enabled && (name == stations[i].name || Station.ParentStationName(stations[i].name.text) == Some(name.text))
  {
    forall name, parent | ParentName(name) == Some(parent) ensures ParentName(parent) == None {
      ParentHasNoParent(name, parent);
    }
    order := ListEnabled(ParentName, stations);
    forall name { WantedExactlyWhen(stations, name); }
  }

  /** Distinct names with parents first, mentioned before station `i` and in order of mention. */
  ghost predicate IsListUpTo(parentOf: Parents, stations: seq<StationConfig>, order: seq<Name>, i: nat) {
    && Distinct(order) && ParentsFirst(parentOf, order) && InOrderOfMention(parentOf, stations, order)
    && forall k | 0 <= k < |order| :: FirstMention(parentOf, stations, order[k]) < i
  }

  lemma AppendKeepsMention(parentOf: Parents, stations: seq<StationConfig>, order: seq<Name>, i: nat, name: Name)
    requires InOrderOfMention(parentOf, stations, order) && FirstMention(parentOf, stations, name) == i
    requires forall k | 0 <= k < |order| :: FirstMention(parentOf, stations, order[k]) <= i
    ensures InOrderOfMention(parentOf, stations, order + [name])
  {
  }

  lemma AddMention(parentOf: Parents, stations: seq<StationConfig>, order: seq<Name>, i: nat, name: Name)
    requires i < |stations| && IsListUpTo(parentOf, stations, order, i + 1) && name !in order
    requires Wants(parentOf, stations[i], name) && !IsWanted(parentOf, stations[..i], name)
    requires parentOf(name).Some? ==> parentOf(name).value in order
    ensures IsListUpTo(parentOf, stations, order + [name], i + 1)
  {
    AppendKeepsParentsFirst(parentOf, order, name);
    MentionedFirstAt(parentOf, stations, name, i);
    AppendKeepsMention(parentOf, stations, order, i, name);
  }

  /** Adds a name that station `i` mentions, unless it is there. */
  method Mention(parentOf: Parents, stations: seq<StationConfig>, i: nat, order: seq<Name>, seen: set<Name>, name: Name)
    returns (longer: seq<Name>, known: set<Name>)
    requires i < |stations| && IsListUpTo(parentOf, stations, order, i + 1) && Wants(parentOf, stations[i], name)
    requires forall n :: n in seen <==> n in order
    requires forall n | IsWanted(parentOf, stations[..i], n) :: n in order
    requires parentOf(name).Some? ==> parentOf(name).value in order
    ensures IsListUpTo(parentOf, stations, longer, i + 1)
    ensures forall n :: n in known <==> n in longer
    ensures forall n :: n in longer <==> n in order || n == name
  {
    if name in seen {
      return order, seen;
    }
    AddMention(parentOf, stations, order, i, name);
    return order + [name], seen + {name};
  }

  method ListEnabled(parentOf: Parents, stations: seq<StationConfig>) returns (order: seq<Name>)
    requires forall name, parent | parentOf(name) == Some(parent) :: parentOf(parent) == None
    ensures Distinct(order) && ParentsFirst(parentOf, order) && InOrderOfMention(parentOf, stations, order)
    ensures forall name :: name in order <==> IsWanted(parentOf, stations, name)
  {
    order := [];
    var seen: set<Name> := {};
    for i := 0 to |stations|
      invariant IsListUpTo(parentOf, stations, order, i)
      invariant forall name :: name in seen <==> name in order
      invariant forall name :: name in order <==> IsWanted(parentOf, stations[..i], name)
    {
      var station := stations[i];
      WantedByNext(parentOf, stations, i);
      if station.enabled {
        var parent := parentOf(station.name);
        if parent.Some? {
          order, seen := Mention(parentOf, stations, i, order, seen, parent.value);
        }
        order, seen := Mention(parentOf, stations, i, order, seen, station.name);
      }
    }
    assert stations[..|stations|] == stations;
  }

  lemma WantedByNext(parentOf: Parents, stations: seq<StationConfig>, i: nat)
    requires i < |stations|
    ensures forall name :: IsWanted(parentOf, stations[..i + 1], name) <==>
              IsWanted(parentOf, stations[..i], name) || Wants(parentOf, stations[i], name)
  {
    forall name ensures IsWanted(parentOf, stations[..i + 1], name) <==>
              IsWanted(parentOf, stations[..i], name) || Wants(parentOf, stations[i], name)
    {
      if IsWanted(parentOf, stations[..i], name) {
        var k :| 0 <= k < i && Wants(parentOf, stations[..i][k], name);
        assert stations[..i + 1][k] == stations[..i][k];
      }
      if Wants(parentOf, stations[i], name) {
        assert stations[..i + 1][i] == stations[i];
      }
      if IsWanted(parentOf, stations[..i + 1], name) {
        var k :| 0 <= k <= i && Wants(parentOf, stations[..i + 1][k], name);
        assert k < i ==> stations[..i][k] == stations[..i + 1][k];
      }
    }
  }

  lemma AppendKeepsParentsFirst(parentOf: Parents, list: seq<Name>, last: Name)
    requires Distinct(list) && ParentsFirst(parentOf, list) && last !in list
    requires parentOf(last).Some? ==> parentOf(last).value in list
    ensures Distinct(list + [last]) && ParentsFirst(parentOf, list + [last])
  {
    var longer := list + [last];
    forall name | name in longer && parentOf(name).Some?
      ensures StandsBefore(longer, parentOf(name).value, name)
    {
      var parent := parentOf(name).value;
      if name == last {
        var i :| 0 <= i < |list| && list[i] == parent;
        assert longer[i] == parent && longer[|list|] == last;
      } else {
        assert StandsBefore(list, parent, name);
        var i, j :| 0 <= i < j < |list| && list[i] == parent && list[j] == name;
        assert longer[i] == parent && longer[j] == name;
      }
    }
  }

  // ----- The loop state -----

  datatype State = State(
    order: seq<Name>,
    ttl: Duration,
    schedules: Schedules,
    jobs: map<JobId, Name>,
    nextJob: JobId,
    lastDate: Option<LocalDate>)

  /** One job for each claimed station. */
  function Spawned(jobs: map<JobId, Name>, nextJob: JobId, claims: seq<Name>): map<JobId, Name>
    decreases |claims|
  {
    if claims == [] then jobs
    else
      var n := |claims| - 1;
      Spawned(jobs, nextJob, claims[..n])[nextJob + n := claims[n]]
  }

  function Dispatched(last: Instant, s: State, now: Instant): State {
    var claims := Claims(s.order, s.schedules, now, Available(|s.jobs|));
    s.(schedules := WithClaims(last, s.schedules, claims, now, s.ttl),
       jobs := Spawned(s.jobs, s.nextJob, claims),
       nextJob := s.nextJob + |claims|)
  }

  function DateChecked(last: Instant, s: State, now: Instant, date: Option<LocalDate>): State {
    if date == None then s
    else
      var noted := if s.lastDate.Some? && s.lastDate != date
                   then s.(schedules := DateRefreshed(last, s.schedules, s.order, now)) else s;
      noted.(lastDate := date)
  }

  predicate Same(a: Schedules, b: Schedules, name: Name) {
    (name in a <==> name in b) && (name in a ==> a[name] == b[name])
  }

  /** The first `i` stations are as in `target`, and so is every name that is no station; the others are as before. */
  ghost predicate DoneUpTo(before: Schedules, target: Schedules, order: seq<Name>, i: nat, schedules: Schedules)
    requires i <= |order|
  {
    && (forall k | 0 <= k < i :: Same(schedules, target, order[k]))
    && (forall k | i <= k < |order| :: Same(schedules, before, order[k]))
    && (forall name | name !in order :: Same(schedules, target, name))
  }

  lemma OneMoreDone(before: Schedules, target: Schedules, order: seq<Name>, i: nat, schedules: Schedules, next: Schedules)
    requires i < |order| && Distinct(order) && DoneUpTo(before, target, order, i, schedules)
    requires forall name | name != order[i] :: Same(next, schedules, name)
    requires Same(next, target, order[i])
    ensures DoneUpTo(before, target, order, i + 1, next)
  {
    forall k | 0 <= k < i ensures Same(next, target, order[k]) {
      assert Same(schedules, target, order[k]) && Same(next, schedules, order[k]);
    }
    forall k | i + 1 <= k < |order| ensures Same(next, before, order[k]) {
      assert Same(schedules, before, order[k]) && Same(next, schedules, order[k]);
    }
    forall name | name !in order ensures Same(next, target, name) {
      assert Same(schedules, target, name) && Same(next, schedules, name);
    }
  }

  lemma AllDone(before: Schedules, target: Schedules, order: seq<Name>, schedules: Schedules)
    requires DoneUpTo(before, target, order, |order|, schedules)
    ensures schedules == target
  {
    forall name: Name ensures Same(schedules, target, name) {
      if name in order {
        var k :| 0 <= k < |order| && order[k] == name;
        assert Same(schedules, target, order[k]);
      }
    }
    forall name: Name ensures name in schedules <==> name in target
                      ensures name in schedules ==> schedules[name] == target[name] {
      assert Same(schedules, target, name);
    }
  }

  predicate IsReconciled(last: Instant, before: Schedules, target: Schedules, order: seq<Name>, now: Instant,
                         ttl: Duration, i: nat)
    requires i < |order|
  {
    order[i] in target &&
    target[order[i]] == if order[i] in before then Retimed(last, before[order[i]], ttl) else NewStation(last, now, i)
  }

  lemma ReconciledAt(last: Instant, before: Schedules, order: seq<Name>, now: Instant, ttl: Duration, i: nat)
    requires i < |order| && Distinct(order)
    ensures IsReconciled(last, before, Reconciled(last, before, order, now, ttl), order, now, ttl, i)
  {
    IndexIsUnique(order, i);
  }

  lemma DateRefreshedAt(last: Instant, before: Schedules, order: seq<Name>, now: Instant, i: nat)
    requires i < |order| && Distinct(order)
    ensures order[i] in before ==>
              DateRefreshed(last, before, order, now)[order[i]] == Noted(last, before[order[i]], now, i)
  {
    IndexIsUnique(order, i);
  }

  class RefreshLoop {
    const last: Instant
    var order: seq<Name>
    var ttl: Duration
    var schedules: Schedules
    var jobs: map<JobId, Name>
    var nextJob: JobId
    var lastDate: Option<LocalDate>

    ghost function View(): State
      reads this
    {
      State(order, ttl, schedules, jobs, nextJob, lastDate)
    }

    constructor (last: Instant, order: seq<Name>, ttl: Duration, now: Instant, date: Option<LocalDate>)
      requires Distinct(order)
      ensures this.last == last
      ensures View() == State(order, ttl, Reconciled(last, map[], order, now, ttl), map[], 0, date)
    {
      this.last, this.order, this.ttl := last, order, ttl;
      schedules, jobs, nextJob, lastDate := map[], map[], 0, date;
      new;
      ReconcileSchedules(now);
    }

    /** Drops the stations that are no longer enabled, retimes the others, adds the new ones. */
    method ReconcileSchedules(now: Instant)
      requires Distinct(order)
      modifies this`schedules
      ensures schedules == Reconciled(last, old(schedules), order, now, ttl)
    {
      ghost var before, target := schedules, Reconciled(last, schedules, order, now, ttl);
      RetainEnabled(target);
      forall i | 0 <= i < |order| ensures IsReconciled(last, before, target, order, now, ttl, i) {
        ReconciledAt(last, before, order, now, ttl, i);
      }
      ReconcileEach(now, before, target);
      AllDone(before, target, order, schedules);
    }

    method ReconcileEach(now: Instant, ghost before: Schedules, ghost target: Schedules)
      requires Distinct(order) && DoneUpTo(before, target, order, 0, schedules)
      requires forall i | 0 <= i < |order| :: IsReconciled(last, before, target, order, now, ttl, i)
      modifies this`schedules
      ensures DoneUpTo(before, target, order, |order|, schedules)
    {
      for i := 0 to |order|
        invariant DoneUpTo(before, target, order, i, schedules)
      {
        ghost var was := schedules;
        assert Same(was, before, order[i]) && IsReconciled(last, before, target, order, now, ttl, i);
        ReconcileStation(i, now);
        OneMoreDone(before, target, order, i, was, schedules);
      }
    }

    method RetainEnabled(ghost target: Schedules)
      requires forall name | name in target :: name in order
      modifies this`schedules
      ensures DoneUpTo(old(schedules), target, order, 0, schedules)
    {
      schedules := map name | name in schedules && name in order :: schedules[name];
    }

    method ReconcileStation(i: nat, now: Instant)
      requires i < |order|
      modifies this`schedules
      ensures schedules == old(schedules)[order[i] :=
                if order[i] in old(schedules) then Retimed(last, old(schedules)[order[i]], ttl)
                else NewStation(last, now, i)]
    {
      var name := order[i];
      if name in schedules {
        var schedule := schedules[name];
        if !schedule.dateRefreshPending && schedule.lastCompleted.Some? {
          schedules := schedules[name := schedule.(nextDue := Deadline(last, schedule.lastCompleted.value, ttl))];
        }
      } else {
        schedules := schedules[name := StationSchedule(None, Deadline(last, now, Stagger(i)), false, false)];
      }
    }

    /** Marks every station for a refresh; idle ones become due one stagger step after another. */
    method ScheduleDateRefresh(now: Instant)
      requires Distinct(order)
      modifies this`schedules
      ensures schedules == DateRefreshed(last, old(schedules), order, now)
    {
      ghost var before, target := schedules, DateRefreshed(last, schedules, order, now);
      for i := 0 to |order|
        invariant DoneUpTo(before, target, order, i, schedules)
      {
        ghost var was := schedules;
        assert Same(was, before, order[i]);
        DateRefreshedAt(last, before, order, now, i);
        NoteStation(i, now);
        OneMoreDone(before, target, order, i, was, schedules);
      }
      AllDone(before, target, order, schedules);
    }

    method NoteStation(i: nat, now: Instant)
      requires i < |order|
      modifies this`schedules
      ensures schedules == if order[i] in old(schedules)
                           then old(schedules)[order[i] := Noted(last, old(schedules)[order[i]], now, i)] else old(schedules)
    {
      var name := order[i];
      if name in schedules {
        var schedule := schedules[name].(dateRefreshPending := true);
        if !schedule.inFlight {
          schedule := schedule.(nextDue := Deadline(last, now, Stagger(i)));
        }
        schedules := schedules[name := schedule];
      }
    }

    /** Claims due stations in configuration order until the free slots are used up. */
    method ClaimDueStations(now: Instant, available: nat) returns (claimed: seq<Name>)
      requires Distinct(order)
      modifies this`schedules
      ensures claimed == Claims(order, old(schedules), now, available)
      ensures schedules == WithClaims(last, old(schedules), claimed, now, ttl)
      ensures |claimed| <= available && forall name | name in claimed ::
                && name in order && name in schedules && name in old(schedules) && IsDue(old(schedules)[name], now)
                && schedules[name].inFlight && !schedules[name].dateRefreshPending
                && schedules[name].lastCompleted == old(schedules)[name].lastCompleted
    {
      DueNamesAreDue(order, schedules, now);

      ghost var before := schedules;
      claimed := [];
      var i := 0;
      while i < |order| && |claimed| < available
        invariant i <= |order| && |claimed| <= available
        invariant claimed == DueNames(order[..i], before, now)
        invariant schedules == WithClaims(last, before, claimed, now, ttl)
      {
        var name := order[i];
        DueNamesAreDue(order[..i], before, now);
        DueNamesOfPrefix(order, before, now, i);
        assert name !in order[..i];
        if name in schedules && !schedules[name].inFlight
           && schedules[name].nextDue.Some? && schedules[name].nextDue.value <= now {
          schedules := schedules[name := schedules[name].(
            inFlight := true, dateRefreshPending := false, nextDue := Deadline(last, now, ttl))];
          claimed := claimed + [name];
        }
        i := i + 1;
      }
      PrefixIsShorter(order, before, now, i);
      assert i == |order| ==> order[..i] == order;
    }

    /** Starts one job for each claimed station. */
    method DispatchDue(now: Instant)
      requires Distinct(order)
      modifies this`schedules, this`jobs, this`nextJob
      ensures View() == Dispatched(last, old(View()), now)
    {
      ghost var before := View();
      var available := if |jobs| <= MAX_CONCURRENT_REFRESHES then MAX_CONCURRENT_REFRESHES - |jobs| else 0;
      var claimed := ClaimDueStations(now, available);
      SpawnJobs(claimed);
      assert claimed == Claims(before.order, before.schedules, now, Available(|before.jobs|));
    }

    method SpawnJobs(claimed: seq<Name>)
      modifies this`jobs, this`nextJob
      ensures jobs == Spawned(old(jobs), old(nextJob), claimed) && nextJob == old(nextJob) + |claimed|
    {
      for i := 0 to |claimed|
        invariant nextJob == old(nextJob) + i
        invariant jobs == Spawned(old(jobs), old(nextJob), claimed[..i])
      {
        assert claimed[..i + 1][..i] == claimed[..i];
        jobs := jobs[nextJob := claimed[i]];
        nextJob := nextJob + 1;
      }
      assert claimed[..|claimed|] == claimed;
    }

    /** A change of the local date since the last look is noted for every station. */
    method NoteDate(now: Instant, date: Option<LocalDate>)
      requires Distinct(order)
      modifies this`schedules, this`lastDate
      ensures View() == DateChecked(last, old(View()), now, date)
    {
      if date.Some? {
        if lastDate.Some? && lastDate.value != date.value {
          ScheduleDateRefresh(now);
        }
        lastDate := date;
      }
    }

    /** The top of the loop: look at the date, then dispatch. */
    method Wake(now: Instant, date: Option<LocalDate>)
      requires Distinct(order)
      modifies this`schedules, this`jobs, this`nextJob, this`lastDate
      ensures View() == Dispatched(last, DateChecked(last, old(View()), now, date), now)
    {
      NoteDate(now, date);
      DispatchDue(now);
    }

    /** A job has ended, whatever its result; a date change noted meanwhile makes the station due at once. */
    method FinishJob(id: JobId, completedAt: Instant)
      modifies this`schedules, this`jobs
      ensures id !in old(jobs) ==> jobs == old(jobs) && schedules == old(schedules)
      ensures id in old(jobs) ==>
                && jobs == old(jobs) - {id}
                && schedules == WithCompletion(last, old(schedules), old(jobs)[id], completedAt, ttl)
      ensures id in old(jobs) && old(jobs)[id] in old(schedules) ==>
                var name := old(jobs)[id]; var marked := old(schedules)[name].dateRefreshPending;
                && name in schedules && !schedules[name].inFlight && schedules[name].dateRefreshPending == marked
                && schedules[name].lastCompleted == Some(completedAt)
                && schedules[name].nextDue == if marked then Some(completedAt)
                                              else if completedAt + ttl <= last then Some(completedAt + ttl) else None
    {
      if id in jobs {
        var name := jobs[id];
        jobs := jobs - {id};
        if name in schedules {
          var schedule := schedules[name].(inFlight := false, lastCompleted := Some(completedAt));
          schedules := schedules[name := schedule.(
            nextDue := if schedule.dateRefreshPending then Some(completedAt) else Deadline(last, completedAt, ttl))];
        }
      }
    }

    /** How long the loop may sleep for its schedule. */
    method NextSchedulerWait(now: Instant) returns (wait: Duration)
      ensures IsSchedulerWait(wait, schedules, now, |jobs|)
    {
      if |jobs| >= MAX_CONCURRENT_REFRESHES {
        return FALLBACK_WAKE;
      }
      var shortest: Option<Duration> := None;
      var rest := schedules.Keys;
      ghost var gaps: set<Duration> := {};
      while rest != {}
        invariant rest <= schedules.Keys
        invariant gaps == (set name | name in schedules.Keys - rest && !schedules[name].inFlight
                             && schedules[name].nextDue.Some? :: Gap(schedules[name].nextDue.value, now))
        invariant shortest == None <==> gaps == {}
        invariant shortest.Some? ==> shortest.value in gaps && forall gap | gap in gaps :: shortest.value <= gap
        decreases rest
      {
        var name := Pick(rest);
        rest := rest - {name};
        var schedule := schedules[name];
        if !schedule.inFlight && schedule.nextDue.Some? {
          var gap := Gap(schedule.nextDue.value, now);
          gaps := gaps + {gap};
          if shortest == None || gap < shortest.value {
            shortest := Some(gap);
          }
        }
      }
      assert gaps == IdleGaps(schedules, now);
      return if shortest.Some? then shortest.value else FALLBACK_WAKE;
    }
  }
}
