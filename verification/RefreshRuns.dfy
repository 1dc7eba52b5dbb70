/**
  Runs of the refresh loop: any interleaving of wake-ups, configuration changes and completed jobs.
  The one assumption is that the clock stays far enough from the end of its range for the stagger
  of the configured stations to be representable; a TTL need not be.
 */
module RefreshRuns {
  import opened Common
  import opened RefreshSchedule
  import opened Refresh

  datatype Step =
    | Wake(now: Instant, date: Option<LocalDate>)
    | Reconfigure(order: seq<Name>, ttl: Duration, now: Instant)
    | Finish(id: JobId, at: Instant)

  /** The last station of the list has a representable stagger deadline. */
  predicate StaggerFits(last: Instant, now: Instant, order: seq<Name>) {
    now + Stagger(|order|) <= last
  }

  ghost predicate Feasible(last: Instant, s: State, step: Step) {
    match step
    case Wake(now, _) => StaggerFits(last, now, s.order)
    case Reconfigure(order, _, now) => Distinct(order) && StaggerFits(last, now, order)
    case Finish(id, _) => id in s.jobs
  }

  function Apply(last: Instant, s: State, step: Step): State {
    match step
    case Wake(now, date) => Dispatched(last, DateChecked(last, s, now, date), now)
    case Reconfigure(order, ttl, now) =>
      s.(order := order, ttl := ttl, schedules := Reconciled(last, s.schedules, order, now, ttl))
    case Finish(id, at) =>
      if id in s.jobs then
        s.(jobs := s.jobs - {id}, schedules := WithCompletion(last, s.schedules, s.jobs[id], at, s.ttl))
      else s
  }

  ghost function Run(last: Instant, s: State, steps: seq<Step>): State
    decreases |steps|
  {
    if steps == [] then s
    else
      var before := Run(last, s, steps[..|steps| - 1]);
      var step := steps[|steps| - 1];
      if Feasible(last, before, step) then Apply(last, before, step) else before
  }

  function Started(last: Instant, order: seq<Name>, ttl: Duration, now: Instant, date: Option<LocalDate>): State {
    State(order, ttl, Reconciled(last, map[], order, now, ttl), map[], 0, date)
  }

  // ----- The invariant -----

  /** An idle station waits for the right moment, and for ever only if its TTL is that long. */
  predicate DueIsRight(last: Instant, s: StationSchedule, ttl: Duration) {
    s.inFlight || (
      if s.dateRefreshPending || s.lastCompleted == None then s.nextDue.Some?
      else s.nextDue == Deadline(last, s.lastCompleted.value, ttl))
  }

  ghost predicate HasJob(jobs: map<JobId, Name>, name: Name) {
    exists id :: id in jobs && jobs[id] == name
  }

  ghost predicate Consistent(last: Instant, s: State) {
    && Distinct(s.order)
    && (forall name :: name in s.schedules <==> name in s.order)
    && (forall name | name in s.schedules :: DueIsRight(last, s.schedules[name], s.ttl))
    && (forall name | name in s.schedules && s.schedules[name].inFlight :: HasJob(s.jobs, name))
    && (forall id | id in s.jobs :: id < s.nextJob)
    && |s.jobs| <= MAX_CONCURRENT_REFRESHES
  }

  lemma {:induction false} SpawnedIds(jobs: map<JobId, Name>, nextJob: JobId, claims: seq<Name>)
    ensures forall id :: id in Spawned(jobs, nextJob, claims) <==> id in jobs || nextJob <= id < nextJob + |claims|
    decreases |claims|
  {
    if claims != [] {
      SpawnedIds(jobs, nextJob, claims[..|claims| - 1]);
    }
  }

  lemma OneKeyMore(jobs: map<JobId, Name>, id: JobId, name: Name)
    requires id !in jobs
    ensures |jobs[id := name]| == |jobs| + 1
  {
    assert jobs[id := name].Keys == jobs.Keys + {id};
  }

  lemma {:induction false} SpawnedCount(jobs: map<JobId, Name>, nextJob: JobId, claims: seq<Name>)
    requires forall id | id in jobs :: id < nextJob
    ensures |Spawned(jobs, nextJob, claims)| == |jobs| + |claims|
    decreases |claims|
  {
    if claims != [] {
      var front := claims[..|claims| - 1];
      SpawnedCount(jobs, nextJob, front);
      SpawnedIds(jobs, nextJob, front);
      OneKeyMore(Spawned(jobs, nextJob, front), nextJob + |front|, claims[|front|]);
    }
  }

  lemma {:induction false} OldJobStays(jobs: map<JobId, Name>, nextJob: JobId, claims: seq<Name>, id: JobId)
    requires id in jobs && id < nextJob
    ensures id in Spawned(jobs, nextJob, claims) && Spawned(jobs, nextJob, claims)[id] == jobs[id]
    decreases |claims|
  {
    if claims != [] {
      OldJobStays(jobs, nextJob, claims[..|claims| - 1], id);
    }
  }

  lemma {:induction false} NewJobAt(jobs: map<JobId, Name>, nextJob: JobId, claims: seq<Name>, i: nat)
    requires i < |claims|
    ensures nextJob + i in Spawned(jobs, nextJob, claims) && Spawned(jobs, nextJob, claims)[nextJob + i] == claims[i]
    decreases |claims|
  {
    if i < |claims| - 1 {
      NewJobAt(jobs, nextJob, claims[..|claims| - 1], i);
    }
  }

  lemma StaggerIsMonotone(i: nat, n: nat)
    requires i <= n
    ensures Stagger(i) <= Stagger(n)
  {
  }

  lemma DateRefreshKeepsStation(last: Instant, s: State, now: Instant, name: Name)
    requires Consistent(last, s) && StaggerFits(last, now, s.order) && name in s.schedules
    ensures var station := DateRefreshed(last, s.schedules, s.order, now)[name];
            DueIsRight(last, station, s.ttl) && (station.inFlight ==> HasJob(s.jobs, name))
  {
    StaggerIsMonotone(IndexOf(s.order, name), |s.order|);
    assert s.schedules[name].inFlight ==> HasJob(s.jobs, name);
  }

  lemma DateCheckKeepsConsistent(last: Instant, s: State, now: Instant, date: Option<LocalDate>)
    requires Consistent(last, s) && StaggerFits(last, now, s.order)
    ensures Consistent(last, DateChecked(last, s, now, date))
  {
    var noted := DateRefreshed(last, s.schedules, s.order, now);
    assert noted.Keys == s.schedules.Keys;
    forall name | name in noted
      ensures DueIsRight(last, noted[name], s.ttl) && (noted[name].inFlight ==> HasJob(s.jobs, name))
    {
      DateRefreshKeepsStation(last, s, now, name);
    }
  }

  lemma DispatchKeepsDeadlines(last: Instant, s: State, now: Instant, name: Name)
    requires Consistent(last, s) && name in s.schedules
    ensures name in Dispatched(last, s, now).schedules
    ensures DueIsRight(last, Dispatched(last, s, now).schedules[name], s.ttl)
  {
    assert DueIsRight(last, s.schedules[name], s.ttl);
  }

  lemma SpawningKeepsJobs(jobs: map<JobId, Name>, nextJob: JobId, claims: seq<Name>, name: Name)
    requires forall id | id in jobs :: id < nextJob
    requires name in claims || HasJob(jobs, name)
    ensures HasJob(Spawned(jobs, nextJob, claims), name)
  {
    if name in claims {
      var i :| 0 <= i < |claims| && claims[i] == name;
      NewJobAt(jobs, nextJob, claims, i);
    } else {
      var id :| id in jobs && jobs[id] == name;
      OldJobStays(jobs, nextJob, claims, id);
    }
  }

  lemma DispatchKeepsJobs(last: Instant, s: State, now: Instant, name: Name)
    requires Consistent(last, s) && name in s.schedules
    requires Dispatched(last, s, now).schedules[name].inFlight
    ensures HasJob(Dispatched(last, s, now).jobs, name)
  {
    SpawningKeepsJobs(s.jobs, s.nextJob, Claims(s.order, s.schedules, now, Available(|s.jobs|)), name);
  }

  lemma DispatchKeepsConsistent(last: Instant, s: State, now: Instant)
    requires Consistent(last, s)
    ensures Consistent(last, Dispatched(last, s, now))
  {
    var after := Dispatched(last, s, now);
    SpawnedIds(s.jobs, s.nextJob, Claims(s.order, s.schedules, now, Available(|s.jobs|)));
    SpawnedCount(s.jobs, s.nextJob, Claims(s.order, s.schedules, now, Available(|s.jobs|)));
    assert after.schedules.Keys == s.schedules.Keys;
    forall name | name in after.schedules ensures DueIsRight(last, after.schedules[name], s.ttl) {
      DispatchKeepsDeadlines(last, s, now, name);
    }
    forall name | name in after.schedules && after.schedules[name].inFlight ensures HasJob(after.jobs, name) {
      DispatchKeepsJobs(last, s, now, name);
    }
  }

  lemma ReconfigureKeepsStation(last: Instant, s: State, order: seq<Name>, ttl: Duration, now: Instant, name: Name)
    requires Consistent(last, s) && StaggerFits(last, now, order) && name in order
    ensures var station := Reconciled(last, s.schedules, order, now, ttl)[name];
            DueIsRight(last, station, ttl) && (station.inFlight ==> HasJob(s.jobs, name))
  {
    StaggerIsMonotone(IndexOf(order, name), |order|);
    if name in s.schedules {
      assert DueIsRight(last, s.schedules[name], s.ttl);
      assert s.schedules[name].inFlight ==> HasJob(s.jobs, name);
    }
  }

  lemma ReconfigureKeepsConsistent(last: Instant, s: State, order: seq<Name>, ttl: Duration, now: Instant)
    requires Consistent(last, s) && Distinct(order) && StaggerFits(last, now, order)
    ensures Consistent(last, Apply(last, s, Reconfigure(order, ttl, now)))
  {
    var after := Reconciled(last, s.schedules, order, now, ttl);
    forall name | name in after
      ensures DueIsRight(last, after[name], ttl) && (after[name].inFlight ==> HasJob(s.jobs, name))
    {
      ReconfigureKeepsStation(last, s, order, ttl, now, name);
    }
  }

  lemma FinishKeepsConsistent(last: Instant, s: State, id: JobId, at: Instant)
    requires Consistent(last, s) && id in s.jobs
    ensures Consistent(last, Apply(last, s, Finish(id, at)))
  {
    var after := Apply(last, s, Finish(id, at));
    assert after.jobs.Keys == s.jobs.Keys - {id};
    forall name | name in after.schedules && after.schedules[name].inFlight ensures HasJob(after.jobs, name) {
      var other :| other in s.jobs && s.jobs[other] == name;
      assert after.jobs[other] == name;
    }
  }

  lemma StepKeepsConsistent(last: Instant, s: State, step: Step)
    requires Consistent(last, s) && Feasible(last, s, step)
    ensures Consistent(last, Apply(last, s, step))
  {
    match step
    case Wake(now, date) =>
      DateCheckKeepsConsistent(last, s, now, date);
      DispatchKeepsConsistent(last, DateChecked(last, s, now, date), now);
    case Reconfigure(order, ttl, now) => ReconfigureKeepsConsistent(last, s, order, ttl, now);
    case Finish(id, at) => FinishKeepsConsistent(last, s, id, at);
  }

  lemma {:induction false} EveryLaterStateIsConsistent(last: Instant, s: State, steps: seq<Step>)
    requires Consistent(last, s)
    ensures Consistent(last, Run(last, s, steps))
    decreases |steps|
  {
    if steps != [] {
      var before, step := Run(last, s, steps[..|steps| - 1]), steps[|steps| - 1];
      EveryLaterStateIsConsistent(last, s, steps[..|steps| - 1]);
      if Feasible(last, before, step) {
        StepKeepsConsistent(last, before, step);
      }
    }
  }

  /**
    In every reachable state: the schedule covers exactly the wanted stations; an idle station with
    a date change noted, or never refreshed, has a finite deadline, and any other idle one is due at
    its last completion plus the current TTL; a station marked in flight has a live job that will
    clear the mark; and no more than four jobs run.
   */
  lemma EveryRunIsConsistent(
    last: Instant, order: seq<Name>, ttl: Duration, now: Instant, date: Option<LocalDate>, steps: seq<Step>)
    requires Distinct(order) && StaggerFits(last, now, order)
    ensures Consistent(last, Run(last, Started(last, order, ttl, now, date), steps))
  {
    var empty := State([], ttl, map[], map[], 0, date);
    ReconfigureKeepsConsistent(last, empty, order, ttl, now);
    assert Started(last, order, ttl, now, date) == Apply(last, empty, Reconfigure(order, ttl, now));
    EveryLaterStateIsConsistent(last, Started(last, order, ttl, now, date), steps);
  }

  // ----- Progress -----

  lemma DispatchLeavesNothingDue(last: Instant, s: State, now: Instant, name: Name)
    requires Consistent(last, s) && |Dispatched(last, s, now).jobs| < MAX_CONCURRENT_REFRESHES
    requires name in s.schedules
    ensures !IsDue(Dispatched(last, s, now).schedules[name], now)
  {
    var claims := Claims(s.order, s.schedules, now, Available(|s.jobs|));
    SpawnedCount(s.jobs, s.nextJob, claims);
    DueNamesAreDue(s.order, s.schedules, now);
  }

  lemma WaitOutlastsNoGap(schedules: Schedules, now: Instant, jobs: nat, wait: Duration, name: Name)
    requires IsSchedulerWait(wait, schedules, now, jobs) && jobs < MAX_CONCURRENT_REFRESHES
    requires name in schedules && !schedules[name].inFlight && schedules[name].nextDue.Some?
    requires !IsDue(schedules[name], now)
    ensures now + wait <= schedules[name].nextDue.value
  {
    assert Gap(schedules[name].nextDue.value, now) in IdleGaps(schedules, now);
  }

  lemma WaitIsPositive(schedules: Schedules, now: Instant, jobs: nat, wait: Duration)
    requires IsSchedulerWait(wait, schedules, now, jobs)
    requires jobs < MAX_CONCURRENT_REFRESHES ==> forall name | name in schedules :: !IsDue(schedules[name], now)
    ensures wait > 0
  {
    if jobs < MAX_CONCURRENT_REFRESHES && IdleGaps(schedules, now) != {} {
      var name :| name in schedules && !schedules[name].inFlight && schedules[name].nextDue.Some?
        && wait == Gap(schedules[name].nextDue.value, now);
      assert !IsDue(schedules[name], now);
    }
  }

  /**
    After a wake-up either all four slots are taken or no idle station is due any more; so the wait
    is never zero, and with a free slot it never outlasts the gap to an idle station's deadline.
   */
  lemma WakeLeavesNothingDue(last: Instant, s: State, now: Instant, date: Option<LocalDate>, wait: Duration)
    requires Consistent(last, s) && StaggerFits(last, now, s.order)
    ensures var t := Apply(last, s, Wake(now, date));
            && (|t.jobs| == MAX_CONCURRENT_REFRESHES
                || forall name | name in t.schedules :: !IsDue(t.schedules[name], now))
            && (IsSchedulerWait(wait, t.schedules, now, |t.jobs|) ==> wait > 0)
            && (IsSchedulerWait(wait, t.schedules, now, |t.jobs|) && |t.jobs| < MAX_CONCURRENT_REFRESHES ==>
                  forall name | name in t.schedules && !t.schedules[name].inFlight && t.schedules[name].nextDue.Some? ::
                    now + wait <= t.schedules[name].nextDue.value)
  {
    var c := DateChecked(last, s, now, date);
    DateCheckKeepsConsistent(last, s, now, date);
    var t := Dispatched(last, c, now);
    DispatchKeepsConsistent(last, c, now);
    assert t.schedules.Keys == c.schedules.Keys;
    if |t.jobs| < MAX_CONCURRENT_REFRESHES {
      forall name | name in t.schedules ensures !IsDue(t.schedules[name], now) {
        DispatchLeavesNothingDue(last, c, now, name);
      }
    }
    if IsSchedulerWait(wait, t.schedules, now, |t.jobs|) {
      WaitIsPositive(t.schedules, now, |t.jobs|, wait);
      forall name | name in t.schedules && !t.schedules[name].inFlight && t.schedules[name].nextDue.Some?
                    && |t.jobs| < MAX_CONCURRENT_REFRESHES
        ensures now + wait <= t.schedules[name].nextDue.value
      {
        WaitOutlastsNoGap(t.schedules, now, |t.jobs|, wait, name);
      }
    }
  }

  // ----- Date changes are never lost -----

  function ClaimedBy(last: Instant, s: State, step: Step): seq<Name> {
    if step.Wake? then
      var c := DateChecked(last, s, step.now, step.date);
      Claims(c.order, c.schedules, step.now, Available(|c.jobs|))
    else []
  }

  ghost predicate ClaimedDuring(last: Instant, s: State, steps: seq<Step>, name: Name)
    decreases |steps|
  {
    steps != [] && (
      var before := Run(last, s, steps[..|steps| - 1]);
      var step := steps[|steps| - 1];
      || ClaimedDuring(last, s, steps[..|steps| - 1], name)
      || (Feasible(last, before, step) && name in ClaimedBy(last, before, step)))
  }

  ghost predicate StaysWanted(last: Instant, s: State, steps: seq<Step>, name: Name)
    decreases |steps|
  {
    && name in Run(last, s, steps).order
    && (steps != [] ==> StaysWanted(last, s, steps[..|steps| - 1], name))
  }

  /** The wake-up that sees another date notes it for every station it does not claim right away. */
  lemma DateChangeIsNoted(last: Instant, s: State, now: Instant, date: LocalDate, name: Name)
    requires Consistent(last, s) && name in s.order && s.lastDate.Some? && s.lastDate != Some(date)
    ensures var step := Wake(now, Some(date)); var t := Apply(last, s, step);
            name in t.schedules && (name in ClaimedBy(last, s, step) || t.schedules[name].dateRefreshPending)
  {
  }

  lemma MarkStaysOrIsClaimed(last: Instant, s: State, step: Step, name: Name)
    requires Consistent(last, s) && Feasible(last, s, step) && name in Apply(last, s, step).order
    requires name in s.schedules && s.schedules[name].dateRefreshPending
    ensures var t := Apply(last, s, step);
            name in t.schedules && (name in ClaimedBy(last, s, step) || t.schedules[name].dateRefreshPending)
  {
  }

  /** While it is noted, an idle station's deadline is finite even under an endless TTL. */
  lemma MarkedIsFinite(last: Instant, s: State, name: Name)
    requires Consistent(last, s) && name in s.schedules && s.schedules[name].dateRefreshPending
    ensures s.schedules[name].inFlight || s.schedules[name].nextDue.Some?
  {
    assert DueIsRight(last, s.schedules[name], s.ttl);
  }

  /**
    A noted date change stays noted until the station is claimed, whatever configuration changes
    and completions happen, as long as the station stays wanted.
   */
  lemma {:induction false} MarkLastsUntilClaim(last: Instant, s: State, steps: seq<Step>, name: Name)
    requires Consistent(last, s) && name in s.schedules && s.schedules[name].dateRefreshPending
    requires StaysWanted(last, s, steps, name)
    ensures ClaimedDuring(last, s, steps, name)
            || (name in Run(last, s, steps).schedules && Run(last, s, steps).schedules[name].dateRefreshPending)
    decreases |steps|
  {
    if steps != [] {
      var front, step := steps[..|steps| - 1], steps[|steps| - 1];
      var before := Run(last, s, front);
      MarkLastsUntilClaim(last, s, front, name);
      if !ClaimedDuring(last, s, front, name) && Feasible(last, before, step) {
        EveryLaterStateIsConsistent(last, s, front);
        MarkStaysOrIsClaimed(last, before, step, name);
      }
    }
  }

  /** So it is never lost: unless it has been claimed the station is still marked, and will be due. */
  lemma NotedDateIsNeverLost(last: Instant, s: State, steps: seq<Step>, name: Name)
    requires Consistent(last, s) && name in s.schedules && s.schedules[name].dateRefreshPending
    requires StaysWanted(last, s, steps, name)
    ensures var t := Run(last, s, steps);
            && Consistent(last, t) && name in t.schedules
            && (ClaimedDuring(last, s, steps, name) || (
                  t.schedules[name].dateRefreshPending
                  && (t.schedules[name].inFlight || t.schedules[name].nextDue.Some?)))
  {
    EveryLaterStateIsConsistent(last, s, steps);
    MarkLastsUntilClaim(last, s, steps, name);
    if !ClaimedDuring(last, s, steps, name) {
      MarkedIsFinite(last, Run(last, s, steps), name);
    }
  }

  // ----- What a claim and a completion do -----

  /** No date, the first one, or the one already seen notes nothing; another one is remembered. */
  lemma SameDateNotesNothing(last: Instant, s: State, now: Instant, date: Option<LocalDate>)
    ensures NotesNothing(s, date) ==> DateChecked(last, s, now, date).schedules == s.schedules
    ensures DateChecked(last, s, now, date).lastDate == if date.Some? then date else s.lastDate
  {
  }

  predicate NotesNothing(s: State, date: Option<LocalDate>) {
    date == None || s.lastDate == None || date == s.lastDate
  }

  /** A claimed station is in flight with a job, and its mark is gone. */
  lemma ClaimTakesTheMark(last: Instant, s: State, now: Instant, date: Option<LocalDate>, name: Name)
    requires Consistent(last, s) && StaggerFits(last, now, s.order) && name in ClaimedBy(last, s, Wake(now, date))
    ensures var t := Apply(last, s, Wake(now, date));
            && name in t.schedules && t.schedules[name].inFlight && !t.schedules[name].dateRefreshPending
            && HasJob(t.jobs, name)
  {
    var c := DateChecked(last, s, now, date);
    DateCheckKeepsConsistent(last, s, now, date);
    DispatchKeepsConsistent(last, c, now);
    DueNamesAreDue(c.order, c.schedules, now);
    assert Apply(last, s, Wake(now, date)) == Dispatched(last, c, now);
  }

  /** No configuration change, no other date, and no end of a job of the station. */
  ghost predicate IsQuiet(last: Instant, s: State, steps: seq<Step>, name: Name)
    decreases |steps|
  {
    steps != [] ==>
      && IsQuiet(last, s, steps[..|steps| - 1], name)
      && QuietStep(Run(last, s, steps[..|steps| - 1]), steps[|steps| - 1], name)
  }

  predicate QuietStep(s: State, step: Step, name: Name) {
    match step
    case Wake(_, date) => NotesNothing(s, date)
    case Reconfigure(_, _, _) => false
    case Finish(id, _) => id in s.jobs ==> s.jobs[id] != name
  }

  lemma QuietStepKeeps(last: Instant, s: State, step: Step, name: Name)
    requires QuietStep(s, step, name) && name in s.schedules && s.schedules[name].inFlight
    ensures var t := Apply(last, s, step);
            name in t.schedules && t.schedules[name] == s.schedules[name] && t.ttl == s.ttl
  {
    if step.Wake? {
      SameDateNotesNothing(last, s, step.now, step.date);
      var c := DateChecked(last, s, step.now, step.date);
      DueNamesAreDue(c.order, c.schedules, step.now);
    }
  }

  lemma {:induction false} QuietKeeps(last: Instant, s: State, steps: seq<Step>, name: Name)
    requires IsQuiet(last, s, steps, name) && name in s.schedules && s.schedules[name].inFlight
    ensures var t := Run(last, s, steps);
            name in t.schedules && t.schedules[name] == s.schedules[name] && t.ttl == s.ttl
    decreases |steps|
  {
    if steps != [] {
      var before, step := Run(last, s, steps[..|steps| - 1]), steps[|steps| - 1];
      QuietKeeps(last, s, steps[..|steps| - 1], name);
      QuietStepKeeps(last, before, step, name);
    }
  }

  /**
    So one date change causes one refresh: a claimed station whose job ends before anything new is
    noted is idle, unmarked, and due again one TTL later, or never if that is out of range.
   */
  lemma OneRefreshPerClaim(
    last: Instant, s: State, wake: Step, t: State, steps: seq<Step>, id: JobId, at: Instant, name: Name)
    requires Consistent(last, s) && wake.Wake? && Feasible(last, s, wake) && t == Apply(last, s, wake)
    requires name in ClaimedBy(last, s, wake) && IsQuiet(last, t, steps, name)
    requires id in Run(last, t, steps).jobs && Run(last, t, steps).jobs[id] == name
    ensures var u := Apply(last, Run(last, t, steps), Finish(id, at));
            name in u.schedules &&
            u.schedules[name] == StationSchedule(Some(at), if at + t.ttl <= last then Some(at + t.ttl) else None, false, false)
  {
    ClaimTakesTheMark(last, s, wake.now, wake.date, name);
    QuietCompletion(last, t, steps, id, at, name);
  }

  lemma QuietCompletion(last: Instant, s: State, steps: seq<Step>, id: JobId, at: Instant, name: Name)
    requires IsQuiet(last, s, steps, name) && name in s.schedules
    requires s.schedules[name].inFlight && !s.schedules[name].dateRefreshPending
    requires id in Run(last, s, steps).jobs && Run(last, s, steps).jobs[id] == name
    ensures var t := Apply(last, Run(last, s, steps), Finish(id, at));
            name in t.schedules &&
            t.schedules[name] == StationSchedule(Some(at), if at + s.ttl <= last then Some(at + s.ttl) else None, false, false)
  {
    QuietKeeps(last, s, steps, name);
    UnmarkedFinish(last, Run(last, s, steps), id, at);
  }

  lemma UnmarkedFinish(last: Instant, s: State, id: JobId, at: Instant)
    requires id in s.jobs && s.jobs[id] in s.schedules && !s.schedules[s.jobs[id]].dateRefreshPending
    ensures var t := Apply(last, s, Finish(id, at));
            s.jobs[id] in t.schedules
            && t.schedules[s.jobs[id]]
               == StationSchedule(Some(at), if at + s.ttl <= last then Some(at + s.ttl) else None, false, false)
  {
  }

  /** A station whose date changed while its job ran is due at the moment the job ends. */
  lemma MarkedInFlightIsDueAtOnce(last: Instant, s: State, id: JobId, at: Instant)
    requires id in s.jobs && s.jobs[id] in s.schedules && s.schedules[s.jobs[id]].dateRefreshPending
    ensures var name := s.jobs[id];
            Apply(last, s, Finish(id, at)).schedules[name] == StationSchedule(Some(at), Some(at), false, true)
  {
  }

  // ----- One job per station -----

  function JobsFor(jobs: map<JobId, Name>, name: Name): set<JobId> {
    set id | id in jobs && jobs[id] == name
  }

  function JobsOf(s: State, name: Name): set<JobId> {
    JobsFor(s.jobs, name)
  }

  /** The station has a job exactly while it is marked in flight, and then only one. */
  ghost predicate Single(s: State, name: Name) {
    && |JobsOf(s, name)| <= 1
    && (JobsOf(s, name) != {} <==> name in s.schedules && s.schedules[name].inFlight)
  }

  /** The step does not drop the station from the configuration while a job for it runs. */
  predicate Spares(s: State, step: Step, name: Name) {
    step.Reconfigure? && name !in step.order ==> JobsOf(s, name) == {}
  }

  lemma StepKeepsSingle(last: Instant, s: State, step: Step, name: Name)
    requires Consistent(last, s) && Feasible(last, s, step) && Single(s, name) && Spares(s, step, name)
    ensures Single(Apply(last, s, step), name)
  {
    match step
    case Wake(now, date) => DispatchKeepsSingle(last, DateChecked(last, s, now, date), now, name);
    case Reconfigure(_, _, _) =>
    case Finish(id, at) =>
      var after := Apply(last, s, step);
      assert JobsOf(after, name) == JobsOf(s, name) - {id};
      if s.jobs[id] == name {
        OneElement(JobsOf(s, name), id);
      }
  }

  lemma OneElement(ids: set<JobId>, id: JobId)
    requires |ids| <= 1 && id in ids
    ensures ids == {id}
  {
    assert |ids - {id}| == |ids| - 1;
  }

  lemma DispatchKeepsSingle(last: Instant, s: State, now: Instant, name: Name)
    requires Distinct(s.order) && (forall id | id in s.jobs :: id < s.nextJob) && Single(s, name)
    ensures Single(Dispatched(last, s, now), name)
  {
    var claims := Claims(s.order, s.schedules, now, Available(|s.jobs|));
    DueNamesAreDue(s.order, s.schedules, now);
    DueNamesAreDistinct(s.order, s.schedules, now);
    var id := SpawnedFor(s.jobs, s.nextJob, claims, name);
    if name in claims {
      assert !s.schedules[name].inFlight;
    }
  }

  /** Claiming distinct stations starts one job for each of them and none for the others. */
  lemma SpawnedFor(jobs: map<JobId, Name>, nextJob: JobId, claims: seq<Name>, name: Name) returns (id: JobId)
    requires Distinct(claims) && forall id | id in jobs :: id < nextJob
    ensures id !in jobs
    ensures JobsFor(Spawned(jobs, nextJob, claims), name) ==
            if name in claims then JobsFor(jobs, name) + {id} else JobsFor(jobs, name)
  {
    id := nextJob;
    if name in claims {
      var i :| 0 <= i < |claims| && claims[i] == name;
      id := nextJob + i;
    }
    forall other: JobId
      ensures other in JobsFor(Spawned(jobs, nextJob, claims), name)
              <==> other in JobsFor(jobs, name) || (name in claims && other == id)
    {
      IsJobFor(jobs, nextJob, claims, name, id, other);
    }
  }

  lemma IsJobFor(jobs: map<JobId, Name>, nextJob: JobId, claims: seq<Name>, name: Name, id: JobId, other: JobId)
    requires Distinct(claims) && forall id | id in jobs :: id < nextJob
    requires name in claims ==> nextJob <= id < nextJob + |claims| && claims[id - nextJob] == name
    ensures other in JobsFor(Spawned(jobs, nextJob, claims), name)
            <==> other in JobsFor(jobs, name) || (name in claims && other == id)
  {
    SpawnedIds(jobs, nextJob, claims);
    if other in jobs {
      OldJobStays(jobs, nextJob, claims, other);
    } else if nextJob <= other < nextJob + |claims| {
      NewJobAt(jobs, nextJob, claims, other - nextJob);
    }
  }

  ghost predicate AllSpare(last: Instant, s: State, steps: seq<Step>, name: Name)
    decreases |steps|
  {
    steps != [] ==>
      && AllSpare(last, s, steps[..|steps| - 1], name)
      && Spares(Run(last, s, steps[..|steps| - 1]), steps[|steps| - 1], name)
  }

  lemma RunAppend(last: Instant, s: State, steps: seq<Step>, step: Step)
    ensures var t := Run(last, s, steps);
            Run(last, s, steps + [step]) == if Feasible(last, t, step) then Apply(last, t, step) else t
  {
    assert (steps + [step])[..|steps|] == steps;
  }

  lemma SpareAppend(last: Instant, s: State, steps: seq<Step>, step: Step, name: Name)
    requires AllSpare(last, s, steps, name) && Spares(Run(last, s, steps), step, name)
    ensures AllSpare(last, s, steps + [step], name)
  {
    assert (steps + [step])[..|steps|] == steps;
  }

  lemma {:induction false} SingleStays(last: Instant, s: State, steps: seq<Step>, name: Name)
    requires Consistent(last, s) && Single(s, name) && AllSpare(last, s, steps, name)
    ensures Consistent(last, Run(last, s, steps)) && Single(Run(last, s, steps), name)
    decreases |steps|
  {
    if steps != [] {
      var before, step := Run(last, s, steps[..|steps| - 1]), steps[|steps| - 1];
      SingleStays(last, s, steps[..|steps| - 1], name);
      if Feasible(last, before, step) {
        StepKeepsConsistent(last, before, step);
        StepKeepsSingle(last, before, step, name);
      }
    }
  }

  /** A station that is only ever dropped while no job for it runs never has two jobs at once. */
  lemma AtMostOneJob(
    last: Instant, order: seq<Name>, ttl: Duration, now: Instant, date: Option<LocalDate>, steps: seq<Step>, name: Name)
    requires Distinct(order) && StaggerFits(last, now, order)
    requires AllSpare(last, Started(last, order, ttl, now, date), steps, name)
    ensures Single(Run(last, Started(last, order, ttl, now, date), steps), name)
  {
    var s := Started(last, order, ttl, now, date);
    EveryRunIsConsistent(last, order, ttl, now, date, []);
    assert JobsOf(s, name) == {};
    SingleStays(last, s, steps, name);
  }

  // ----- When a station can have two jobs -----

  /** From `s` on, a run that never again drops the station with a job running gives it two jobs. */
  ghost predicate CanDouble(last: Instant, s: State, name: Name) {
    exists steps :: AllSpare(last, s, steps, name) && |JobsOf(Run(last, s, steps), name)| > 1
  }

  /** With all slots taken, the job of another station has to end first. */
  lemma FreeSlot(last: Instant, s: State, now: Instant, name: Name) returns (steps: seq<Step>)
    requires Consistent(last, s) && |JobsOf(s, name)| <= 1
    ensures AllSpare(last, s, steps, name)
    ensures var t := Run(last, s, steps);
            && Consistent(last, t) && t.order == s.order
            && JobsOf(t, name) == JobsOf(s, name) && |t.jobs| < MAX_CONCURRENT_REFRESHES
  {
    steps := [];
    if |s.jobs| == MAX_CONCURRENT_REFRESHES {
      var other := OtherJob(s, name);
      var step := Finish(other, now);
      FinishKeepsConsistent(last, s, other, now);
      assert [] + [step] == [step];
      RunAppend(last, s, [], step);
      SpareAppend(last, s, [], step, name);
      var t := Apply(last, s, step);
      assert t.jobs == s.jobs - {other} && t.jobs.Keys == s.jobs.Keys - {other};
      assert JobsOf(t, name) == JobsOf(s, name);
      steps := [step];
    }
  }

  lemma OtherJob(s: State, name: Name) returns (other: JobId)
    requires |JobsOf(s, name)| <= 1 < |s.jobs|
    ensures other in s.jobs && s.jobs[other] != name
  {
    var ids, own := s.jobs.Keys, JobsOf(s, name);
    assert own <= ids && |ids - own| == |ids| - |own|;
    other :| other in ids - own;
  }

  lemma EnabledAgain(last: Instant, s: State, ttl: Duration, now: Instant, name: Name) returns (t: State)
    requires Consistent(last, s) && name !in s.order && now + STAGGER <= last
    ensures Feasible(last, s, Reconfigure([name], ttl, now)) && t == Apply(last, s, Reconfigure([name], ttl, now))
    ensures Consistent(last, t) && t.jobs == s.jobs && t.nextJob == s.nextJob
    ensures t.order == [name] && name in t.schedules && IsDue(t.schedules[name], now)
  {
    t := Apply(last, s, Reconfigure([name], ttl, now));
    ReconfigureKeepsConsistent(last, s, [name], ttl, now);
    assert t.schedules[name] == NewStation(last, now, 0);
  }

  lemma ClaimsTheOnlyStation(last: Instant, s: State, now: Instant, name: Name)
    requires s.order == [name] && name in s.schedules && IsDue(s.schedules[name], now)
    requires |s.jobs| < MAX_CONCURRENT_REFRESHES
    ensures Claims(s.order, s.schedules, now, Available(|s.jobs|)) == [name]
  {
    assert DueNames([name][1..], s.schedules, now) == [];
    assert DueNames([name], s.schedules, now) == [name];
  }

  lemma SecondJob(last: Instant, s: State, now: Instant, name: Name)
    requires Consistent(last, s) && s.order == [name] && name in s.schedules && IsDue(s.schedules[name], now)
    requires |s.jobs| < MAX_CONCURRENT_REFRESHES && now + STAGGER <= last
    ensures Feasible(last, s, Wake(now, None))
    ensures |JobsOf(Apply(last, s, Wake(now, None)), name)| == |JobsOf(s, name)| + 1
  {
    ClaimsTheOnlyStation(last, s, now, name);
    var id := SpawnedFor(s.jobs, s.nextJob, [name], name);
    assert id !in JobsOf(s, name);
  }

  /** Enabling the dropped station again and waking the loop gives it one more job. */
  lemma EnablingDoubles(last: Instant, s: State, ttl: Duration, now: Instant, name: Name)
    requires Consistent(last, s) && name !in s.order && now + STAGGER <= last
    requires |JobsOf(s, name)| == 1
    ensures CanDouble(last, s, name)
  {
    var steps := FreeSlot(last, s, now, name);
    var free := Run(last, s, steps);
    var more := SecondJobFrom(last, free, ttl, now, name);
    RunTwo(last, s, steps, more.0, more.1, name);
  }

  lemma SecondJobFrom(last: Instant, s: State, ttl: Duration, now: Instant, name: Name) returns (more: (Step, Step))
    requires Consistent(last, s) && name !in s.order && now + STAGGER <= last
    requires |JobsOf(s, name)| == 1 && |s.jobs| < MAX_CONCURRENT_REFRESHES
    ensures Feasible(last, s, more.0) && Spares(s, more.0, name)
    ensures var t := Apply(last, s, more.0); Feasible(last, t, more.1) && Spares(t, more.1, name)
    ensures |JobsOf(Apply(last, Apply(last, s, more.0), more.1), name)| == 2
  {
    var t := EnabledAgain(last, s, ttl, now, name);
    SecondJob(last, t, now, name);
    assert JobsOf(t, name) == JobsOf(s, name);
    more := (Reconfigure([name], ttl, now), Wake(now, None));
  }

  lemma RunTwo(last: Instant, s: State, steps: seq<Step>, a: Step, b: Step, name: Name)
    requires AllSpare(last, s, steps, name)
    requires var t := Run(last, s, steps);
             && Feasible(last, t, a) && Spares(t, a, name)
             && Feasible(last, Apply(last, t, a), b) && Spares(Apply(last, t, a), b, name)
    ensures AllSpare(last, s, steps + [a] + [b], name)
    ensures Run(last, s, steps + [a] + [b]) == Apply(last, Apply(last, Run(last, s, steps), a), b)
  {
    RunAppend(last, s, steps, a);
    SpareAppend(last, s, steps, a, name);
    RunAppend(last, s, steps + [a], b);
    SpareAppend(last, s, steps + [a], b, name);
  }

  /**
    Dropping a station while a job for it runs is the one way to two jobs: in every run that never
    did so before, a configuration change that drops the station leaves it able to have two jobs
    if and only if it has a job at that moment.
   */
  lemma DroppedInFlightCanDouble(
    last: Instant, order: seq<Name>, ttl: Duration, now: Instant, date: Option<LocalDate>, steps: seq<Step>,
    drop: Step, name: Name)
    requires Distinct(order) && StaggerFits(last, now, order)
    requires AllSpare(last, Started(last, order, ttl, now, date), steps, name)
    requires drop.Reconfigure? && name !in drop.order && drop.now + STAGGER <= last
    requires Feasible(last, Run(last, Started(last, order, ttl, now, date), steps), drop)
    ensures var s := Run(last, Started(last, order, ttl, now, date), steps);
            CanDouble(last, Apply(last, s, drop), name) <==> JobsOf(s, name) != {}
  {
    AtMostOneJob(last, order, ttl, now, date, steps, name);
    EveryRunIsConsistent(last, order, ttl, now, date, steps);
    var s := Run(last, Started(last, order, ttl, now, date), steps);
    DropDecides(last, s, drop.order, drop.ttl, drop.now, name);
  }

  lemma DropDecides(last: Instant, s: State, order: seq<Name>, ttl: Duration, now: Instant, name: Name)
    requires Consistent(last, s) && Single(s, name) && Distinct(order) && StaggerFits(last, now, order)
    requires name !in order && now + STAGGER <= last
    ensures CanDouble(last, Apply(last, s, Reconfigure(order, ttl, now)), name) <==> JobsOf(s, name) != {}
  {
    var t := Apply(last, s, Reconfigure(order, ttl, now));
    ReconfigureKeepsConsistent(last, s, order, ttl, now);
    assert JobsOf(t, name) == JobsOf(s, name);
    if JobsOf(s, name) != {} {
      var id :| id in JobsOf(s, name);
      OneElement(JobsOf(s, name), id);
      EnablingDoubles(last, t, ttl, now, name);
    } else {
      forall more | AllSpare(last, t, more, name) ensures |JobsOf(Run(last, t, more), name)| <= 1 {
        SingleStays(last, t, more, name);
      }
    }
  }
}
