/**
  Coalescing of concurrent calls with the same key: a reference-counted table of flights, and one
  cell per flight that is initialized by one participant at a time, set once, and passed on to
  another participant when the one at work is cancelled.
 */
module Singleflight {
  import opened Common

  datatype Key = Key(text: string)
  type FlightId = nat
  type LeaseId = nat

  datatype Entry = Entry(flight: FlightId, participants: nat)
  datatype Lease = Lease(key: Key, flight: FlightId)

  type Flights = map<Key, Entry>

  // ----- The table -----

  function JoinedFlight(flights: Flights, key: Key, unused: FlightId): FlightId {
    if key in flights then flights[key].flight else unused
  }

  function Joined(flights: Flights, key: Key, unused: FlightId): Flights {
    flights[key := Entry(JoinedFlight(flights, key, unused), if key in flights then flights[key].participants + 1 else 1)]
  }

  /** A lease gives back its place only while its own flight is still the one in the table. */
  function Left(flights: Flights, lease: Lease): Flights {
    if lease.key in flights && flights[lease.key].flight == lease.flight then
      if flights[lease.key].participants <= 1 then flights - {lease.key}
      else flights[lease.key := Entry(lease.flight, flights[lease.key].participants - 1)]
    else flights
  }

  class FlightTable {
    var flights: Flights
    var next: FlightId

    constructor ()
      ensures flights == map[] && next == 0
    {
      flights, next := map[], 0;
    }

    method Join(key: Key) returns (lease: Lease)
      modifies this
      ensures flights == Joined(old(flights), key, old(next))
      ensures lease == Lease(key, JoinedFlight(old(flights), key, old(next)))
      ensures next == if key in old(flights) then old(next) else old(next) + 1
    {
      if key in flights {
        var entry := flights[key];
        flights := flights[key := entry.(participants := entry.participants + 1)];
        return Lease(key, entry.flight);
      }
      var flight := next;
      next := next + 1;
      flights := flights[key := Entry(flight, 1)];
      return Lease(key, flight);
    }

    method Drop(lease: Lease)
      requires lease.key in flights && flights[lease.key].flight == lease.flight ==> flights[lease.key].participants > 0
      modifies this`flights
      ensures flights == Left(old(flights), lease)
    {
      var remove := false;
      if lease.key in flights && flights[lease.key].flight == lease.flight {
        var entry := flights[lease.key];
        entry := entry.(participants := entry.participants - 1);
        remove := entry.participants == 0;
        flights := flights[lease.key := entry];
      }
      if remove {
        flights := flights - {lease.key};
      }
    }
  }

  // ----- The protocol -----

  datatype Value = Success(value: int) | Failure(message: string)

  datatype Cell = Empty | Running(lease: LeaseId) | Done(value: Value)

  datatype State = State(
    flights: Flights,
    nextFlight: FlightId,
    leases: map<LeaseId, Lease>,
    nextLease: LeaseId,
    cells: map<FlightId, Cell>,
    // What has happened so far.
    starts: map<FlightId, nat>,
    cancels: map<FlightId, nat>,
    returned: map<LeaseId, (FlightId, Value)>)

  datatype Step =
    | Join(key: Key)
    | StartWork(lease: LeaseId)
    | EndWork(lease: LeaseId, value: Value)
    | Cancel(lease: LeaseId)
    | Return(lease: LeaseId)

  function Initial(): State {
    State(map[], 0, map[], 0, map[], map[], map[], map[])
  }

  predicate Live(s: State, lease: LeaseId) {
    lease in s.leases && s.leases[lease].flight in s.cells
      && s.leases[lease].flight in s.starts && s.leases[lease].flight in s.cancels
  }

  function CellOf(s: State, lease: LeaseId): Cell
    requires Live(s, lease)
  {
    s.cells[s.leases[lease].flight]
  }

  predicate Enabled(s: State, step: Step) {
    match step
    case Join(_) => true
    case StartWork(lease) => Live(s, lease) && CellOf(s, lease) == Empty
    case EndWork(lease, _) => Live(s, lease) && CellOf(s, lease) == Running(lease)
    case Cancel(lease) => Live(s, lease)
    case Return(lease) => Live(s, lease) && CellOf(s, lease).Done?
  }

  function DropLease(s: State, lease: LeaseId): State
    requires lease in s.leases
  {
    s.(flights := Left(s.flights, s.leases[lease]), leases := s.leases - {lease})
  }

  function Apply(s: State, step: Step): State
    requires Enabled(s, step)
  {
    match step
    case Join(key) =>
      var flight := JoinedFlight(s.flights, key, s.nextFlight);
      var joined := s.(flights := Joined(s.flights, key, s.nextFlight),
                       leases := s.leases[s.nextLease := Lease(key, flight)], nextLease := s.nextLease + 1);
      if key in s.flights then joined
      else joined.(nextFlight := s.nextFlight + 1, cells := s.cells[flight := Empty],
                   starts := s.starts[flight := 0], cancels := s.cancels[flight := 0])
    case StartWork(lease) =>
      var flight := s.leases[lease].flight;
      s.(cells := s.cells[flight := Running(lease)], starts := s.starts[flight := s.starts[flight] + 1])
    case EndWork(lease, value) => s.(cells := s.cells[s.leases[lease].flight := Done(value)])
    case Cancel(lease) =>
      var flight := s.leases[lease].flight;
      var dropped := DropLease(s, lease);
      if s.cells[flight] == Running(lease)
      then dropped.(cells := s.cells[flight := Empty], cancels := s.cancels[flight := s.cancels[flight] + 1])
      else dropped
    case Return(lease) =>
      var flight := s.leases[lease].flight;
      DropLease(s, lease).(returned := s.returned[lease := (flight, s.cells[flight].value)])
  }

  function Run(s: State, steps: seq<Step>): State
    decreases |steps|
  {
    if steps == [] then s
    else
      var before := Run(s, steps[..|steps| - 1]);
      var step := steps[|steps| - 1];
      if Enabled(before, step) then Apply(before, step) else before
  }

  // ----- The invariant -----

  /** The live leases that were taken on a key. */
  function LeasesOn(leases: map<LeaseId, Lease>, key: Key): set<LeaseId> {
    set id | id in leases && leases[id].key == key
  }

  /** The lease points at the entry that its key has now. */
  predicate IsCurrent(flights: Flights, lease: Lease) {
    lease.key in flights && flights[lease.key].flight == lease.flight
  }

  /** Each entry counts the live leases on its key, and every live lease points at the current entry. */
  ghost predicate Counted(s: State) {
    && (forall id | id in s.leases :: IsCurrent(s.flights, s.leases[id]))
    && (forall key | key in s.flights :: s.flights[key].participants == |LeasesOn(s.leases, key)| > 0)
    && (forall id | id in s.leases :: id < s.nextLease)
  }

  ghost predicate FlightsApart(s: State) {
    && (forall key | key in s.flights :: s.flights[key].flight < s.nextFlight)
    && (forall a, b | a in s.flights && b in s.flights && s.flights[a].flight == s.flights[b].flight :: a == b)
  }

  ghost predicate CellsSound(s: State) {
    && (forall flight: FlightId :: flight in s.cells <==> flight < s.nextFlight)
    && s.starts.Keys == s.cells.Keys && s.cancels.Keys == s.cells.Keys
    && (forall flight | flight in s.cells && s.cells[flight].Running? ::
          s.cells[flight].lease in s.leases && s.leases[s.cells[flight].lease].flight == flight)
    && (forall flight | flight in s.cells ::
          s.starts[flight] == s.cancels[flight] + if s.cells[flight].Empty? then 0 else 1)
    && (forall id | id in s.returned ::
          s.returned[id].0 in s.cells && s.cells[s.returned[id].0] == Done(s.returned[id].1))
  }

  ghost predicate Consistent(s: State) {
    Counted(s) && FlightsApart(s) && CellsSound(s)
  }

  lemma LeaseAdded(leases: map<LeaseId, Lease>, id: LeaseId, lease: Lease, key: Key)
    requires id !in leases
    ensures LeasesOn(leases[id := lease], key) ==
            if key == lease.key then LeasesOn(leases, key) + {id} else LeasesOn(leases, key)
    ensures |LeasesOn(leases[id := lease], key)| == |LeasesOn(leases, key)| + if key == lease.key then 1 else 0
  {
    assert id !in LeasesOn(leases, key);
  }

  lemma JoinCounts(s: State, key: Key, other: Key)
    requires Counted(s) && other in Joined(s.flights, key, s.nextFlight)
    ensures var t := Apply(s, Join(key)); t.flights[other].participants == |LeasesOn(t.leases, other)| > 0
  {
    LeaseAdded(s.leases, s.nextLease, Lease(key, JoinedFlight(s.flights, key, s.nextFlight)), other);
    if key !in s.flights {
      assert LeasesOn(s.leases, key) == {};
    }
  }

  lemma JoinKeepsCurrent(flights: Flights, key: Key, unused: FlightId, lease: Lease)
    requires IsCurrent(flights, lease)
    ensures IsCurrent(Joined(flights, key, unused), lease)
  {
  }

  lemma JoinKeepsCounted(s: State, key: Key)
    requires Consistent(s)
    ensures Counted(Apply(s, Join(key)))
  {
    var t := Apply(s, Join(key));
    var lease := Lease(key, JoinedFlight(s.flights, key, s.nextFlight));
    assert t.flights == Joined(s.flights, key, s.nextFlight) && t.leases == s.leases[s.nextLease := lease];
    forall other | other in t.flights ensures t.flights[other].participants == |LeasesOn(t.leases, other)| > 0 {
      JoinCounts(s, key, other);
    }
    forall id | id in t.leases ensures IsCurrent(t.flights, t.leases[id]) {
      if id != s.nextLease {
        JoinKeepsCurrent(s.flights, key, s.nextFlight, s.leases[id]);
      }
    }
  }

  lemma JoinedFlightsApart(flights: Flights, key: Key, unused: FlightId, a: Key, b: Key)
    requires forall k | k in flights :: flights[k].flight < unused
    requires forall k, l | k in flights && l in flights && flights[k].flight == flights[l].flight :: k == l
    requires a in Joined(flights, key, unused) && b in Joined(flights, key, unused)
    requires Joined(flights, key, unused)[a].flight == Joined(flights, key, unused)[b].flight
    ensures a == b
  {
  }

  lemma JoinKeepsApart(s: State, key: Key)
    requires FlightsApart(s)
    ensures FlightsApart(Apply(s, Join(key)))
  {
    var t := Apply(s, Join(key));
    assert t.flights == Joined(s.flights, key, s.nextFlight);
    forall a, b | a in t.flights && b in t.flights && t.flights[a].flight == t.flights[b].flight ensures a == b {
      JoinedFlightsApart(s.flights, key, s.nextFlight, a, b);
    }
  }

  lemma LeaseDropped(leases: map<LeaseId, Lease>, id: LeaseId, key: Key)
    requires id in leases
    ensures LeasesOn(leases - {id}, key) == LeasesOn(leases, key) - {id}
    ensures |LeasesOn(leases - {id}, key)| == |LeasesOn(leases, key)| - if key == leases[id].key then 1 else 0
  {
    assert id in LeasesOn(leases, key) <==> key == leases[id].key;
    assert id !in LeasesOn(leases, key) ==> LeasesOn(leases, key) - {id} == LeasesOn(leases, key);
  }

  lemma DropCounts(s: State, lease: LeaseId, other: Key)
    requires Counted(s) && lease in s.leases && other in DropLease(s, lease).flights
    ensures var t := DropLease(s, lease); t.flights[other].participants == |LeasesOn(t.leases, other)| > 0
  {
    LeaseDropped(s.leases, lease, other);
  }

  lemma DropKeepsLeases(s: State, lease: LeaseId, id: LeaseId)
    requires Counted(s) && lease in s.leases && id in DropLease(s, lease).leases
    ensures var t := DropLease(s, lease);
            id < t.nextLease && IsCurrent(t.flights, t.leases[id])
  {
    var key := s.leases[lease].key;
    LeaseDropped(s.leases, lease, key);
    assert s.leases[id].key == key ==> id in LeasesOn(s.leases - {lease}, key);
  }

  lemma DropKeepsApart(s: State, lease: LeaseId)
    requires FlightsApart(s) && lease in s.leases
    ensures FlightsApart(DropLease(s, lease))
  {
  }

  lemma DropKeepsCounted(s: State, lease: LeaseId)
    requires Consistent(s) && lease in s.leases
    ensures Counted(DropLease(s, lease)) && FlightsApart(DropLease(s, lease))
  {
    var t := DropLease(s, lease);
    forall other | other in t.flights ensures t.flights[other].participants == |LeasesOn(t.leases, other)| > 0 {
      DropCounts(s, lease, other);
    }
    forall id | id in t.leases ensures id < t.nextLease && IsCurrent(t.flights, t.leases[id]) {
      DropKeepsLeases(s, lease, id);
    }
    DropKeepsApart(s, lease);
  }

  lemma JoinOldKeepsCells(s: State, key: Key)
    requires Consistent(s) && key in s.flights
    ensures CellsSound(Apply(s, Join(key)))
  {
  }

  lemma JoinNewKeepsCells(s: State, key: Key)
    requires Consistent(s) && key !in s.flights
    ensures CellsSound(Apply(s, Join(key)))
  {
  }

  lemma StartKeepsCells(s: State, lease: LeaseId)
    requires Consistent(s) && Enabled(s, StartWork(lease))
    ensures CellsSound(Apply(s, StartWork(lease)))
  {
  }

  lemma EndKeepsCells(s: State, lease: LeaseId, value: Value)
    requires Consistent(s) && Enabled(s, EndWork(lease, value))
    ensures CellsSound(Apply(s, EndWork(lease, value)))
  {
  }

  lemma DropKeepsWorkers(s: State, lease: LeaseId, flight: FlightId)
    requires CellsSound(s) && lease in s.leases && flight in s.cells && s.cells[flight].Running?
    requires s.cells[flight].lease != lease
    ensures var t := DropLease(s, lease);
            s.cells[flight].lease in t.leases && t.leases[s.cells[flight].lease].flight == flight
  {
  }

  lemma CancelWorkKeepsCells(s: State, lease: LeaseId)
    requires Consistent(s) && Enabled(s, Cancel(lease)) && CellOf(s, lease) == Running(lease)
    ensures CellsSound(Apply(s, Cancel(lease)))
  {
    var t := Apply(s, Cancel(lease));
    forall flight | flight in t.cells && t.cells[flight].Running?
      ensures t.cells[flight].lease in t.leases && t.leases[t.cells[flight].lease].flight == flight
    {
      DropKeepsWorkers(s, lease, flight);
    }
  }

  lemma CancelWaitKeepsCells(s: State, lease: LeaseId)
    requires Consistent(s) && Enabled(s, Cancel(lease)) && CellOf(s, lease) != Running(lease)
    ensures CellsSound(Apply(s, Cancel(lease)))
  {
  }

  lemma ReturnKeepsCells(s: State, lease: LeaseId)
    requires Consistent(s) && Enabled(s, Return(lease))
    ensures CellsSound(Apply(s, Return(lease)))
  {
  }

  lemma JoinKeepsConsistent(s: State, key: Key)
    requires Consistent(s)
    ensures Consistent(Apply(s, Join(key)))
  {
    JoinKeepsCounted(s, key);
    JoinKeepsApart(s, key);
    if key in s.flights {
      JoinOldKeepsCells(s, key);
    } else {
      JoinNewKeepsCells(s, key);
    }
  }

  lemma CancelKeepsConsistent(s: State, lease: LeaseId)
    requires Consistent(s) && Enabled(s, Cancel(lease))
    ensures Consistent(Apply(s, Cancel(lease)))
  {
    DropKeepsCounted(s, lease);
    if CellOf(s, lease) == Running(lease) {
      CancelWorkKeepsCells(s, lease);
    } else {
      CancelWaitKeepsCells(s, lease);
    }
  }

  lemma ReturnKeepsConsistent(s: State, lease: LeaseId)
    requires Consistent(s) && Enabled(s, Return(lease))
    ensures Consistent(Apply(s, Return(lease)))
  {
    DropKeepsCounted(s, lease);
    ReturnKeepsCells(s, lease);
  }

  lemma StepKeepsConsistent(s: State, step: Step)
    requires Consistent(s) && Enabled(s, step)
    ensures Consistent(Apply(s, step))
  {
    match step
    case Join(key) => JoinKeepsConsistent(s, key);
    case StartWork(lease) => StartKeepsCells(s, lease);
    case EndWork(lease, value) => EndKeepsCells(s, lease, value);
    case Cancel(lease) => CancelKeepsConsistent(s, lease);
    case Return(lease) => ReturnKeepsConsistent(s, lease);
  }

  /**
    In every state of every run an entry exists exactly while leases on its key are live and counts
    them, every live lease points at the current entry of its key, and the callers that have
    returned from a flight have its one result.
   */
  lemma {:induction false} EveryRunIsConsistent(steps: seq<Step>)
    ensures Consistent(Run(Initial(), steps))
    decreases |steps|
  {
    if steps != [] {
      EveryRunIsConsistent(steps[..|steps| - 1]);
      var before, step := Run(Initial(), steps[..|steps| - 1]), steps[|steps| - 1];
      if Enabled(before, step) {
        StepKeepsConsistent(before, step);
      }
    }
  }

  // ----- What callers rely on -----

  /** The entry of a key is there exactly while some lease on the key is live. */
  lemma EntryWhileLeased(steps: seq<Step>, key: Key)
    ensures var s := Run(Initial(), steps);
            (key in s.flights <==> exists id :: id in s.leases && s.leases[id].key == key)
  {
    EveryRunIsConsistent(steps);
    var s := Run(Initial(), steps);
    if key in s.flights {
      assert LeasesOn(s.leases, key) != {};
      var id :| id in LeasesOn(s.leases, key);
    }
  }

  /** All callers that return from one flight get the same result. */
  lemma SameFlightSameResult(steps: seq<Step>, a: LeaseId, b: LeaseId)
    requires var s := Run(Initial(), steps);
             a in s.returned && b in s.returned && s.returned[a].0 == s.returned[b].0
    ensures var s := Run(Initial(), steps); s.returned[a].1 == s.returned[b].1
  {
    EveryRunIsConsistent(steps);
  }

  /** Work on a flight starts once more than it was cancelled, at most; and once it is done, never again. */
  lemma WorkStartsOnce(steps: seq<Step>, flight: FlightId)
    requires flight in Run(Initial(), steps).cells
    ensures var s := Run(Initial(), steps);
            && flight in s.starts && flight in s.cancels
            && s.cancels[flight] <= s.starts[flight] <= s.cancels[flight] + 1
            && (s.cells[flight].Done? ==> s.starts[flight] == s.cancels[flight] + 1)
  {
    EveryRunIsConsistent(steps);
  }

  /** The flight exists and no lease on it is live any more. */
  predicate IsOver(s: State, flight: FlightId) {
    flight < s.nextFlight && forall id | id in s.leases :: s.leases[id].flight != flight
  }

  lemma NoEntryWhenOver(s: State, flight: FlightId, key: Key)
    requires Counted(s) && IsOver(s, flight) && key in s.flights
    ensures s.flights[key].flight != flight
  {
    assert LeasesOn(s.leases, key) != {};
    var id :| id in LeasesOn(s.leases, key);
    assert s.leases[id].flight == s.flights[key].flight;
  }

  lemma StepKeepsOver(s: State, step: Step, flight: FlightId)
    requires Consistent(s) && Enabled(s, step) && IsOver(s, flight)
    ensures IsOver(Apply(s, step), flight)
  {
    if step.Join? && step.key in s.flights {
      NoEntryWhenOver(s, flight, step.key);
    }
  }

  lemma RunAppend(s: State, steps: seq<Step>, step: Step)
    ensures var t := Run(s, steps);
            Run(s, steps + [step]) == if Enabled(t, step) then Apply(t, step) else t
  {
    assert (steps + [step])[..|steps|] == steps;
  }

  /** Only overlapping calls share: once its last participant has left, a flight is never joined again. */
  lemma {:induction false} FinishedFlightStaysFinished(steps: seq<Step>, more: seq<Step>, flight: FlightId)
    requires IsOver(Run(Initial(), steps), flight)
    ensures IsOver(Run(Initial(), steps + more), flight)
    decreases |more|
  {
    if more == [] {
      assert steps + more == steps;
    } else {
      var before, step := more[..|more| - 1], more[|more| - 1];
      FinishedFlightStaysFinished(steps, before, flight);
      assert steps + more == (steps + before) + [step];
      RunAppend(Initial(), steps + before, step);
      EveryRunIsConsistent(steps + before);
      if Enabled(Run(Initial(), steps + before), step) {
        StepKeepsOver(Run(Initial(), steps + before), step, flight);
      }
    }
  }

  /** The key whose first call opened the flight. */
  function KeyOf(steps: seq<Step>, flight: FlightId): Option<Key>
    decreases |steps|
  {
    if steps == [] then None
    else
      var front, last := steps[..|steps| - 1], steps[|steps| - 1];
      if last.Join? && last.key !in Run(Initial(), front).flights && flight == Run(Initial(), front).nextFlight
      then Some(last.key)
      else KeyOf(front, flight)
  }

  lemma KeyOfOldFlight(steps: seq<Step>, flight: FlightId)
    requires steps != [] && flight < Run(Initial(), steps[..|steps| - 1]).nextFlight
    ensures KeyOf(steps, flight) == KeyOf(steps[..|steps| - 1], flight)
  {
  }

  lemma LeaseAfterJoin(s: State, key: Key, id: LeaseId)
    requires Counted(s) && id in Apply(s, Join(key)).leases
    ensures var lease := Apply(s, Join(key)).leases[id];
            if id in s.leases then lease == s.leases[id]
            else lease == Lease(key, JoinedFlight(s.flights, key, s.nextFlight))
  {
  }

  lemma LeaseAfter(s: State, step: Step, id: LeaseId)
    requires Counted(s) && Enabled(s, step) && id in Apply(s, step).leases
    ensures var lease := Apply(s, step).leases[id];
            if id in s.leases then lease == s.leases[id]
            else step.Join? && lease == Lease(step.key, JoinedFlight(s.flights, step.key, s.nextFlight))
  {
    if step.Join? {
      LeaseAfterJoin(s, step.key, id);
    }
  }

  lemma SomeLeaseOn(s: State, key: Key) returns (id: LeaseId)
    requires Counted(s) && key in s.flights
    ensures id in s.leases && s.leases[id] == Lease(key, s.flights[key].flight)
  {
    assert LeasesOn(s.leases, key) != {};
    id :| id in LeasesOn(s.leases, key);
    assert IsCurrent(s.flights, s.leases[id]);
  }

  lemma LeasedFlightIsOld(s: State, id: LeaseId)
    requires Consistent(s) && id in s.leases
    ensures s.leases[id].flight < s.nextFlight
  {
    assert IsCurrent(s.flights, s.leases[id]);
  }

  /** A lease stays on the flight of its own key. */
  lemma {:induction false} LeaseIsOnItsKey(steps: seq<Step>, id: LeaseId)
    requires id in Run(Initial(), steps).leases
    ensures var lease := Run(Initial(), steps).leases[id]; KeyOf(steps, lease.flight) == Some(lease.key)
    decreases |steps|, 1
  {
    var front, last := steps[..|steps| - 1], steps[|steps| - 1];
    EveryRunIsConsistent(front);
    if Enabled(Run(Initial(), front), last) {
      LeaseAfter(Run(Initial(), front), last, id);
      if id in Run(Initial(), front).leases {
        OldLeaseIsOnItsKey(steps, id);
      } else if last.key in Run(Initial(), front).flights {
        var other := SomeLeaseOn(Run(Initial(), front), last.key);
        OldLeaseIsOnItsKey(steps, other);
      }
    } else {
      OldLeaseIsOnItsKey(steps, id);
    }
  }

  lemma {:induction false} OldLeaseIsOnItsKey(steps: seq<Step>, id: LeaseId)
    requires steps != [] && id in Run(Initial(), steps[..|steps| - 1]).leases
    ensures var lease := Run(Initial(), steps[..|steps| - 1]).leases[id]; KeyOf(steps, lease.flight) == Some(lease.key)
    decreases |steps|, 0
  {
    var front := steps[..|steps| - 1];
    EveryRunIsConsistent(front);
    LeaseIsOnItsKey(front, id);
    LeasedFlightIsOld(Run(Initial(), front), id);
    KeyOfOldFlight(steps, Run(Initial(), front).leases[id].flight);
  }

  lemma CellAfter(s: State, step: Step, flight: FlightId)
    requires Consistent(s) && Enabled(s, step) && flight in Apply(s, step).cells && Apply(s, step).cells[flight].Done?
    ensures flight in s.cells && flight < s.nextFlight
    ensures if s.cells[flight].Done? then Apply(s, step).cells[flight] == s.cells[flight]
            else step.EndWork? && s.leases[step.lease].flight == flight && Apply(s, step).cells[flight].value == step.value
  {
  }

  /** A finished cell holds what the work of one of its participants ended with. */
  lemma {:induction false} DoneByWork(steps: seq<Step>, flight: FlightId) returns (i: nat)
    requires flight in Run(Initial(), steps).cells && Run(Initial(), steps).cells[flight].Done?
    ensures i < |steps| && steps[i].EndWork? && Enabled(Run(Initial(), steps[..i]), steps[i])
    ensures Run(Initial(), steps[..i]).leases[steps[i].lease].flight == flight
    ensures Run(Initial(), steps).cells[flight].value == steps[i].value
    ensures KeyOf(steps, flight) == KeyOf(steps[..i], flight)
    decreases |steps|
  {
    i := |steps| - 1;
    var front, last := steps[..i], steps[i];
    EveryRunIsConsistent(front);
    if Enabled(Run(Initial(), front), last) {
      CellAfter(Run(Initial(), front), last, flight);
    }
    KeyOfOldFlight(steps, flight);
    if Run(Initial(), front).cells[flight].Done? {
      i := DoneByWork(front, flight);
      assert front[..i] == steps[..i];
    }
  }

  /** A caller gets exactly what the work for its own key ended with, and leaves. */
  lemma CallersGetTheWorksValue(steps: seq<Step>, id: LeaseId) returns (i: nat)
    requires Enabled(Run(Initial(), steps), Return(id))
    ensures i < |steps| && steps[i].EndWork? && Enabled(Run(Initial(), steps[..i]), steps[i])
    ensures var lease := Run(Initial(), steps).leases[id];
            && Run(Initial(), steps[..i]).leases[steps[i].lease] == lease
            && id !in Run(Initial(), steps + [Return(id)]).leases
            && id in Run(Initial(), steps + [Return(id)]).returned
            && Run(Initial(), steps + [Return(id)]).returned[id] == (lease.flight, steps[i].value)
  {
    var lease := Run(Initial(), steps).leases[id];
    i := DoneByWork(steps, lease.flight);
    LeaseIsOnItsKey(steps, id);
    LeaseIsOnItsKey(steps[..i], steps[i].lease);
    RunAppend(Initial(), steps, Return(id));
  }

  lemma SameKeySameFlight(s: State, a: LeaseId, b: LeaseId)
    requires Counted(s) && a in s.leases && b in s.leases && s.leases[a].key == s.leases[b].key
    ensures s.leases[a] == s.leases[b]
  {
    assert IsCurrent(s.flights, s.leases[a]) && IsCurrent(s.flights, s.leases[b]);
  }

  /** Calls whose leases are live at the same time share one flight exactly if their keys are the same. */
  lemma OverlappingCallsShare(steps: seq<Step>, a: LeaseId, b: LeaseId)
    requires var s := Run(Initial(), steps); a in s.leases && b in s.leases
    ensures var s := Run(Initial(), steps);
            s.leases[a].key == s.leases[b].key <==> s.leases[a].flight == s.leases[b].flight
  {
    EveryRunIsConsistent(steps);
    if Run(Initial(), steps).leases[a].key == Run(Initial(), steps).leases[b].key {
      SameKeySameFlight(Run(Initial(), steps), a, b);
    } else {
      LeaseIsOnItsKey(steps, a);
      LeaseIsOnItsKey(steps, b);
    }
  }

  /** A call gets a new lease on its key; one that overlaps no other opens an unused, empty flight. */
  lemma CallsJoin(steps: seq<Step>, key: Key)
    ensures var s := Run(Initial(), steps);
            var t := Run(Initial(), steps + [Join(key)]);
            && s.nextLease !in s.leases && s.nextLease in t.leases && t.leases[s.nextLease].key == key
            && t.leases - {s.nextLease} == s.leases
            && ((forall id | id in s.leases :: s.leases[id].key != key) ==>
                  var flight := t.leases[s.nextLease].flight;
                  flight !in s.cells && flight in t.cells && t.cells[flight] == Empty)
  {
    RunAppend(Initial(), steps, Join(key));
    EveryRunIsConsistent(steps);
    var s := Run(Initial(), steps);
    if key in s.flights {
      var id := SomeLeaseOn(s, key);
    }
    JoinOpens(s, key);
  }

  lemma JoinOpens(s: State, key: Key)
    requires Consistent(s)
    ensures var t := Apply(s, Join(key));
            && s.nextLease !in s.leases && s.nextLease in t.leases && t.leases[s.nextLease].key == key
            && t.leases - {s.nextLease} == s.leases
            && (key !in s.flights ==>
                  var flight := t.leases[s.nextLease].flight;
                  flight !in s.cells && flight in t.cells && t.cells[flight] == Empty)
  {
  }

  /**
    A live caller is never stuck: it can start the work, end it, or return; and while another one is
    at work, that one can end it or, by leaving, pass the work on.
   */
  lemma CallersAreNeverStuck(steps: seq<Step>, id: LeaseId, value: Value)
    requires id in Run(Initial(), steps).leases
    ensures var s := Run(Initial(), steps);
            && Live(s, id)
            && match CellOf(s, id)
               case Empty => Enabled(s, StartWork(id)) && CellOf(Apply(s, StartWork(id)), id) == Running(id)
               case Running(worker) =>
                 && Enabled(s, EndWork(worker, value)) && Enabled(Apply(s, EndWork(worker, value)), Return(id))
                 && (worker != id ==> Enabled(s, Cancel(worker)) && Enabled(Apply(s, Cancel(worker)), StartWork(id)))
               case Done(_) => Enabled(s, Return(id))
  {
    EveryRunIsConsistent(steps);
    var s := Run(Initial(), steps);
    var lease := s.leases[id];
    assert IsCurrent(s.flights, lease);
    assert lease.flight in s.cells;
  }
}
