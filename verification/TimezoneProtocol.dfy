/**
  The timezone protocol as a step machine: the database file, the configuration file and one
  engine process that may crash between any two durable effects.

  A migration commits the re-keyed history together with the new zone and a marker; the
  configuration file follows; the marker is removed. A restart reads the configuration, rolls it
  forward to the marked zone, and opens the database, which finishes the sync.
 */
module TimezoneProtocol {
  import opened Common
  import opened HistoryTable
  import opened Storage

  /** Where the engine process is; everything in it is lost by a crash. */
  datatype Process =
    | Down
    | Loaded(config: Zone)                // the configuration has been read
    | Recovered(config: Zone)             // a pending zone has been rolled forward
    | Serving(zone: Zone, config: Zone)   // the database is open; `config` is the live configuration
    | Committed(target: Zone)             // the migration transaction has committed
    | Finalized(target: Zone)             // the configuration file and the live one have followed
    | Poisoned                            // a step after the commit failed

  datatype World = World(db: DbImage, file: Zone, process: Process)

  /** A write of the configuration replaces the file atomically; a failed one may still have done so. */
  datatype ConfigWrite = Succeeds | Fails(replaced: bool)

  datatype Step =
    | Crash
    | Load
    | Recover(write: ConfigWrite)
    | Open(fault: bool)
    | Put(uuid: Uuid, row: Row)
    | MigrateTo(target: string, fault: bool)
    | Finalize(write: ConfigWrite)
    | Clear(fault: bool)

  function Written(file: Zone, target: Zone, write: ConfigWrite): Zone {
    if write.Succeeds? || write.replaced then target else file
  }

  /** One step; a step that the process cannot take now leaves the world as it is. */
  function Apply(env: Env, w: World, step: Step): World {
    match step
    case Crash => w.(process := Down)
    case Load => if w.process.Down? then w.(process := Loaded(w.file)) else w
    case Recover(write) => if w.process.Loaded? then RecoverPending(env, w, write) else w
    case Open(fault) => if w.process.Recovered? then OpenDatabase(env, w, fault) else w
    case Put(uuid, row) => if w.process.Serving? then PutSnapshot(env, w, uuid, row) else w
    case MigrateTo(target, fault) => if w.process.Serving? then CommitMigration(env, w, target, fault) else w
    case Finalize(write) =>
      if !w.process.Committed? then w
      else if write.Succeeds? then w.(file := w.process.target, process := Finalized(w.process.target))
      else w.(file := Written(w.file, w.process.target, write), process := Poisoned)
    case Clear(fault) => if w.process.Finalized? then ClearMarker(env, w, fault) else w
  }

  function RecoverPending(env: Env, w: World, write: ConfigWrite): World
    requires w.process.Loaded?
  {
    match InspectPending(env, w.db)
    case Err(_) => w.(process := Down)
    case Ok(None) => w.(process := Recovered(w.process.config))
    case Ok(Some(target)) =>
      if w.process.config == target then w.(process := Recovered(target))
      else w.(file := Written(w.file, target, write),
              process := if write.Succeeds? then Recovered(target) else Down)
  }

  function OpenDatabase(env: Env, w: World, fault: bool): World
    requires w.process.Recovered?
  {
    var config := w.process.config;
    match EnsureTimezone(env, w.db, config)
    case Err(_) => w.(process := Down)
    case Ok(db) => if fault then w.(process := Down) else w.(db := db, process := Serving(config, config))
  }

  function PutSnapshot(env: Env, w: World, uuid: Uuid, row: Row): World
    requires w.process.Serving?
  {
    match env.dateOf(w.process.zone, row.fetchedAt)
    case None => w
    case Some(date) => w.(db := w.db.(history := PutRow(w.db.history, Key(uuid, date), row)))
  }

  function CommitMigration(env: Env, w: World, target: string, fault: bool): World
    requires w.process.Serving?
  {
    match Migrate(env, w.db, w.process.config, target)
    case Err(_) => w
    case Ok(db) => if fault then w else w.(db := db, process := Committed(target))
  }

  function ClearMarker(env: Env, w: World, fault: bool): World
    requires w.process.Finalized?
  {
    var target := w.process.target;
    match ClearPending(env, w.db, target)
    case Err(_) => w.(process := Poisoned)
    case Ok(db) => if fault then w.(process := Poisoned) else w.(db := db, process := Serving(target, target))
  }

  /** Any interleaving of steps and crashes. */
  function Run(env: Env, w: World, steps: seq<Step>): World
    decreases |steps|
  {
    if steps == [] then w else Apply(env, Run(env, w, steps[..|steps| - 1]), steps[|steps| - 1])
  }

  /** A new database next to a configuration that names a valid zone. */
  function Fresh(config: Zone): World {
    World(DbImage(map[], None, None), config, Down)
  }

  // ----- The invariant -----

  /** What the two files say in every reachable state, whatever the process does. */
  ghost predicate FilesAgree(env: Env, db: DbImage, file: Zone) {
    && env.isZone(file)
    && match db.zone
       case None => db.pending == None && db.history == map[]
       case Some(zone) =>
         && env.isZone(zone)
         && Dated(env, zone, db.history)
         && match db.pending
            case None => file == zone
            case Some(pending) => pending == zone
  }

  ghost predicate Consistent(env: Env, w: World) {
    && FilesAgree(env, w.db, w.file)
    && match w.process
       case Down => true
       case Loaded(config) => config == w.file
       case Recovered(config) => config == w.file && (w.db.pending.Some? ==> w.db.pending.value == config)
       case Serving(zone, config) => w.db == w.db.(zone := Some(zone), pending := None) && config == zone == w.file
       case Committed(target) => w.db.zone == Some(target) && env.isZone(target)
       case Finalized(target) => w.db.zone == Some(target) && w.file == target
       case Poisoned => true
  }

  lemma StepKeepsConsistent(env: Env, w: World, step: Step)
    requires Consistent(env, w)
    ensures Consistent(env, Apply(env, w, step))
  {
    match step
    case Put(uuid, row) =>
      if w.process.Serving? && env.dateOf(w.process.zone, row.fetchedAt).Some? {
        var date := env.dateOf(w.process.zone, row.fetchedAt).value;
        PutLatest(env, w.process.zone, w.db.history, Key(uuid, date), row, uuid);
      }
    case MigrateTo(target, fault) =>
      if w.process.Serving? && Migrate(env, w.db, w.process.config, target).Ok? && target != w.process.config {
        RekeyedIsDated(env, target, w.db.history);
      }
    case _ =>
  }

  /** The two files agree in every state of every run, and each row is filed under its own date. */
  lemma {:induction false} EveryRunIsConsistent(env: Env, config: Zone, steps: seq<Step>)
    requires env.isZone(config)
    ensures Consistent(env, Run(env, Fresh(config), steps))
    decreases |steps|
  {
    if steps != [] {
      EveryRunIsConsistent(env, config, steps[..|steps| - 1]);
      StepKeepsConsistent(env, Run(env, Fresh(config), steps[..|steps| - 1]), steps[|steps| - 1]);
    }
  }

  // ----- Restart -----

  const RESTART: seq<Step> := [Crash, Load, Recover(Succeeds), Open(false)]

  lemma RunAppend(env: Env, w: World, steps: seq<Step>, step: Step)
    ensures Run(env, w, steps + [step]) == Apply(env, Run(env, w, steps), step)
  {
    assert (steps + [step])[..|steps|] == steps;
  }

  lemma RunTwo(env: Env, w: World, steps: seq<Step>, a: Step, b: Step)
    ensures Run(env, w, steps + [a, b]) == Apply(env, Apply(env, Run(env, w, steps), a), b)
  {
    assert steps + [a, b] == (steps + [a]) + [b];
    RunAppend(env, w, steps, a);
    RunAppend(env, w, steps + [a], b);
  }

  lemma RunFour(env: Env, w: World, steps: seq<Step>, a: Step, b: Step, c: Step, d: Step)
    ensures Run(env, w, steps + [a, b, c, d])
            == Apply(env, Apply(env, Apply(env, Apply(env, Run(env, w, steps), a), b), c), d)
  {
    assert steps + [a, b, c, d] == (steps + [a, b]) + [c, d];
    RunTwo(env, w, steps, a, b);
    RunTwo(env, w, steps + [a, b], c, d);
  }

  lemma RestartFrom(env: Env, w: World)
    requires FilesAgree(env, w.db, w.file)
    ensures var zone := if w.db.pending.Some? then w.db.pending.value else w.file;
            Apply(env, Apply(env, Apply(env, Apply(env, w, Crash), Load), Recover(Succeeds)), Open(false))
            == World(DbImage(w.db.history, Some(zone), None), zone, Serving(zone, zone))
  {
  }

  /**
    Recovery writes the configuration only if it does not name the marked zone yet; a write that
    fails stops the start, with the old or the new configuration in place.
   */
  lemma RecoveryOutcome(env: Env, w: World, write: ConfigWrite)
    requires Consistent(env, w) && w.process.Loaded?
    ensures var t := Apply(env, w, Recover(write));
            if w.db.pending == None || w.db.pending == Some(w.file) then t == World(w.db, w.file, Recovered(w.file))
            else
              var target := w.db.pending.value;
              if write.Succeeds? then t == World(w.db, target, Recovered(target))
              else t == World(w.db, if write.replaced then target else w.file, Down)
  {
  }

  /** Opening after a recovery clears the marker and serves; a database error stops it and changes nothing. */
  lemma OpenOutcome(env: Env, w: World, fault: bool)
    requires Consistent(env, w) && w.process.Recovered?
    ensures Apply(env, w, Open(fault)) ==
            if fault then World(w.db, w.file, Down)
            else World(DbImage(w.db.history, Some(w.file), None), w.file, Serving(w.file, w.file))
  {
    OpensExactlyWhen(env, w.db, w.process.config);
  }

  /**
    From any reachable state, however the process died, one uninterrupted restart succeeds: the
    engine serves under one zone that both files name, the marker is gone and no row has changed.
    The zone is the marked one if a migration had committed, otherwise that of the configuration.
   */
  lemma RestartRollsForward(env: Env, config: Zone, steps: seq<Step>)
    requires env.isZone(config)
    ensures var w := Run(env, Fresh(config), steps);
            var zone := if w.db.pending.Some? then w.db.pending.value else w.file;
            Run(env, Fresh(config), steps + RESTART) ==
            World(DbImage(w.db.history, Some(zone), None), zone, Serving(zone, zone))
  {
    EveryRunIsConsistent(env, config, steps);
    RunFour(env, Fresh(config), steps, Crash, Load, Recover(Succeeds), Open(false));
    RestartFrom(env, Run(env, Fresh(config), steps));
  }

  /** While the engine serves, its own zone, the live configuration and both files are one zone. */
  lemma ServingZonesAgree(env: Env, config: Zone, steps: seq<Step>)
    requires env.isZone(config) && Run(env, Fresh(config), steps).process.Serving?
    ensures var w := Run(env, Fresh(config), steps);
            w.process.zone == w.process.config == w.file && w.db.zone == Some(w.file) && w.db.pending == None
  {
    EveryRunIsConsistent(env, config, steps);
  }

  // ----- A migration while the engine serves -----

  lemma RunThree(env: Env, w: World, steps: seq<Step>, a: Step, b: Step, c: Step)
    ensures Run(env, w, steps + [a, b, c]) == Apply(env, Apply(env, Apply(env, Run(env, w, steps), a), b), c)
  {
    assert steps + [a, b, c] == (steps + [a, b]) + [c];
    RunTwo(env, w, steps, a, b);
    RunAppend(env, w, steps + [a, b], c);
  }

  /** The rows all have a date in the zone. */
  ghost predicate AllDated(env: Env, zone: Zone, t: Table) {
    forall k | k in t :: env.dateOf(zone, t[k].fetchedAt).Some?
  }

  lemma CommitOutcome(env: Env, w: World, target: string)
    requires Consistent(env, w) && w.process.Serving?
    ensures var t := Apply(env, w, MigrateTo(target, false));
            if env.isZone(target) && target == w.file then t == w.(process := Committed(target))
            else if env.isZone(target) && AllDated(env, target, w.db.history) then
              Mappable(env, target, w.db.history)
              && t == World(DbImage(Rekeyed(env, target, w.db.history), Some(target), Some(target)), w.file, Committed(target))
            else t == w
  {
    MigratesExactlyWhen(env, w.db, w.process.config, target);
  }

  lemma CommittedFinishes(env: Env, w: World, target: string)
    requires w.process == Committed(target) && w.db.zone == Some(target) && env.isZone(target)
    requires w.db.pending == None || w.db.pending == Some(target)
    ensures Apply(env, Apply(env, w, Finalize(Succeeds)), Clear(false))
            == World(w.db.(pending := None), target, Serving(target, target))
  {
    ClearsExactlyWhen(env, w.db, target);
  }

  /**
    In every serving state of every run a migration to a known zone in which all rows have a date
    goes through: engine, configuration and database end under that zone, with the re-keyed history
    and no marker. A migration to the present zone changes nothing, and any other is refused.
   */
  lemma MigrationSucceeds(env: Env, config: Zone, steps: seq<Step>, target: string)
    requires env.isZone(config) && Run(env, Fresh(config), steps).process.Serving?
    ensures var w := Run(env, Fresh(config), steps);
            var t := Run(env, Fresh(config), steps + [MigrateTo(target, false), Finalize(Succeeds), Clear(false)]);
            if env.isZone(target) && target != w.file && AllDated(env, target, w.db.history) then
              Mappable(env, target, w.db.history)
              && t == World(DbImage(Rekeyed(env, target, w.db.history), Some(target), None), target, Serving(target, target))
            else t == w
  {
    var w := Run(env, Fresh(config), steps);
    EveryRunIsConsistent(env, config, steps);
    RunThree(env, Fresh(config), steps, MigrateTo(target, false), Finalize(Succeeds), Clear(false));
    CommitOutcome(env, w, target);
    var t := Apply(env, w, MigrateTo(target, false));
    if t.process.Committed? {
      CommittedFinishes(env, t, target);
    }
  }

  /** A failure after the commit leaves marker and re-keyed history, and only a restart helps. */
  lemma FailureAfterCommitPoisons(env: Env, w: World, target: string, write: ConfigWrite, step: Step)
    requires w.process == Committed(target) && write.Fails? && step != Crash
    ensures var t := Apply(env, w, Finalize(write));
            t == World(w.db, if write.replaced then target else w.file, Poisoned) && Apply(env, t, step) == t
  {
  }

  lemma FailedClearPoisons(env: Env, w: World, target: string, step: Step)
    requires w.process == Finalized(target) && step != Crash
    ensures var t := Apply(env, w, Clear(true)); t == w.(process := Poisoned) && Apply(env, t, step) == t
  {
  }

  // ----- The newest snapshots over a whole run -----

  /** One register per station: the last accepted snapshot among those with the greatest timestamp. */
  type Registers = map<Uuid, Row>

  function Lookup(registers: Registers, uuid: Uuid): Option<Row> {
    if uuid in registers then Some(registers[uuid]) else None
  }

  function Accepts(env: Env, w: World, step: Step): bool {
    step.Put? && w.process.Serving? && env.dateOf(w.process.zone, step.row.fetchedAt).Some?
  }

  function RunRegisters(env: Env, w: World, steps: seq<Step>): Registers
    decreases |steps|
  {
    if steps == [] then map[]
    else
      var before := RunRegisters(env, w, steps[..|steps| - 1]);
      var step := steps[|steps| - 1];
      if Accepts(env, Run(env, w, steps[..|steps| - 1]), step)
      then before[step.uuid := Newer(Lookup(before, step.uuid), step.row)]
      else before
  }

  lemma StepLatest(env: Env, w: World, step: Step, uuid: Uuid)
    requires Consistent(env, w)
    ensures Latest(Apply(env, w, step).db.history, uuid) ==
            if Accepts(env, w, step) && step.uuid == uuid then Some(Newer(Latest(w.db.history, uuid), step.row))
            else Latest(w.db.history, uuid)
  {
    if Accepts(env, w, step) {
      var date := env.dateOf(w.process.zone, step.row.fetchedAt).value;
      PutLatest(env, w.process.zone, w.db.history, Key(step.uuid, date), step.row, uuid);
    } else if step.MigrateTo? && w.process.Serving? {
      var to := step.target;
      if Migrate(env, w.db, w.process.config, to).Ok? && to != w.process.config {
        RekeyingKeepsLatest(env, w.process.zone, to, w.db.history, uuid);
      }
    }
  }

  /**
    Whatever migrations, crashes and recoveries a run contains, the newest snapshot of each station
    is what a register that ignores all of them would hold: no migration loses or alters it.
   */
  lemma {:induction false} LatestIsTheRegister(env: Env, config: Zone, steps: seq<Step>, uuid: Uuid)
    requires env.isZone(config)
    ensures Latest(Run(env, Fresh(config), steps).db.history, uuid) ==
            Lookup(RunRegisters(env, Fresh(config), steps), uuid)
    decreases |steps|
  {
    if steps == [] {
      LatestIs(env, config, map[], uuid);
      assert IsLatest(map[], uuid, None);
    } else {
      var before := steps[..|steps| - 1];
      EveryRunIsConsistent(env, config, before);
      LatestIsTheRegister(env, config, before, uuid);
      StepLatest(env, Run(env, Fresh(config), before), steps[|steps| - 1], uuid);
    }
  }

  /** As a run goes on, the newest timestamp of a station never falls. */
  lemma {:induction false} LatestNeverFalls(env: Env, config: Zone, steps: seq<Step>, more: seq<Step>, uuid: Uuid)
    requires env.isZone(config)
    requires Latest(Run(env, Fresh(config), steps).db.history, uuid).Some?
    ensures var early := Latest(Run(env, Fresh(config), steps).db.history, uuid);
            var late := Latest(Run(env, Fresh(config), steps + more).db.history, uuid);
            late.Some? && early.value.fetchedAt <= late.value.fetchedAt
    decreases |more|
  {
    if more == [] {
      assert steps + more == steps;
    } else {
      var before, step := more[..|more| - 1], more[|more| - 1];
      LatestNeverFalls(env, config, steps, before, uuid);
      assert steps + more == (steps + before) + [step];
      RunAppend(env, Fresh(config), steps + before, step);
      EveryRunIsConsistent(env, config, steps + before);
      StepLatest(env, Run(env, Fresh(config), steps + before), step, uuid);
    }
  }

  /** While the engine serves, a snapshot with a date that is not older than the others of its station is the newest. */
  lemma AcceptedPutIsLatest(env: Env, config: Zone, steps: seq<Step>, uuid: Uuid, row: Row)
    requires env.isZone(config) && Run(env, Fresh(config), steps).process.Serving?
    requires env.dateOf(Run(env, Fresh(config), steps).file, row.fetchedAt).Some?
    requires var latest := Latest(Run(env, Fresh(config), steps).db.history, uuid);
             latest == None || latest.value.fetchedAt <= row.fetchedAt
    ensures Latest(Run(env, Fresh(config), steps + [Put(uuid, row)]).db.history, uuid) == Some(row)
  {
    EveryRunIsConsistent(env, config, steps);
    RunAppend(env, Fresh(config), steps, Put(uuid, row));
    StepLatest(env, Run(env, Fresh(config), steps), Put(uuid, row), uuid);
  }
}
