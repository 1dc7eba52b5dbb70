/**
  Startup and timezone migration as the engine performs them, on the files themselves. Each method
  is tied to the steps of the protocol machine, so what holds of every run holds of these.
 */
module Runtime {
  import opened Common
  import opened HistoryTable
  import opened Storage
  import opened TimezoneProtocol

  /** The configuration file and the live configuration; only their timezone matters here. */
  class Config {
    var zone: Zone

    constructor (zone: Zone)
      ensures this.zone == zone
    {
      this.zone := zone;
    }
  }

  datatype EngineError = DbFailed(error: DbError) | ConfigNotWritten | PostCommit

  /** `write_config_atomic`: the file is replaced as a whole or not at all, whatever is reported. */
  method WriteConfig(file: Config, zone: Zone, write: ConfigWrite) returns (ok: bool)
    modifies file
    ensures ok == write.Succeeds? && file.zone == Written(old(file.zone), zone, write)
  {
    if write.Succeeds? || write.replaced {
      file.zone := zone;
    }
    ok := write.Succeeds?;
  }

  /** Rolls the configuration forward to a zone that a committed migration has marked. */
  method RecoverPendingTimezone(env: Env, db: DbFile, file: Config, config: Config, write: ConfigWrite)
    returns (r: Result<bool, EngineError>)
    requires file != config
    modifies file, config
    ensures RecoverPending(env, World(db.image, old(file.zone), Loaded(old(config.zone))), write) ==
            World(db.image, file.zone, if r.Ok? then Recovered(config.zone) else Down)
    ensures r.Err? ==> config.zone == old(config.zone)
    ensures r == Ok(true) <==> db.image.pending.Some? && r.Ok? && old(config.zone) != db.image.pending.value
  {
    var inspected := InspectPending(env, db.image);
    if inspected.Err? {
      return Err(DbFailed(inspected.error));
    }
    if inspected.value == None {
      return Ok(false);
    }
    var target := inspected.value.value;
    if config.zone == target {
      return Ok(false);
    }
    var written := WriteConfig(file, target, write);
    if !written {
      return Err(ConfigNotWritten);
    }
    config.zone := target;
    return Ok(true);
  }

  /** Reads the configuration, recovers, opens: the order the startup keeps under its locks. */
  method Start(env: Env, db: DbFile, file: Config, write: ConfigWrite, fault: bool)
    returns (r: Result<(DbInstance, Config), EngineError>)
    modifies db, file
    ensures var down := World(old(db.image), old(file.zone), Down);
            Apply(env, Apply(env, Apply(env, down, Load), Recover(write)), Open(fault)) ==
            World(db.image, file.zone,
                  if r.Ok? then Serving(r.value.0.timezone, r.value.1.zone) else Down)
    ensures r.Ok? ==> fresh(r.value.0) && r.value.0.env == env && r.value.0.file == db && fresh(r.value.1)
  {
    var config := new Config(file.zone);
    var recovered := RecoverPendingTimezone(env, db, file, config, write);
    if recovered.Err? {
      return Err(recovered.error);
    }
    var database := DbInstance.Open(env, db, config.zone, fault);
    if database.Err? {
      return Err(DbFailed(database.error));
    }
    return Ok((database.value, config));
  }

  /**
    The worker's migration arm: commit, then the configuration, then the marker. Once the
    transaction has committed, any failure poisons the worker.
   */
  method MigrateDbTimezone(db: DbInstance, file: Config, live: Config, target: string,
                           fault: bool, write: ConfigWrite, clearFault: bool)
    returns (r: Result<nat, EngineError>, poisoned: bool)
    requires file != live
    modifies db.file, db`timezone, file, live
    ensures var serving := World(old(db.file.image), old(file.zone), Serving(old(db.timezone), old(live.zone)));
            var committed := Apply(db.env, serving, MigrateTo(target, fault));
            var finalized := Apply(db.env, committed, Finalize(if target == old(live.zone) then Succeeds else write));
            var after := Apply(db.env, finalized, Clear(clearFault));
            old(live.zone) == old(file.zone) ==>
              && (poisoned ==> after == World(db.file.image, file.zone, Poisoned))
              && (!poisoned ==> after == World(db.file.image, file.zone, Serving(db.timezone, live.zone)))
    ensures poisoned ==> r == Err(PostCommit)
    ensures r.Ok? ==> !poisoned && db.timezone == live.zone == target && db.file.image.pending == None
    ensures r.Err? && !poisoned ==>
              db.file.image == old(db.file.image) && db.timezone == old(db.timezone)
              && file.zone == old(file.zone) && live.zone == old(live.zone)
  {
    var from := live.zone;
    if !db.env.isZone(target) {
      return Err(DbFailed(InvalidZone(target))), false;
    }
    var migrated := db.MigrateTimezone(from, target, fault);
    if migrated.Err? {
      return Err(DbFailed(migrated.error)), false;
    }
    if from != target {
      var written := WriteConfig(file, target, write);
      if !written {
        return Err(PostCommit), true;
      }
      live.zone := target;
    }
    var cleared := db.ClearPendingTimezone(target, clearFault);
    if cleared.Err? {
      return Err(PostCommit), true;
    }
    return Ok(migrated.value), false;
  }
}
