/**
  The storage layer: one database file, its history table and its two timezone entries.

  A transaction is a single assignment to `DbFile.image`. The parameter `fault` of a method says
  that the database reports an error for one of its statements, which rolls the transaction back.
 */
module Storage {
  import opened Common
  import opened HistoryTable
  import opened HistoryPages
  import opened Text

  datatype DbError =
    | InvalidZone(name: string)
    | InvalidTimestamp
    | MissingStation
    | EmptyStationName
    | EmptyStationUuid
    | NotCanonical
    | ZoneMissing
    | ZoneMismatch
    | PendingMismatch
    | AlreadyPending(zone: Zone)
    | WrongOldZone(stored: Zone)
    | CountMismatch
    | InvalidCursor
    | PageTooLarge
    | Sqlite

  /** What the database file durably holds: the history, `db_timezone`, and the sync marker. */
  datatype DbImage = DbImage(history: Table, zone: Option<Zone>, pending: Option<Zone>)

  datatype StationRef = StationRef(name: string, uuid: Uuid)
  datatype Snapshot = Snapshot(station: Option<StationRef>, encoded: Blob)

  const I64_MAX: nat := 0x7FFF_FFFF_FFFF_FFFF

  // ----- What the operations do to the file -----

  /** Opening under the configured zone: finish a pending sync, adopt the zone, or refuse. */
  function EnsureTimezone(env: Env, image: DbImage, config: string): Result<DbImage, DbError> {
    if !env.isZone(config) then Err(InvalidZone(config))
    else match image.pending
    case Some(pending) =>
      if !env.isZone(pending) then Err(InvalidZone(pending))
      else if image.zone == None then Err(ZoneMissing)
      else if !env.isZone(image.zone.value) then Err(InvalidZone(image.zone.value))
      else if image.zone.value != pending || config != pending then Err(PendingMismatch)
      else Ok(image.(pending := None))
    case None =>
      match image.zone
      case None => Ok(image.(zone := Some(config)))
      case Some(zone) =>
        if !env.isZone(zone) then Err(InvalidZone(zone))
        else if zone != config then Err(ZoneMismatch)
        else Ok(image)
  }

  /** Re-keying the history, the zone entry and the marker, in one transaction. */
  function Migrate(env: Env, image: DbImage, from: string, to: string): Result<DbImage, DbError> {
    if !env.isZone(from) then Err(InvalidZone(from))
    else if !env.isZone(to) then Err(InvalidZone(to))
    else if image.pending.Some? then Err(AlreadyPending(image.pending.value))
    else if image.zone == None then Err(ZoneMissing)
    else if !env.isZone(image.zone.value) then Err(InvalidZone(image.zone.value))
    else if image.zone.value != from then Err(WrongOldZone(image.zone.value))
    else if from == to then Ok(image)
    else if !Mappable(env, to, image.history) then Err(InvalidTimestamp)
    else Ok(DbImage(Rekeyed(env, to, image.history), Some(to), Some(to)))
  }

  function ClearPending(env: Env, image: DbImage, expected: string): Result<DbImage, DbError> {
    if !env.isZone(expected) then Err(InvalidZone(expected))
    else match image.pending
    case None => Ok(image)
    case Some(pending) =>
      if !env.isZone(pending) then Err(InvalidZone(pending))
      else if pending != expected then Err(PendingMismatch)
      else Ok(image.(pending := None))
  }

  /** The read-only look at the marker before the database is opened. */
  function InspectPending(env: Env, image: DbImage): Result<Option<Zone>, DbError> {
    match image.pending
    case None => Ok(None)
    case Some(pending) =>
      if image.zone == None then Err(ZoneMissing)
      else if !env.isZone(pending) then Err(InvalidZone(pending))
      else if !env.isZone(image.zone.value) then Err(InvalidZone(image.zone.value))
      else if pending != image.zone.value then Err(PendingMismatch)
      else Ok(Some(pending))
  }

  /** The error, if any, that keeps a snapshot out of the history. */
  function SnapshotError(env: Env, zone: Zone, snapshot: Snapshot, fetchedAt: Millis): Option<DbError> {
    if env.dateOf(zone, fetchedAt) == None then Some(InvalidTimestamp)
    else match snapshot.station
    case None => Some(MissingStation)
    case Some(station) =>
      if IsBlank(station.name) then Some(EmptyStationName)
      else if IsBlank(station.uuid) then Some(EmptyStationUuid)
      else if station.uuid != env.uuidOf(station.name) then Some(NotCanonical)
      else None
  }

  // ----- When they succeed -----

  /** Opening succeeds for an unused file or one that names the same zone, with a marker for it at most. */
  lemma OpensExactlyWhen(env: Env, image: DbImage, config: string)
    ensures EnsureTimezone(env, image, config).Ok? <==>
            env.isZone(config)
            && match image.pending
               case None => image.zone == None || image.zone == Some(config)
               case Some(pending) => pending == config && image.zone == Some(config)
    ensures EnsureTimezone(env, image, config).Ok? ==>
              EnsureTimezone(env, image, config).value == DbImage(image.history, Some(config), None)
  {
  }

  /** A migration commits unless a zone is unknown, a sync is pending, the old zone is wrong, or a row has no date. */
  lemma MigratesExactlyWhen(env: Env, image: DbImage, from: string, to: string)
    ensures Migrate(env, image, from, to).Ok? <==>
            && env.isZone(from) && env.isZone(to)
            && image.pending == None && image.zone == Some(from)
            && (from == to || forall k | k in image.history :: env.dateOf(to, image.history[k].fetchedAt).Some?)
    ensures Migrate(env, image, from, from).Ok? ==> Migrate(env, image, from, from).value == image
  {
  }

  lemma ClearsExactlyWhen(env: Env, image: DbImage, expected: string)
    ensures ClearPending(env, image, expected).Ok? <==>
            env.isZone(expected) && (image.pending == None || image.pending == Some(expected))
    ensures ClearPending(env, image, expected).Ok? ==> ClearPending(env, image, expected).value == image.(pending := None)
  {
  }

  lemma InspectsExactlyWhen(env: Env, image: DbImage)
    ensures InspectPending(env, image).Ok? <==>
            image.pending == None || (image.zone == image.pending && env.isZone(image.pending.value))
    ensures InspectPending(env, image).Ok? ==> InspectPending(env, image).value == image.pending
  {
  }

  /** A snapshot is accepted if its time has a date and its station is named and carries its canonical id. */
  lemma AcceptsExactlyWhen(env: Env, zone: Zone, snapshot: Snapshot, fetchedAt: Millis)
    ensures SnapshotError(env, zone, snapshot, fetchedAt) == None <==> IsAcceptable(env, zone, snapshot, fetchedAt)
  {
  }

  predicate IsAcceptable(env: Env, zone: Zone, snapshot: Snapshot, fetchedAt: Millis) {
    && env.dateOf(zone, fetchedAt).Some?
    && snapshot.station.Some?
    && !IsBlank(snapshot.station.value.name)
    && !IsBlank(snapshot.station.value.uuid)
    && snapshot.station.value.uuid == env.uuidOf(snapshot.station.value.name)
  }

  /** The rows whose date in the new zone is not the one they are filed under. */
  function Moved(env: Env, zone: Zone, t: Table): set<Key> {
    set k | k in t && env.dateOf(zone, t[k].fetchedAt) != Some(k.date)
  }

  /** A newer row (or, at the same instant, one of a later old date) moves to the same place. */
  predicate Displaced(history: Table, target: map<Key, Key>, k: Key)
    requires target.Keys == history.Keys && k in history
  {
    exists newer | newer in history :: target[newer] == target[k] && Beats(history, newer, k)
  }

  predicate NoCollision(history: Table, target: map<Key, Key>)
    requires target.Keys == history.Keys
  {
    forall a, b | a in history && b in history
                  && !Displaced(history, target, a) && !Displaced(history, target, b) ::
      target[a] == target[b] ==> a == b
  }

  function Survivors(history: Table, target: map<Key, Key>): Table
    requires target.Keys == history.Keys && NoCollision(history, target)
  {
    map k | k in history && !Displaced(history, target, k) :: target[k] := history[k]
  }

  lemma DisplacedLoses(env: Env, zone: Zone, history: Table, target: map<Key, Key>, k: Key)
    requires Mappable(env, zone, history) && target.Keys == history.Keys && k in history
    requires forall k | k in history :: target[k] == NewKey(env, zone, history, k)
    ensures Displaced(history, target, k) <==> !Wins(env, zone, history, k)
  {
    if !Wins(env, zone, history, k) {
      var newer :| newer in history && NewKey(env, zone, history, newer) == NewKey(env, zone, history, k)
        && Beats(history, newer, k);
      assert target[newer] == target[k];
    }
  }

  lemma SurvivorsDoNotCollide(env: Env, zone: Zone, history: Table, target: map<Key, Key>)
    requires Mappable(env, zone, history) && target.Keys == history.Keys
    requires forall k | k in history :: target[k] == NewKey(env, zone, history, k)
    ensures NoCollision(history, target)
  {
    forall k | k in history ensures Displaced(history, target, k) <==> !Wins(env, zone, history, k) {
      DisplacedLoses(env, zone, history, target, k);
    }
    WinnersNeverCollide(env, zone, history);
  }

  lemma SurvivorAt(history: Table, target: map<Key, Key>, k: Key)
    requires target.Keys == history.Keys && NoCollision(history, target) && k in history && !Displaced(history, target, k)
    ensures target[k] in Survivors(history, target) && Survivors(history, target)[target[k]] == history[k]
  {
  }

  predicate IsStaging(env: Env, zone: Zone, history: Table, target: map<Key, Key>) {
    && Mappable(env, zone, history) && target.Keys == history.Keys
    && forall k | k in history :: target[k] == NewKey(env, zone, history, k)
  }

  lemma SurvivorIsRekeyed(env: Env, zone: Zone, history: Table, target: map<Key, Key>, n: Key)
    requires IsStaging(env, zone, history, target) && NoCollision(history, target) && n in Survivors(history, target)
    ensures n in Rekeyed(env, zone, history) && Rekeyed(env, zone, history)[n] == Survivors(history, target)[n]
  {
    var k :| k in history && !Displaced(history, target, k) && target[k] == n;
    SurvivorAt(history, target, k);
    DisplacedLoses(env, zone, history, target, k);
    RekeyedWinner(env, zone, history, k);
  }

  lemma RekeyedSurvives(env: Env, zone: Zone, history: Table, target: map<Key, Key>, n: Key)
    requires IsStaging(env, zone, history, target) && NoCollision(history, target) && n in Rekeyed(env, zone, history)
    ensures n in Survivors(history, target)
  {
    var k := RekeyedRow(env, zone, history, n);
    DisplacedLoses(env, zone, history, target, k);
    SurvivorAt(history, target, k);
  }

  /** Copying by the staging table is re-keying; the primary key of the new table holds. */
  lemma SurvivorsAreRekeyed(env: Env, zone: Zone, history: Table, target: map<Key, Key>)
    requires IsStaging(env, zone, history, target)
    ensures NoCollision(history, target)
    ensures Survivors(history, target) == Rekeyed(env, zone, history)
  {
    SurvivorsDoNotCollide(env, zone, history, target);
    forall n | n in Survivors(history, target)
      ensures n in Rekeyed(env, zone, history) && Rekeyed(env, zone, history)[n] == Survivors(history, target)[n]
    {
      SurvivorIsRekeyed(env, zone, history, target, n);
    }
    forall n | n in Rekeyed(env, zone, history) ensures n in Survivors(history, target) {
      RekeyedSurvives(env, zone, history, target, n);
    }
  }

  /** Where rows go: one key for each group of rows that go to the same place. */
  function Targets(target: map<Key, Key>): set<Key> {
    set k | k in target :: target[k]
  }

  lemma TargetsAreNewKeys(env: Env, zone: Zone, history: Table, target: map<Key, Key>)
    requires IsStaging(env, zone, history, target)
    ensures Targets(target) == NewKeys(env, zone, history)
    ensures |Rekeyed(env, zone, history)| == |Targets(target)|
  {
    RekeyedKeys(env, zone, history);
    assert forall k | k in history :: k in target;
  }

  /** The staging table so far, and which of its rows move to another date. */
  predicate IsStaged(env: Env, to: Zone, history: Table, target: map<Key, Key>, moved: set<Key>) {
    && target.Keys <= history.Keys && moved <= target.Keys
    && (forall k | k in target ::
          env.dateOf(to, history[k].fetchedAt) == Some(target[k].date) && target[k].uuid == k.uuid)
    && (forall k | k in target :: k in moved <==> target[k].date != k.date)
  }

  lemma StageOne(env: Env, to: Zone, history: Table, target: map<Key, Key>, moved: set<Key>, k: Key, newDate: Date)
    requires IsStaged(env, to, history, target, moved) && k in history && k !in target
    requires env.dateOf(to, history[k].fetchedAt) == Some(newDate)
    ensures IsStaged(env, to, history, target[k := Key(k.uuid, newDate)], if newDate != k.date then moved + {k} else moved)
  {
  }

  lemma AllStaged(env: Env, to: Zone, history: Table, target: map<Key, Key>, moved: set<Key>)
    requires IsStaged(env, to, history, target, moved) && target.Keys == history.Keys
    ensures Mappable(env, to, history) && moved == Moved(env, to, history)
    ensures forall k | k in history :: target[k] == NewKey(env, to, history, k)
  {
    assert forall k | k in history :: k in target;
  }

  // ----- The storage object -----

  class DbFile {
    var image: DbImage

    constructor (image: DbImage)
      ensures this.image == image
    {
      this.image := image;
    }
  }

  class DbInstance {
    const env: Env
    const file: DbFile
    var timezone: Zone

    constructor Connect(env: Env, file: DbFile, timezone: Zone)
      ensures this.env == env && this.file == file && this.timezone == timezone
    {
      this.env := env;
      this.file := file;
      this.timezone := timezone;
    }

    /** Opens the file under the configured zone; a refused open leaves the file as it was. */
    static method Open(env: Env, file: DbFile, config: string, fault: bool)
      returns (r: Result<DbInstance, DbError>)
      modifies file
      ensures r.Ok? <==> !fault && EnsureTimezone(env, old(file.image), config).Ok?
      ensures r.Ok? <==>
              !fault && env.isZone(config)
              && match old(file.image.pending)
                 case None => old(file.image.zone) == None || old(file.image.zone) == Some(config)
                 case Some(pending) => pending == config && old(file.image.zone) == Some(config)
      ensures r.Ok? ==> fresh(r.value) && r.value.env == env && r.value.file == file && r.value.timezone == config
      ensures r.Ok? ==> Ok(file.image) == EnsureTimezone(env, old(file.image), config)
      ensures r.Ok? ==> file.image == DbImage(old(file.image.history), Some(config), None)
      ensures r.Err? ==> file.image == old(file.image)
    {
      OpensExactlyWhen(env, file.image, config);
      if !env.isZone(config) {
        return Err(InvalidZone(config));
      }
      if fault {
        return Err(Sqlite);
      }
      var db := new DbInstance.Connect(env, file, config);
      var outcome := db.Ensure(config);
      if outcome.Err? {
        return Err(outcome.error);
      }
      return Ok(db);
    }

    method Ensure(config: string) returns (r: Result<(), DbError>)
      requires timezone == config && env.isZone(config)
      modifies file, this`timezone
      ensures match EnsureTimezone(env, old(file.image), config)
              case Ok(image) => r.Ok? && file.image == image && timezone == config
              case Err(error) => r == Err(error) && file.image == old(file.image)
    {
      var stored, pending := file.image.zone, file.image.pending;
      if pending.Some? {
        if !env.isZone(pending.value) {
          return Err(InvalidZone(pending.value));
        }
        if stored == None {
          return Err(ZoneMissing);
        }
        if !env.isZone(stored.value) {
          return Err(InvalidZone(stored.value));
        }
        if stored.value != pending.value || config != pending.value {
          return Err(PendingMismatch);
        }
        timezone := pending.value;
        r := ClearPendingTimezone(pending.value, false);
        return;
      }
      if stored == None {
        file.image := file.image.(zone := Some(config));
        timezone := config;
        return Ok(());
      }
      if !env.isZone(stored.value) {
        return Err(InvalidZone(stored.value));
      }
      if stored.value != config {
        return Err(ZoneMismatch);
      }
      timezone := stored.value;
      return Ok(());
    }

    /** Files a snapshot under its local date; an older one never replaces a newer one of that day. */
    method PutHistorySnapshot(snapshot: Snapshot, fetchedAt: Millis, fault: bool) returns (r: Result<(), DbError>)
      modifies file
      ensures r.Ok? <==> !fault && IsAcceptable(env, timezone, snapshot, fetchedAt)
      ensures var error := SnapshotError(env, timezone, snapshot, fetchedAt); error.Some? ==> r == Err(error.value)
      ensures r.Err? ==> file.image == old(file.image)
      ensures r.Ok? ==>
                && snapshot.station.Some? && env.dateOf(timezone, fetchedAt).Some?
                && var key := Key(env.uuidOf(snapshot.station.value.name), env.dateOf(timezone, fetchedAt).value);
                   file.image == old(file.image).(
                     history := PutRow(old(file.image.history), key, Row(snapshot.encoded, fetchedAt)))
    {
      var error := RejectSnapshot(snapshot, fetchedAt);
      AcceptsExactlyWhen(env, timezone, snapshot, fetchedAt);
      if error.Some? {
        return Err(error.value);
      }
      if fault {
        return Err(Sqlite);
      }
      var key := Key(snapshot.station.value.uuid, env.dateOf(timezone, fetchedAt).value);
      var history := file.image.history;
      if key in history {
        if fetchedAt >= history[key].fetchedAt {
          file.image := file.image.(history := history[key := Row(snapshot.encoded, fetchedAt)]);
        }
      } else {
        file.image := file.image.(history := history[key := Row(snapshot.encoded, fetchedAt)]);
      }
      return Ok(());
    }

    /** The checks before the upsert. */
    method RejectSnapshot(snapshot: Snapshot, fetchedAt: Millis) returns (error: Option<DbError>)
      ensures error == SnapshotError(env, timezone, snapshot, fetchedAt)
      ensures error == None ==> snapshot.station.Some? && env.dateOf(timezone, fetchedAt).Some?
                                && snapshot.station.value.uuid == env.uuidOf(snapshot.station.value.name)
    {
      if env.dateOf(timezone, fetchedAt) == None {
        return Some(InvalidTimestamp);
      }
      if snapshot.station == None {
        return Some(MissingStation);
      }
      var station := snapshot.station.value;
      var named := HasText(station.name);
      if !named {
        return Some(EmptyStationName);
      }
      var identified := HasText(station.uuid);
      if !identified {
        return Some(EmptyStationUuid);
      }
      if station.uuid != env.uuidOf(station.name) {
        return Some(NotCanonical);
      }
      return None;
    }

    /** Something is left of the text when it is trimmed. */
    static method HasText(text: string) returns (has: bool)
      ensures has == !IsBlank(text)
    {
      BlankTrimsToNothing(text);
      has := Trim(text) != [];
    }

    /** The newest row of the station. */
    method GetLatestSnapshot(uuid: Uuid) returns (latest: Option<Stored>)
      ensures latest == None ==> IsLatest(file.image.history, uuid, None)
      ensures latest.Some? ==>
                && IsLatest(file.image.history, uuid, Some(latest.value.row))
                && Key(uuid, latest.value.date) in file.image.history
                && file.image.history[Key(uuid, latest.value.date)] == latest.value.row
    {
      var history := file.image.history;
      var rest := history.Keys;
      latest := None;
      while rest != {}
        invariant rest <= history.Keys
        invariant latest == None ==> forall k | k in history.Keys - rest :: k.uuid != uuid
        invariant latest.Some? ==>
                    && Key(uuid, latest.value.date) in history
                    && history[Key(uuid, latest.value.date)] == latest.value.row
                    && forall k | k in history.Keys - rest && k.uuid == uuid ::
                         history[k].fetchedAt <= latest.value.row.fetchedAt
        decreases rest
      {
        var k := Pick(rest);
        rest := rest - {k};
        if k.uuid == uuid && (latest == None || latest.value.row.fetchedAt < history[k].fetchedAt) {
          latest := Some(Stored(k.date, history[k]));
        }
      }
    }

    /** The newest `pageSize` rows the cursor reaches, oldest first. */
    method GetHistorySnapshotPage(uuid: Uuid, cursor: Cursor, pageSize: nat) returns (r: Result<Page, DbError>)
      ensures pageSize == 0 ==> r == Ok(Page([], false))
      ensures r.Ok? <==> pageSize == 0 || (!cursor.Malformed? && pageSize < I64_MAX)
      ensures r.Ok? && pageSize > 0 ==> IsPage(r.value, file.image.history, uuid, cursor, pageSize)
    {
      if pageSize == 0 {
        return Ok(Page([], false));
      }
      if cursor.Malformed? {
        return Err(InvalidCursor);
      }
      if pageSize >= I64_MAX {
        return Err(PageTooLarge);
      }
      var history := file.image.history;
      var below := DatesBelow(history, uuid, cursor);
      // ORDER BY date DESC LIMIT pageSize + 1
      var rest := below;
      var rows: seq<Stored> := [];
      while |rows| < pageSize + 1 && rest != {}
        invariant |rows| <= pageSize + 1 && Collected(rows, rest, below, history, uuid)
        decreases rest
      {
        var date := Greatest(rest);
        BelowHasRow(history, uuid, cursor, date);
        CollectNext(rows, rest, below, history, uuid, date);
        rows := rows + [Stored(date, history[Key(uuid, date)])];
        rest := rest - {date};
      }
      var hasMore := |rows| > pageSize;
      if hasMore {
        TruncateLast(rows, rest, below, history, uuid);
        rest := rest + {rows[|rows| - 1].date};
        rows := rows[..pageSize];
      }
      CollectedMakePage(rows, rest, history, uuid, cursor, pageSize);
      return Ok(Page(Reversed(rows), hasMore));
    }

    static method Greatest(dates: set<Date>) returns (date: Date)
      requires dates != {}
      ensures date in dates && forall other | other in dates :: other <= date
    {
      date := Pick(dates);
      var rest := dates - {date};
      while rest != {}
        invariant rest <= dates && date in dates
        invariant forall other | other in dates :: other in rest || other <= date
        decreases rest
      {
        var other := Pick(rest);
        rest := rest - {other};
        if date < other {
          date := other;
        }
      }
    }

    /**
      Files every row under its date in the new zone, keeping the newest of those that collide,
      records the new zone and leaves the marker that the configuration is still to follow.
     */
    method MigrateTimezone(from: string, to: string, fault: bool) returns (r: Result<nat, DbError>)
      modifies file, this`timezone
      ensures r.Ok? <==>
              && !fault && env.isZone(from) && env.isZone(to)
              && old(file.image.pending) == None && old(file.image.zone) == Some(from)
              && (from == to || forall k | k in old(file.image.history) ::
                    env.dateOf(to, old(file.image.history)[k].fetchedAt).Some?)
      ensures r.Err? ==> file.image == old(file.image) && timezone == old(timezone)
      ensures r.Ok? ==> Migrate(env, old(file.image), from, to) == Ok(file.image) && timezone == to
      ensures !fault && r.Err? ==> Migrate(env, old(file.image), from, to) == Err(r.error)
      ensures r.Ok? && from == to ==> r.value == 0
      ensures r.Ok? && from != to ==> r.value == |Moved(env, to, old(file.image.history))|
    {
      MigratesExactlyWhen(env, file.image, from, to);
      if !env.isZone(from) {
        return Err(InvalidZone(from));
      }
      if !env.isZone(to) {
        return Err(InvalidZone(to));
      }
      if fault {
        return Err(Sqlite);
      }
      var image := file.image;
      if image.pending.Some? {
        return Err(AlreadyPending(image.pending.value));
      }
      if image.zone == None {
        return Err(ZoneMissing);
      }
      var stored := image.zone.value;
      if !env.isZone(stored) {
        return Err(InvalidZone(stored));
      }
      if stored != from {
        return Err(WrongOldZone(stored));
      }
      if from == to {
        timezone := to;
        return Ok(0);
      }
      r := RebuildHistory(to);
    }

    /** The part of the transaction that rewrites the history and the two entries. */
    method RebuildHistory(to: Zone) returns (r: Result<nat, DbError>)
      modifies file, this`timezone
      ensures r.Ok? <==> Mappable(env, to, old(file.image.history))
      ensures r.Err? ==> r.error == InvalidTimestamp && file.image == old(file.image) && timezone == old(timezone)
      ensures r.Ok? ==> file.image == DbImage(Rekeyed(env, to, old(file.image.history)), Some(to), Some(to)) && timezone == to
      ensures r.Ok? ==> r.value == |Moved(env, to, old(file.image.history))|
    {
      var history := file.image.history;
      var stage := StageMoves(history, to);
      if stage.Err? {
        return Err(stage.error);
      }
      var (target, rewritten) := stage.value;
      // One row per station and new date is expected.
      var expected := |Targets(target)|;
      var staged := CopyWinners(history, to, target);
      TargetsAreNewKeys(env, to, history, target);
      if |staged| != expected {
        return Err(CountMismatch);
      }
      file.image := DbImage(staged, Some(to), Some(to));
      timezone := to;
      return Ok(rewritten);
    }

    /** Fills the staging table, which says where each row goes, and counts the rows that move. */
    method StageMoves(history: Table, to: Zone) returns (r: Result<(map<Key, Key>, nat), DbError>)
      ensures r.Ok? <==> Mappable(env, to, history)
      ensures r.Err? ==> r.error == InvalidTimestamp
      ensures r.Ok? ==> r.value.0.Keys == history.Keys && r.value.1 == |Moved(env, to, history)|
      ensures r.Ok? ==> forall k | k in history :: r.value.0[k] == NewKey(env, to, history, k)
    {
      var target: map<Key, Key> := map[];
      var rewritten := 0;
      var entries := history.Keys;
      ghost var moved: set<Key> := {};
      while entries != {}
        invariant entries <= history.Keys && target.Keys == history.Keys - entries
        invariant IsStaged(env, to, history, target, moved) && rewritten == |moved|
        decreases entries
      {
        var k := Pick(entries);
        var newDate := env.dateOf(to, history[k].fetchedAt);
        if newDate == None {
          return Err(InvalidTimestamp);
        }
        StageOne(env, to, history, target, moved, k, newDate.value);
        entries := entries - {k};
        target := target[k := Key(k.uuid, newDate.value)];
        if newDate.value != k.date {
          rewritten := rewritten + 1;
          moved := moved + {k};
        }
      }
      AllStaged(env, to, history, target, moved);
      return Ok((target, rewritten));
    }

    /** Copies the rows that no newer row displaces; the new primary key is never violated. */
    method CopyWinners(history: Table, to: Zone, target: map<Key, Key>) returns (staged: Table)
      requires IsStaging(env, to, history, target)
      ensures staged == Rekeyed(env, to, history)
    {
      SurvivorsAreRekeyed(env, to, history, target);
      staged := Survivors(history, target);
    }

    /** Removes the marker once the configuration has followed; refuses a marker for another zone. */
    method ClearPendingTimezone(expected: string, fault: bool) returns (r: Result<(), DbError>)
      modifies file
      ensures r.Ok? <==>
              !fault && env.isZone(expected)
              && (old(file.image.pending) == None || old(file.image.pending) == Some(expected))
      ensures r.Err? ==> file.image == old(file.image)
      ensures r.Ok? ==> file.image == old(file.image).(pending := None)
      ensures r.Ok? ==> ClearPending(env, old(file.image), expected) == Ok(file.image)
      ensures !fault && r.Err? ==> ClearPending(env, old(file.image), expected) == Err(r.error)
    {
      if !env.isZone(expected) {
        return Err(InvalidZone(expected));
      }
      if fault {
        return Err(Sqlite);
      }
      if file.image.pending.Some? {
        var pending := file.image.pending.value;
        if !env.isZone(pending) {
          return Err(InvalidZone(pending));
        }
        if pending != expected {
          return Err(PendingMismatch);
        }
        file.image := file.image.(pending := None);
      }
      return Ok(());
    }
  }
}
