# Verification of the weather engine's stateful kernel

This project models, in Dafny, the parts of the weather engine and its client that keep state for a
long time or repair it after a failure, and proves what they promise over whole runs.

- **Weather history and timezone migration** (`HistoryTable`, `HistoryPages`, `Storage`,
  `TimezoneProtocol`, `Runtime`). One row per station and local date; a migration re-keys the whole
  table under another timezone, marks it, lets the configuration file follow and removes the mark. A
  crash may fall between any two durable effects, also during recovery. The local date of an instant
  is an arbitrary partial function of zone and instant, so nothing depends on real timezone rules.
- **Database actor** (`ActorProtocol`, `Actor`). Gated admission, a FIFO channel, a worker that
  poisons itself after a failed post-commit step, shutdown with one outcome for all callers.
- **Refresh scheduler** (`RefreshSchedule`, `Refresh`, `RefreshRuns`). Deadlines, TTL changes, date
  changes, four job slots, and the list of stations with parents first.
- **Resource cache and request coalescing** (`ResourceState`, `ResourceManager`, `ResourceRuns`,
  `ResourceRecency`, `Singleflight`). A byte-bounded least-recently-used cache with pinned registrations, and a
  reference-counted table of shared flights.
- **Paged search of the client** (`SearchText`, `SearchResults`, `SearchMatches`, `Pagination`,
  `PagedSearch`, `SearchLaws`, `SearchServer`, `Station`, `Text`). Incremental filtering and
  de-duplication with early stop, against the search that fetches everything first, for every server
  and for the engine's own paging.
- **Provider catalogues** (`Catalog`, `CatalogRuns`, `CatalogIsolation`, `CatalogAnswers`,
  `CatalogStore`, `Ordering`). Replacing a provider's provinces or cities with everything derived from
  them, and reading them back.

Code that changes fields in place is a class whose methods are proved against functions of the old
state; code that only computes is functions. A database transaction is one assignment to the field
that holds the tables. Protocols are step machines over the same functions, so that an invariant of
every run speaks about what the methods do. The state machines put no order on the steps of different
parties: any interleaving of enabled steps is a run.

`dafny verify dfyconfig.toml` checks the whole project.

## Findings

- Two jobs for one station can run at once: disabling a station while its job runs and enabling it
  again creates a fresh schedule entry that is claimed. `RefreshRuns.DroppedInFlightCanDouble` shows
  that a dropped station can come to two jobs exactly when it had one when it was dropped, and
  `RefreshRuns.AtMostOneJob` that nothing else leads there.
- A search by limit that stops early need not return what fetching everything first would return: a
  city on one page can take the place of a station on the next. `SearchLaws.EarlyStopCanDiffer` gives
  a server, `SearchLaws.EarlyStopAgreesExactlyWhen` the exact condition on the later pages, and
  `SearchLaws.OnlyStationsAreSafe` what the client can know when it stops. A search with a selector
  is not affected.
- The primary key of a cached city does not contain its province, so a city list that passes
  validation is still refused, and rolled back, when one of its codes belongs to a city of another
  province of the same provider (`CatalogRuns.ValidCitiesCanBeRefused`, and exactly then by
  `CatalogStore.CatalogDb.InsertCities`).
- The two error paths of an admission that has seen the actor open cannot be taken
  (`ActorProtocol.OpenAdmissionSucceeds`, `ActorProtocol.OpenActorAdmits`), and the row count check of a migration cannot fail
  (`HistoryTable.RekeyedKeys`).

## Model

| member | source | states |
|---|---|---|
| HistoryTable.LatestIsUnique | weather-core/db/src/storage.rs:163-187 | in a table whose rows are filed under their own dates the newest row of a station exists and no tie is possible, so the first row by falling timestamp is well defined |
| HistoryTable.WinnersNeverCollide | weather-core/db/src/storage.rs:763-791 | the rows chosen by the NOT EXISTS rule have pairwise different new keys, so the insert never violates the primary key |
| HistoryTable.RekeyedKeys | weather-core/db/src/storage.rs:728-803 | exactly one row per station and new date is copied, so the staged count always equals the expected one |
| HistoryTable.RekeyedRow | weather-core/db/src/storage.rs:763-791 | every rebuilt row is an old row with payload and timestamp unchanged, filed under its date in the new zone |
| HistoryTable.DroppedRowIsBeaten | weather-core/db/src/storage.rs:763-791 | each row either survives or is beaten by the one row kept under its station and new date: by a later timestamp, or by the same one filed under a later old date |
| HistoryTable.RekeyingKeepsLatest | weather-core/db/src/storage.rs:656-837 | a migration never changes the newest snapshot of any station |
| HistoryTable.ThereAndBack | weather-core/db/src/storage.rs:656-837 | migrating to another zone and back gives a sub-table of the original with every survivor at its own key, loses nothing on the way back, and is the whole table exactly when the other zone keeps each station's dates apart |
| HistoryTable.PutLatest | weather-core/db/src/storage.rs:112-161 | an upsert keeps every row dated and acts on the newest row of its station like a register that keeps the last write with the greatest timestamp |
| HistoryPages.PutsAboveCursor | weather-core/db/src/storage.rs:112-161 | any number of rows put on dates at or after the cursor leave the rows below the cursor as they were |
| HistoryPages.WalkSeesEveryOlderRow | weather-core/db/src/storage.rs:189-237 | following the oldest date of each page, with such puts in between, shows every row below the first cursor exactly once in date order |
| HistoryPages.WalkIsShort | weather-core/db/src/storage.rs:189-237 | the walk ends: every page but the last is full, so the number of pages is bounded by the number of rows |
| HistoryPages.CollectedMakePage | weather-core/db/src/storage.rs:205-237 | fetching one row more than the page size, truncating and reversing gives the newest rows below the cursor, oldest first, with the right flag |
| HistoryPages.AnnouncesExactlyWhen | weather-core/db/src/storage.rs:205-237 | a page announces more if and only if the station has a row older than the oldest one on it |
| HistoryPages.EmptyExactlyWhen | weather-core/db/src/storage.rs:189-237 | a page is empty if and only if the station has no row below the cursor, and then it announces nothing |
| Storage.SurvivorsAreRekeyed | weather-core/db/src/storage.rs:763-791 | selecting by the staging table is the re-keying of the history and respects the primary key |
| Storage.OpensExactlyWhen | weather-core/db/src/storage.rs:76-110 | the exact condition on zones and marker under which a file opens, and the file it leaves |
| Storage.AcceptsExactlyWhen | weather-core/db/src/storage.rs:112-140 | a snapshot is accepted if and only if it has a date, a station, a name, an id and the id is the canonical one of the name |
| Storage.MigratesExactlyWhen | weather-core/db/src/storage.rs:656-744 | a migration is accepted if and only if both zones are known, no marker is there, the stored zone is the old one and, unless both are the same, every row has a date in the new one |
| Storage.ClearsExactlyWhen | weather-core/db/src/storage.rs:850-877 | clearing is accepted if and only if there is no marker or it names the expected known zone |
| Storage.InspectsExactlyWhen | weather-core/db/src/storage.rs:839-848 | an inspection reports a marker exactly if it names the stored, known zone |
| Storage.DbInstance.Open | weather-core/db/src/storage.rs:60-74 | opening succeeds if and only if the configured zone is known and either no zone is stored and no marker, or the stored zone and a present marker both equal the configured one; then the file has that zone and no marker, otherwise it is untouched |
| Storage.DbInstance.Ensure | weather-core/db/src/storage.rs:76-110 | the new file is the one `EnsureTimezone` gives, or the matching error with the file untouched |
| Storage.DbInstance.PutHistorySnapshot | weather-core/db/src/storage.rs:112-161 | succeeds exactly for a snapshot with a date, a named station and its canonical id; then one upsert under that id and local date, otherwise nothing changes |
| Storage.DbInstance.GetLatestSnapshot | weather-core/db/src/storage.rs:163-187 | returns a stored row of the station that no other row of it is newer than, or nothing if there is none |
| Storage.DbInstance.GetHistorySnapshotPage | weather-core/db/src/storage.rs:189-237 | returns the page that the walk lemmas speak about, or the cursor and size errors |
| Storage.DbInstance.MigrateTimezone | weather-core/db/src/storage.rs:656-837 | succeeds if and only if there is no fault, both zones are known, there is no marker, the stored zone is the old one and every row has a date in the new zone; then it commits the re-keyed history, zone and marker together and counts the rows that moved, otherwise file and zone in memory stay |
| Storage.DbInstance.StageMoves | weather-core/db/src/storage.rs:695-744 | stages one target per row, counts exactly the rows whose date changes, and fails exactly when a timestamp has no date in the new zone |
| Storage.DbInstance.ClearPendingTimezone | weather-core/db/src/storage.rs:850-877 | succeeds if and only if the marker is absent or names the expected known zone, and then it is gone |
| TimezoneProtocol.StepKeepsConsistent | weather-core/db/src/actor.rs:861-893 | each step, crash or failure keeps: a marker names the database zone, no marker means the configuration file names it, every row is filed under its own date |
| TimezoneProtocol.EveryRunIsConsistent | weather-core/db/src/storage.rs:76-110 | the same in every state of every run |
| TimezoneProtocol.RestartRollsForward | weather-core/engine/src/runtime.rs:159-197 | from every reachable state one uninterrupted restart succeeds, with both files and the engine under one zone, no marker, and the history unchanged |
| TimezoneProtocol.ServingZonesAgree | weather-core/engine/src/runtime.rs:276-300 | while the engine serves, live configuration, configuration file and database name one zone |
| TimezoneProtocol.MigrationSucceeds | weather-core/db/src/actor.rs:861-893 | in every serving state of every run a migration to another known zone in which all rows have a date ends, after its three steps, with engine, configuration and database under that zone, the re-keyed history and no marker; any other request leaves everything as it was |
| TimezoneProtocol.FailureAfterCommitPoisons | weather-core/db/src/actor.rs:875-889 | a failed configuration write after the commit leaves the committed database and the old or new configuration, and nothing but a crash changes them any more |
| TimezoneProtocol.RecoveryOutcome | weather-core/engine/src/runtime.rs:276-300 | a recovery writes the configuration only if it does not name the marked zone, and a failing write stops the start |
| TimezoneProtocol.OpenOutcome | weather-core/db/src/storage.rs:60-110 | opening after a recovery serves under the configured zone without marker, or a fault stops it with nothing changed |
| TimezoneProtocol.LatestIsTheRegister | weather-core/db/src/storage.rs:163-187 | over any run with migrations, crashes and recoveries the newest snapshot of each station is what a register that ignores them all would hold |
| TimezoneProtocol.LatestNeverFalls | weather-core/db/src/storage.rs:163-187 | the newest timestamp of a station never falls as a run goes on |
| TimezoneProtocol.AcceptedPutIsLatest | weather-core/db/src/storage.rs:112-161 | while the engine serves, a snapshot with a date and no newer one before it becomes the newest of its station |
| Runtime.RecoverPendingTimezone | weather-core/engine/src/runtime.rs:276-300 | has the effect of the machine's recovery step and reports whether it changed the configuration |
| Runtime.Start | weather-core/engine/src/runtime.rs:159-197 | read, recover, open: exactly the three machine steps of a restart |
| Runtime.MigrateDbTimezone | weather-core/db/src/actor.rs:861-893 | commit, configuration, marker are exactly the machine steps; poisoned means a failure after the commit, any other failure has changed nothing |
| ActorProtocol.EveryRunIsConsistent | weather-core/db/src/actor.rs:403-429 | the invariant of gate, sender, phase, poison and bookkeeping in every state of every run |
| ActorProtocol.HandledOnceInOrder | weather-core/db/src/actor.rs:714-732 | admitted commands are, without repetition and in admission order, the executed ones, the one in hand, the rejected ones and the queue; when the worker has returned the queue is empty, no sender is left and nothing is admitted any more |
| ActorProtocol.PoisonIsFinal | weather-core/db/src/actor.rs:656-732 | a command that comes back as failed after its commit is the last one executed, and the poison slot and all rejections carry its message for ever |
| ActorProtocol.PoisonHasACause | weather-core/db/src/actor.rs:238-267 | the poison message always stems from a command that failed after its commit, the first to do so |
| ActorProtocol.PhasesMoveForward | weather-core/db/src/actor.rs:238-267 | phases never go back, and phase Poisoned always finds its message |
| ActorProtocol.OpenAdmissionSucceeds | weather-core/db/src/actor.rs:403-429 | an admission that has seen phase Open finds the sender, and its receiver is alive |
| ActorProtocol.OpenActorAdmits | weather-core/db/src/actor.rs:403-429 | in every reachable open state with a free gate and room in the channel the four steps of an admission append the command to queue and admissions, let its caller wait for the reply, and change nothing else |
| ActorProtocol.NewCallIsAdmitted | weather-core/db/src/actor.rs:403-429 | so does a new call of any holder of a handle |
| ActorProtocol.GateIsNeverStuck | weather-core/db/src/actor.rs:403-429 | in every run the holder of the gate can take its next step, unless it is sending into a full channel |
| ActorProtocol.CallersMayLeave | weather-core/db/src/actor.rs:403-439 | a waiting caller can give up at any await point: the gate is freed and no admitted command is taken back |
| ActorProtocol.OtherPhasesRefuse | weather-core/db/src/actor.rs:408-416 | in every other phase the admission is refused: with the poison message if the actor is poisoned, otherwise as closing or closed |
| ActorProtocol.QueueStaysBounded | weather-core/db/src/actor.rs:313 | the channel never holds more than 128 commands |
| ActorProtocol.NextCommandIsExecuted | weather-core/db/src/actor.rs:719-731 | an idle healthy worker takes the oldest queued command and executes it, and its caller can collect the reply |
| ActorProtocol.NextCommandIsRejected | weather-core/db/src/actor.rs:724-727 | after a failure it rejects the oldest queued command with the failure message instead |
| ActorProtocol.RepliesExactlyWhenHandled | weather-core/db/src/actor.rs:714-732 | in every run a waiting caller can collect its reply if and only if its command is neither queued nor in the hand of the worker |
| ActorProtocol.FailurePoisons | weather-core/db/src/actor.rs:728-730 | in every run a failure after a commit sets slot, worker and, unless it is closing, phase |
| ActorProtocol.ShutdownCallersAgree | weather-core/db/src/actor.rs:629-649 | all shutdown callers, at any times, receive the outcome of the worker |
| ActorProtocol.ShutdownCloses | weather-core/db/src/actor.rs:629-654 | a shutdown that gets the gate moves the phase to Closing, unless it is Closed, and takes the sender away |
| ActorProtocol.LastDropCloses | weather-core/db/src/actor.rs:226-236 | so does the drop of the last handle |
| ActorProtocol.DropUndoesClone | weather-core/db/src/actor.rs:217-236 | dropping a clone of a handle undoes the cloning, so only the last handle closes the actor |
| ActorProtocol.OutcomeIsPublished | weather-core/db/src/actor.rs:674-693 | with an empty queue and no sender left the outcome of the checkpoint is published under phase Closed |
| ActorProtocol.ShutdownTerminates | weather-core/db/src/actor.rs:674-693 | once the sender is dropped a worker step stays enabled until the outcome is published, each one leaves less to do, and nobody adds to it |
| Actor.ActorState.Poison | weather-core/db/src/actor.rs:248-260 | the first message stays, and the phase changes only from Open |
| Actor.ActorState.PoisonError | weather-core/db/src/actor.rs:262-267 | reports the stable message, or the fallback text while there is none |
| Actor.ActorState.MarkAsClosing | weather-core/db/src/actor.rs:656-672 | reaches at least Closing and never takes Closed back |
| Actor.RunWorker | weather-core/db/src/actor.rs:714-732 | executes exactly the commands up to the first that fails after its commit, rejects the rest in order with that message, touches the database for nothing else but the closing checkpoint, and returns that checkpoint's outcome |
| Refresh.EnabledStations | weather-core/engine/src/refresh.rs:123-137 | no duplicates, exactly the enabled stations and their parents, in order of first mention with every district after its parent |
| Refresh.RefreshLoop.ReconcileSchedules | weather-core/engine/src/refresh.rs:143-171 | drops, retimes and adds entries as `Reconciled` says |
| Refresh.RefreshLoop.ScheduleDateRefresh | weather-core/engine/src/refresh.rs:173-187 | notes the date change for every station and staggers the idle ones |
| Refresh.RefreshLoop.ClaimDueStations | weather-core/engine/src/refresh.rs:210-235 | claims the first due idle stations in configuration order up to the free slots; each is left in flight, unmarked and with its deadline one TTL ahead, all others as they were |
| Refresh.RefreshLoop.DispatchDue | weather-core/engine/src/refresh.rs:189-208 | starts one job per claimed station |
| Refresh.RefreshLoop.Wake | weather-core/engine/src/refresh.rs:55-84 | the top of the loop: note a changed date, then dispatch |
| Refresh.RefreshLoop.FinishJob | weather-core/engine/src/refresh.rs:237-252 | the completed station is idle with its completion recorded, and due at once if a date change is pending, otherwise after its TTL or never if that is out of range |
| Refresh.RefreshLoop.NextSchedulerWait | weather-core/engine/src/refresh.rs:254-269 | the shortest gap to an idle deadline, or the fallback when no slot is free or nothing is due |
| RefreshSchedule.DueNamesAreDue | weather-core/engine/src/refresh.rs:210-235 | the stations offered to a dispatch are exactly the due idle ones |
| RefreshSchedule.ReconciledStation | weather-core/engine/src/refresh.rs:143-171 | a new station is due five seconds per position after the change; a kept one has only its deadline moved, to its last completion plus the TTL, and not even that while marked or never completed |
| RefreshSchedule.DateRefreshedStation | weather-core/engine/src/refresh.rs:173-187 | a date change marks a station and, unless it is in flight, makes it due five seconds per position later |
| RefreshSchedule.ClaimsAreFirst | weather-core/engine/src/refresh.rs:210-235 | as many due stations are claimed as there is room for, and with a claimed one every due one before it |
| RefreshSchedule.WaitEndsAtADeadline | weather-core/engine/src/refresh.rs:254-269 | the wait ends at the deadline of an idle station; it is one minute when there is none or four jobs run |
| RefreshRuns.EveryRunIsConsistent | weather-core/engine/src/refresh.rs:143-252 | in every run: an idle station with a pending date change has a finite deadline, any other completed idle one is due at last completion plus current TTL, a station in flight has a live job, and at most four jobs run |
| RefreshRuns.WakeLeavesNothingDue | weather-core/engine/src/refresh.rs:80-113 | after a wake-up four jobs run or nothing idle is due; the wait is never zero and with a free slot never outlasts an idle deadline |
| RefreshRuns.DateChangeIsNoted | weather-core/engine/src/refresh.rs:62-70 | the wake-up that sees a new date claims each station or leaves it marked |
| RefreshRuns.NotedDateIsNeverLost | weather-core/engine/src/refresh.rs:173-187 | the mark of a station that stays enabled disappears only by a claim, and keeps its deadline finite even under an endless TTL |
| RefreshRuns.SameDateNotesNothing | weather-core/engine/src/refresh.rs:62-70 | no date, the first one and the one seen last mark no station |
| RefreshRuns.ClaimTakesTheMark | weather-core/engine/src/refresh.rs:228-232 | after a wake-up every claimed station is in flight with a job and no longer marked |
| RefreshRuns.OneRefreshPerClaim | weather-core/engine/src/refresh.rs:210-252 | if nothing is noted meanwhile, the completion of a claimed station leaves it idle, unmarked and due one TTL later, or never if that is out of range |
| RefreshRuns.MarkedInFlightIsDueAtOnce | weather-core/engine/src/refresh.rs:237-252 | a station marked while in flight is due at once when its job ends |
| RefreshRuns.AtMostOneJob | weather-core/engine/src/refresh.rs:210-252 | a station never dropped while its job runs has at most one job, and has one exactly while it is marked in flight |
| RefreshRuns.DroppedInFlightCanDouble | weather-core/engine/src/refresh.rs:143-171 | in every run that has not done so before, a configuration change that drops a station leaves it able to get two jobs if and only if it has a job at that moment, whether or not a slot is free |
| ResourceState.EvictionDropsShortestPrefix | weather-core/engine/src/resource_cache.rs:222-232 | the eviction loop removes the shortest least-recent prefix of the recency list that makes room |
| ResourceRuns.StoreEvictsShortestPrefix | weather-core/engine/src/resource_cache.rs:204-244 | for every accepted store of every run that recency list exists, and exactly that prefix of the unexpired other entries goes |
| ResourceRecency.RecencyIsOrderOfUse | weather-core/engine/src/resource_cache.rs:143-244 | in every state of every run the cached entries are numbered in the order of their last accepted stores and ready answers |
| ResourceRecency.UsedIsMostRecent | weather-core/engine/src/resource_cache.rs:155-163 | right after a ready answer or an accepted store every other entry is less recent |
| ResourceRecency.StoreEvictsLeastRecentlyUsed | weather-core/engine/src/resource_cache.rs:204-244 | every accepted store drops the shortest prefix that makes room from the unexpired other entries, listed by their last uses in the trace |
| ResourceRecency.RegistryIsOrderOfTouch | weather-core/engine/src/resource_cache.rs:75-153 | the registrations are numbered in the order of their last registrations and requests |
| ResourceRecency.OnlyTheOldestIsDropped | weather-core/engine/src/resource_cache.rs:95-106 | a registration that disappears when another is added is the one least recently registered or asked for among those without a fetch under way |
| ResourceManager.Manager.Register | weather-core/engine/src/resource_cache.rs:75-114 | refuses, refreshes or adds a registration, evicting only the oldest unpinned one |
| ResourceRecency.RegisterSucceedsExactlyWhen | weather-core/engine/src/resource_cache.rs:75-114 | registering succeeds if and only if the source is not blank, there is a limit to fill, and its identifier stands for the same source or is new with a place free or a registration without a fetch under way |
| ResourceManager.Manager.BeginFetch | weather-core/engine/src/resource_cache.rs:143-180 | keeps the invariant and answers as `BegunFetch` says |
| ResourceRecency.BeginAnswers | weather-core/engine/src/resource_cache.rs:143-180 | the exact condition of each of the five answers |
| ResourceRecency.CachedIsServed | weather-core/engine/src/resource_cache.rs:155-163 | the bytes stored last, while they are in the cache, are what a request is answered with before their TTL has passed and never after |
| ResourceRecency.FailureIsRepeated | weather-core/engine/src/resource_cache.rs:164-202 | a reported failure is the answer to every request for five seconds, and the next request after that is told to start |
| ResourceManager.Manager.FinishFetch | weather-core/engine/src/resource_cache.rs:182-202 | clears the pending mark, or turns it into a remembered failure of a registered id |
| ResourceManager.Manager.Store | weather-core/engine/src/resource_cache.rs:204-244 | refuses oversized or unregistered resources; otherwise the entry stands beside what eviction left of the unexpired others |
| ResourceManager.Manager.PurgeExpired | weather-core/engine/src/resource_cache.rs:252-262 | exactly the expired entries go, and the byte count follows |
| ResourceRuns.EveryStateIsSound | weather-core/engine/src/resource_cache.rs:75-268 | in every run the byte count is the sum of the cached sizes and within the limit, cached and fetching ids are registered, registrations stay within their limit, and last uses differ |
| ResourceRuns.OneFetchAtATime | weather-core/engine/src/resource_cache.rs:143-202 | from a start answer until that fetch is finished no second start is given for the id and its registration stays |
| ResourceRuns.ReadyServesLastStore | weather-core/engine/src/resource_cache.rs:143-180 | a ready answer serves the bytes stored last under the id, within their TTL |
| Singleflight.FlightTable.Join | weather-core/engine/src/singleflight.rs:97-121 | joins the current flight of the key or starts a new one |
| Singleflight.FlightTable.Drop | weather-core/engine/src/singleflight.rs:146-166 | gives back one participation of its own flight and removes the entry with the last one |
| Singleflight.EveryRunIsConsistent | weather-core/engine/src/singleflight.rs:72-166 | participants are the number of live leases on the key, every live lease points at the current entry, flights are distinct, and starts are cancels plus one when the cell is not empty |
| Singleflight.EntryWhileLeased | weather-core/engine/src/singleflight.rs:97-166 | a key has an entry exactly while some lease on it is live |
| Singleflight.SameFlightSameResult | weather-core/engine/src/singleflight.rs:72-95 | all callers that return from one flight get the same result |
| Singleflight.CallersGetTheWorksValue | weather-core/engine/src/singleflight.rs:72-95 | in every run a caller that returns gets the value with which the work of some caller with the same key on the same flight ended, and its lease is gone |
| Singleflight.OverlappingCallsShare | weather-core/engine/src/singleflight.rs:97-121 | two live leases are on one flight if and only if their keys are the same |
| Singleflight.CallsJoin | weather-core/engine/src/singleflight.rs:97-121 | a call gets a new lease on its key and leaves all others; one that overlaps no other on its key opens an unused flight |
| Singleflight.CallersAreNeverStuck | weather-core/engine/src/singleflight.rs:72-95 | in every run a live caller can start, end or return, and a worker can always end or, by leaving, hand over |
| Singleflight.WorkStartsOnce | weather-core/engine/src/singleflight.rs:72-95 | work starts at most once more than it was cancelled, and never again once it is done |
| Singleflight.FinishedFlightStaysFinished | weather-core/engine/src/singleflight.rs:97-121 | a flight whose last participant has left is never joined again |
| Station.NormalizeIsIdempotent | weather-schema/src/station.rs:2-8 | normalizing twice is normalizing once and keeps the components |
| Station.ComponentsOfJoin | weather-schema/src/station.rs:2-8 | splitting after joining gives the components back |
| Station.ParentOf | weather-schema/src/station.rs:14-18 | exactly the three-level paths have a parent, the path of their first two components |
| Station.ParentHasNoParent | weather-schema/src/station.rs:14-18 | inheritance stops at two levels |
| Station.ShortNameDropsOneSuffix | weather-schema/src/station.rs:22-29 | each of the four administrative suffixes is removed once |
| Station.PlainNameStays | weather-schema/src/station.rs:22-29 | a name without any of them is unchanged |
| Station.CanonicalParent | weather-schema/src/station.rs:33-42 | the parent of a city's public path is the public path of its province, unless the city is the province's own |
| SearchText.SelectorReadsBack | weather-renderer/tui/src/search.rs:180-188 | a selector written behind any text is read back with that text |
| SearchText.SelectsExactlyWhen | weather-renderer/tui/src/search.rs:180-188 | a text is split if and only if it ends in a dot and a positive machine number, perhaps with a plus sign, and otherwise stays as it is |
| SearchText.ProviderIsAskedForTheInnermostPart | weather-renderer/tui/src/search.rs:190-196 | for a normalized path the provider is asked for its innermost component |
| SearchResults.ResultList.Retain | weather-renderer/tui/src/search.rs:96-129 | filters each list in place by the predicate of its kind |
| SearchResults.KeepHolds | weather-renderer/tui/src/search.rs:104-128 | filtered are exactly the items that match |
| SearchResults.ResultList.Append | weather-renderer/tui/src/search.rs:131-138 | moves the items of a page to the end and empties the page |
| SearchResults.ResultList.Dedup | weather-renderer/tui/src/search.rs:211-236 | the set-driven retains compute `Deduped` |
| SearchResults.ResultList.Finalize | weather-renderer/tui/src/search.rs:157-178 | selects the numbered station alone or cuts the lists to the limit |
| SearchResults.KeptWhenFirst | weather-renderer/tui/src/search.rs:211-236 | an item is kept exactly when no earlier item has its key |
| SearchResults.EarlyDedupIsHarmless | weather-renderer/tui/src/search.rs:211-236 | removing duplicates before appending changes nothing about removing them after |
| SearchResults.DedupAsYouGo | weather-renderer/tui/src/search.rs:62-64 | the same for whole responses, where listed stations also suppress their cities |
| SearchResults.FullStep | weather-renderer/tui/src/search.rs:62-66 | one turn of the paged search keeps up with the search that fetches everything first |
| SearchResults.EveryMatchIsListedOnce | weather-renderer/tui/src/search.rs:96-129 | that search lists the matching stations of all pages, each public identity once, and nothing else |
| SearchResults.CitiesAddSomething | weather-renderer/tui/src/search.rs:222-231 | the search lists exactly the matching cities of all pages that are not the place of a listed station, each once |
| SearchMatches.StationsMatchExactlyWhen | weather-renderer/tui/src/search.rs:96-113 | a station matches if and only if it is in the named region and city and, for a path, has that very name, or, for a plain station filter, that name or city |
| SearchMatches.PlacesMatchExactlyWhen | weather-renderer/tui/src/search.rs:114-128 | cities and provinces match by region and name, and never for a path |
| SearchMatches.PathListsItsStations | weather-renderer/tui/src/search.rs:96-129 | a search by path lists nothing but stations of exactly that name |
| SearchMatches.IdentitiesDiffer | weather-renderer/tui/src/search.rs:211-220 | no two listed stations share a public identity, and two without one differ in name or place |
| SearchMatches.ListedCitiesAreElsewhere | weather-renderer/tui/src/search.rs:222-231 | a city is listed if and only if it matches, is on some page, and no listed station lies in its province and city |
| SearchMatches.ProvincesAreListedOnce | weather-renderer/tui/src/search.rs:123-236 | listed are exactly the matching provinces of all pages, each name once |
| PagedSearch.ExecuteSearch | weather-renderer/tui/src/search.rs:28-79 | for every server: the answer is cut from the pages up to the first that suffice or the last one, and an error is returned exactly when the pages break off before that or the last one points nowhere |
| SearchServer.RequestsFollowThePages | weather-renderer/tui/src/search.rs:40-76 | every request names the query and province of the filters; the first asks from offset zero for the target, within 1 and 256, each later one for 256 items from where the page before it pointed |
| SearchServer.OffsetsAscend | weather-renderer/tui/src/search.rs:51-76 | between two requests the server announced more at a strictly larger offset in range |
| SearchServer.EndSaysWhy | weather-renderer/tui/src/search.rs:51-76 | the walk over the pages ends exactly for the reason it gives: nothing more, an offset that stands still or leaves the range, the cap, or a failed request |
| SearchServer.EngineWalk | weather-core/engine/src/handlers/fuzzy.rs:30-98 | against the engine the pages put together are its list of candidates if that ends within one full page of the last legal offset, and otherwise the walk ends in the offset error |
| SearchServer.EngineSelects | weather-core/engine/src/handlers/response.rs:127-140 | against the engine a search by selector over such a list succeeds with the numbered distinct match of the whole list |
| SearchServer.EngineReturnsAll | weather-core/engine/src/handlers/response.rs:127-140 | and one with a limit above the number of candidates returns exactly its distinct matches |
| SearchLaws.FailsExactlyWhen | weather-renderer/tui/src/search.rs:51-79 | a search fails if and only if the walk was cut short and no page before the cut, or before a last page that points nowhere, made it enough; the error is the one of the cut |
| SearchLaws.NoPageInVain | weather-renderer/tui/src/search.rs:69-71 | the search stops at the first page after which the stations reach the selector, or all results together the limit, or at the last page |
| SearchLaws.SelectorFindsTheNth | weather-renderer/tui/src/search.rs:40-79 | a selector returns exactly the numbered station of the full list, wherever the search stopped; if the list is too short everything was read |
| SearchLaws.LimitIsFilledOrAllIsRead | weather-renderer/tui/src/search.rs:140-178 | a search by limit fills it or returns everything, and its stations lead the full list |
| SearchLaws.AnswerIsUnique | weather-renderer/tui/src/search.rs:51-79 | the pages a server hands out decide one place to stop and one answer |
| SearchLaws.EarlyStopAgreesExactlyWhen | weather-renderer/tui/src/search.rs:140-178 | an early stop answers like the search that fetches everything if and only if the stations found fill the limit, or the later pages hold no new matching station and either stations and cities fill it or they hold no new matching city |
| SearchLaws.OnlyStationsAreSafe | weather-renderer/tui/src/search.rs:140-178 | from the pages read so far the answer is sure to be that of the full search, whatever follows, if and only if the stations found fill the limit |
| SearchLaws.EarlyStopCanDiffer | weather-renderer/tui/src/search.rs:140-178 | a server with two pages on which it differs |
| SearchLaws.RequestsAreBounded | weather-renderer/common/src/pagination.rs:6-30 | whatever the server answers at most 392 requests are made |
| Pagination.PageCursor.Request | weather-renderer/common/src/pagination.rs:15-30 | counts a legal request or refuses without change |
| Pagination.PageCursor.Advance | weather-renderer/common/src/pagination.rs:32-47 | moves strictly forward within the supported range, or refuses without change |
| Pagination.RequestsExactlyWhen | weather-renderer/common/src/pagination.rs:15-30 | a request is legal if and only if it asks for 1 to 256 items at an offset up to 100000 and fewer than 392 were made; it is counted |
| Pagination.AdvancesExactlyWhen | weather-renderer/common/src/pagination.rs:32-47 | the cursor moves if and only if more is announced at a later offset up to 100000, stops if nothing is, and refuses otherwise |
| Pagination.FullPagesNeverHitTheCap | weather-renderer/common/src/pagination.rs:6-47 | a server with full pages never runs into the request cap, only into the end of the offset range |
| Pagination.AllRequestsCanBeUsed | weather-renderer/common/src/pagination.rs:6-30 | the cap of 392 is tight |
| Text.BlankTrimsToNothing | weather-core/db/src/storage.rs:970-975 | blank text is the text whose trimmed form is empty |
| Catalog.AcceptedCodes | weather-core/db/src/validation.rs:39-50 | accepted are exactly the lists of codes that are not blank and all different |
| CatalogAnswers.AcceptsProvincesExactlyWhen | weather-core/db/src/storage.rs:239-250 | provinces are accepted if and only if provider and codes have text and no code is there twice |
| CatalogAnswers.AcceptsCitiesExactlyWhen | weather-core/db/src/storage.rs:350-404 | cities are accepted if and only if also the scope has text, every city belongs to it, and no cached city of another province of the provider has one of the codes |
| CatalogAnswers.AcceptsMappingExactlyWhen | weather-core/db/src/storage.rs:544-559 | a mapping is accepted if and only if provider, name and id have text and the id is the canonical one of the name |
| CatalogRuns.ReplaceProvincesKeepsConsistent | weather-core/db/src/storage.rs:239-311 | after replacing provinces every count is again the number of rows and no row is without a count |
| CatalogRuns.ReplaceCitiesKeepsConsistent | weather-core/db/src/storage.rs:350-404 | the same after replacing the cities of a province |
| CatalogRuns.EveryRunIsConsistent | weather-core/db/src/storage.rs:239-404 | the same in every reachable state |
| CatalogRuns.ValidCitiesCanBeRefused | weather-core/db/src/storage.rs:371-393 | in a reachable state a city list that passes validation is refused because its code belongs to a city of another province |
| CatalogRuns.QueriesNeverMismatch | weather-core/db/src/storage.rs:313-444 | the queries for provinces and cities never report a mismatch in such a state |
| CatalogRuns.AllScopesAreTheScopes | weather-core/db/src/storage.rs:446-524 | the bulk query gives, for every cached scope in order, what the query for one scope gives |
| CatalogAnswers.ProvincesReadBack | weather-core/db/src/storage.rs:239-348 | after any history the query returns exactly the provinces of the last accepted replacement with its time, in strict code order |
| CatalogAnswers.CitiesReadBack | weather-core/db/src/storage.rs:239-444 | after any history the query of a scope returns exactly the cities accepted last for it with their time, in strict order of city and code, unless a later province list left the scope out |
| CatalogAnswers.MappingsAreTheRegister | weather-core/db/src/storage.rs:363-370 | after any history a mapping is stored if and only if it was put last and no later replacement touched the catalogue it came from |
| CatalogAnswers.MismatchesAreReported | weather-core/db/src/storage.rs:313-444 | on any tables the queries report a count that is not the number of rows, and otherwise answer |
| CatalogAnswers.OrphansAreReported | weather-core/db/src/storage.rs:446-524 | on any tables the bulk query reports an orphan if and only if some city of the provider has a scope without a state |
| CatalogIsolation.OthersAreUntouched | weather-core/db/src/storage.rs:239-404 | a request leaves everything of other providers as it is |
| CatalogIsolation.ProvidersAreIsolated | weather-core/db/src/storage.rs:239-404 | after any history a provider has what its own requests alone would have given it |
| CatalogIsolation.MappingsAreCurrent | weather-core/db/src/storage.rs:363-370 | a station mapping in the tables was put after the last replacement of the catalogue it was derived from |
| CatalogStore.CatalogDb.ReplaceProviderProvinces | weather-core/db/src/storage.rs:239-311 | replaces rows, derived rows and state together or changes nothing |
| CatalogStore.CatalogDb.ReplaceProviderCities | weather-core/db/src/storage.rs:350-404 | replaces the scope, its mappings and its state together or changes nothing |
| CatalogStore.CatalogDb.InsertCities | weather-core/db/src/storage.rs:375-393 | fails exactly when a code is taken by a city of another province of the provider |
| CatalogStore.CatalogDb.PutProviderStationMapping | weather-core/db/src/storage.rs:544-588 | upserts a mapping with a canonical id or changes nothing |
| CatalogStore.CatalogDb.GetProviderProvinces | weather-core/db/src/storage.rs:313-348 | returns the rows in code order with their state, or the mismatch |
| CatalogStore.CatalogDb.GetProviderCities | weather-core/db/src/storage.rs:406-444 | returns the rows by city and code with their state, or the mismatch |
| CatalogStore.CatalogDb.GetAllProviderCityScopes | weather-core/db/src/storage.rs:446-524 | returns all scopes in order, or the orphan or first mismatch |
| Ordering.ListingIsSorted | weather-core/db/src/storage.rs:325-327 | an ordered query result is strictly sorted and holds every row once |
| Text.BelowAtFirstDifference | weather-core/db/src/storage.rs:325-327 | one text stands below another if it is a proper start of it or has the lower character where they first differ |

## Left out

- SQL text, schema validation, the write-ahead log, encoding and decoding of stored snapshots: tables are maps and payloads opaque values; a database error is a parameter `fault` that rolls the transaction back.
- Real timezone tables and the hash behind station and resource identifiers: arbitrary functions. A date text is represented by its rank in the database's text order.
- Files, sockets, processes, locks and clocks: the configuration file is one value that is replaced atomically, also when the write reports an error; instants are parameters. Changes of the configuration file by others are not modelled.
- Panics of the worker. A panic of the finalizer is caught by the code and acts like a failed one. Preparing the new configuration file before the commit can only refuse the request, and is not modelled.
- The actor's `admit`, `shutdown`, `close_sender` and `publish_terminal` are steps of the machine and not methods, because they wait for each other; fairness of the scheduler of tasks is not assumed, so termination is stated as a measure that worker steps reduce.
- The single-initializer cell of the async library: its contract (one initializer at a time, set once, a waiter takes over on cancellation) is part of the flight machine.
- RefreshRuns.EveryRunIsConsistent: assumes that the stagger deadline of the configured stations is representable; TTL deadlines need not be.
- RefreshRuns.DroppedInFlightCanDouble: assumes that one stagger step after the change is still representable.
- ResourceRuns.EveryStateIsSound: assumes that the 64-bit sequence has not run out and that twice the byte limit fits in a machine word.
- ResourceManager.Manager.Store: purge and expiry use one reading of the clock where the code reads it twice.
- Fairness between stations: claims go in configuration order, and the code promises no more.
- PagedSearch.ExecuteSearch: offsets and list lengths are unbounded integers; the saturating sum of lengths in the source compares with a target that fits in a machine word, which decides the same.
- The order of rows in a map is immaterial; a query with an order is modelled by the sorted sequence of its rows.
- The number of provinces or cities in one list always fits in 64 bits, so the overflow error of the row count is not modelled.
- Handlers, weather providers, the local-date search, configuration and database migration registries, user interface: easier or field-by-field. Of the engine's search handler only the paging is modelled; the list of candidates is an arbitrary function of query and province.
