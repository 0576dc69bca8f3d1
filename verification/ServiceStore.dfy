/**
 * The check service on top of its store: one state holds the service, its scheduler and the directory, and a worker
 * that has found something publishes it there. The program may crash at any step of a publication and start again
 * from what it finds.
 */
module ServiceStore {
  import opened Wrappers
  import opened Domain
  import opened SnapshotJson
  import opened Catalog
  import opened Publication
  import Objects = CheckObjects
  import P = CheckProtocol
  import Properties = CheckProperties

  /**
   * Where the catalog comes from that the published bytes are loaded with: found at the start; published with them
   * into the directory `before`; or put in its place by a publication of the same bytes that then failed.
   */
  datatype Source =
    | Found
    | Saved(attempt: Attempt, before: Disk, ending: Ending)
    | Replaced(attempt: Attempt, ending: Ending)

  /** The snapshot the published bytes stand for, and the catalog they are loaded with. */
  datatype Good = Good(snapshot: CheckedSnapshot, bytes: Bytes, catalog: seq<Provenance>, source: Source)

  datatype System = System(service: P.State, disk: Disk, good: Option<Good>)

  // Start

  function SnapshotIn(load: LoadResult): Option<CheckedSnapshot> {
    if load.Valid? then Some(load.snapshot) else None
  }

  /** The service starts from what it loads, unless loading fails. */
  predicate CanStart(disk: Disk, startup: P.Startup) {
    && P.ValidStartup(startup)
    && Guarded(disk)
    && (startup.readable ==> startup.stored == SnapshotIn(Load(disk)))
  }

  /** An invalid snapshot is discarded, unless that fails. */
  function Start(disk: Disk, startup: P.Startup, discards: bool): System {
    var load := Load(disk);
    System(P.Start(startup),
           if startup.readable && load.Invalid? && discards then disk.(published := None) else disk,
           if startup.readable && load.Valid?
           then Some(Good(load.snapshot, disk.published.value, load.repositories, Found)) else None)
  }

  // Events

  /** `Stops` is a crash: in the middle of a publication if there is a `stop`, and then the program starts again. */
  datatype Event =
    | Happens(event: P.Event)
    | CheckFails(error: ErrorCode, completedAt: Time)
    | CheckSaves(attempt: Attempt, ending: Ending, after: Disk)
    | Stops(stop: Option<Stop>, after: Disk, startup: P.Startup, discards: bool)

  /** A worker is on its way. */
  predicate Checking(service: P.State) {
    service.workers > 0 && service.pending.None?
  }

  ghost predicate Possible(s: System, event: Event) {
    match event
    case Happens(event) => !event.WorkerCompletes?
    case CheckFails(_, _) => Checking(s.service)
    case CheckSaves(attempt, ending, after) =>
      && Checking(s.service)
      && Unnamed(s.disk, ending.generation)
      && SaveEnds(s.disk, after, BytesOf(attempt), attempt.repositories, attempt.sidecarLength, ending)
    case Stops(stop, after, startup, _) =>
      && CanStart(after, startup)
      && (if stop.Some?
          then Checking(s.service) && Attempted(s.disk, after, stop.value.attempt, stop.value.reopened)
          else after == s.disk)
  }

  function WorkerOf(attempt: Attempt, ending: Ending): P.Worker {
    P.Worker(Ok(attempt.snapshot.snapshot), attempt.snapshot.fetchedAt, ending.ok)
  }

  function CatalogOf(attempt: Attempt, before: Disk, ending: Ending): seq<Provenance> {
    NewCatalog(before, BytesOf(attempt), attempt.repositories, ending.reused, ending.generation,
               attempt.sidecarLength)
  }

  /** A success is the new good snapshot; a failure leaves the old one, though perhaps with another catalog. */
  function GoodAfter(s: System, attempt: Attempt, ending: Ending, after: Disk): Option<Good> {
    var bytes, catalog := BytesOf(attempt), CatalogOf(attempt, s.disk, ending);
    if ending.ok then
      Some(Good(attempt.snapshot, bytes, if Load(after) == LoadOf(bytes, catalog) then catalog else [],
                Saved(attempt, s.disk, ending)))
    else if s.good.Some? && ending.committed && s.disk.published == Some(bytes) then
      Some(s.good.value.(catalog := catalog, source := Replaced(attempt, ending)))
    else s.good
  }

  /** An event that cannot occur changes nothing. */
  ghost function Step(s: System, event: Event): System {
    if !Possible(s, event) then s
    else
      match event
      case Happens(event) => s.(service := P.Step(s.service, event))
      case CheckFails(error, completedAt) =>
        s.(service := P.Step(s.service, P.WorkerCompletes(P.Worker(Err(error), completedAt, false))))
      case CheckSaves(attempt, ending, after) =>
        System(P.Step(s.service, P.WorkerCompletes(WorkerOf(attempt, ending))), after,
               GoodAfter(s, attempt, ending, after))
      case Stops(_, after, startup, discards) => Start(after, startup, discards)
  }

  ghost function Run(s: System, events: seq<Event>): System
    decreases events
  {
    if events == [] then s else Run(Step(s, events[0]), events[1..])
  }

  // What every run keeps

  /** The catalog is what its source says. */
  predicate Sourced(good: Good) {
    match good.source
    case Found => LoadOf(good.bytes, good.catalog) == Valid(good.snapshot, good.catalog)
    case Saved(attempt, before, ending) =>
      && good.snapshot == attempt.snapshot && good.bytes == BytesOf(attempt)
      && (ending.reused ==> SameCatalog(LoadProvenance(before, good.bytes), attempt.repositories))
      && (good.catalog == CatalogOf(attempt, before, ending) || (!ending.readable && good.catalog == []))
    case Replaced(attempt, ending) =>
      && good.bytes == BytesOf(attempt)
      && !ending.ok && ending.committed && ending.faulted && attempt.repositories != []
      && good.catalog == ReadyCatalog(attempt.repositories, ending.generation, attempt.sidecarLength)
  }

  /** The bytes stand for the snapshot: they were written for it, or it was read from them. */
  predicate StandsFor(bytes: Bytes, snapshot: CheckedSnapshot) {
    bytes.document == DocumentOf(snapshot) || LoadOf(bytes, []) == Valid(snapshot, [])
  }

  /** A result has been saved that the service has not been told of yet. */
  predicate Announcing(service: P.State) {
    service.pending.Some? && service.pending.value.result.Ok? && service.pending.value.saved
  }

  predicate GoodInv(service: P.State, disk: Disk, good: Good) {
    && service.published == Some(good.snapshot)
    && disk.published == Some(good.bytes)
    && Load(disk) == LoadOf(good.bytes, good.catalog)
    && StandsFor(good.bytes, good.snapshot)
    && Sourced(good)
  }

  predicate Inv(s: System) {
    && Properties.Inv(s.service)
    && Guarded(s.disk)
    && (s.service.lastGood.Some? || Announcing(s.service) ==> s.good.Some?)
    && (s.good.Some? ==> GoodInv(s.service, s.disk, s.good.value))
  }

  lemma StartInv(disk: Disk, startup: P.Startup, discards: bool)
    requires CanStart(disk, startup)
    ensures Inv(Start(disk, startup, discards))
  {
    Properties.StartInv(startup);
  }

  /** Only a worker changes what is published, and only its success is taken in. */
  lemma EventKeepsPublished(service: P.State, event: P.Event)
    requires Properties.Inv(service) && !event.WorkerCompletes?
    ensures var after := P.Step(service, event);
            && after.published == service.published
            && (after.lastGood == service.lastGood || Announcing(service))
            && (Announcing(after) ==> Announcing(service))
  {
    match event
    case Requested(request) =>
      Properties.RequestReacts(service, request);
      SameOutside(service, P.HandleRequest(service, request));
    case TimerFires(time, wall, onStarted) =>
      if service.timer.Some? && service.timer.value <= time && service.time <= time {
        var fired := service.(timer := None, time := time);
        Properties.TickInv(service, time, wall, onStarted);
        SameOutside(fired, P.HandleRequest(fired, P.Request(P.Automatic, wall, None, onStarted)));
      }
    case CompletionArrives(time, reactions) =>
      if service.pending.Some? && service.time <= time {
        Properties.CompletionEffect(service.(time := time), service.pending.value, reactions);
      }
  }

  lemma SameOutside(s: P.State, after: P.State)
    requires Properties.Fixed(after) == Properties.Fixed(s)
    ensures after.published == s.published && after.lastGood == s.lastGood && after.pending == s.pending
  {
    assert Properties.Fixed(after).published == after.published && Properties.Fixed(s).published == s.published;
  }

  lemma HappensInv(s: System, event: P.Event)
    requires Inv(s) && !event.WorkerCompletes?
    ensures Inv(s.(service := P.Step(s.service, event)))
  {
    Properties.StepInv(s.service, event);
    EventKeepsPublished(s.service, event);
  }

  lemma SuccessIsGood(s: System, attempt: Attempt, ending: Ending, after: Disk)
    requires Inv(s) && Possible(s, CheckSaves(attempt, ending, after)) && ending.ok
    ensures var good := GoodAfter(s, attempt, ending, after);
            good.Some? && GoodInv(P.Step(s.service, P.WorkerCompletes(WorkerOf(attempt, ending))), after, good.value)
  {
  }

  lemma FailureKeepsGood(s: System, attempt: Attempt, ending: Ending, after: Disk)
    requires Inv(s) && Possible(s, CheckSaves(attempt, ending, after)) && !ending.ok
    ensures var good := GoodAfter(s, attempt, ending, after);
            && (s.good.Some? ==> good.Some?)
            && (good.Some? ==>
                  GoodInv(P.Step(s.service, P.WorkerCompletes(WorkerOf(attempt, ending))), after, good.value))
  {
    if s.good.Some? {
      assert GoodInv(s.service, s.disk, s.good.value);
    }
  }

  lemma SavesInv(s: System, attempt: Attempt, ending: Ending, after: Disk)
    requires Inv(s) && Possible(s, CheckSaves(attempt, ending, after))
    ensures Inv(Step(s, CheckSaves(attempt, ending, after)))
  {
    Properties.StepInv(s.service, P.WorkerCompletes(WorkerOf(attempt, ending)));
    if ending.ok {
      SuccessIsGood(s, attempt, ending, after);
    } else {
      FailureKeepsGood(s, attempt, ending, after);
    }
  }

  lemma FailsInv(s: System, error: ErrorCode, completedAt: Time)
    requires Inv(s) && Checking(s.service)
    ensures Inv(s.(service := P.Step(s.service, P.WorkerCompletes(P.Worker(Err(error), completedAt, false)))))
  {
    Properties.StepInv(s.service, P.WorkerCompletes(P.Worker(Err(error), completedAt, false)));
  }

  lemma StepInv(s: System, event: Event)
    requires Inv(s)
    ensures Inv(Step(s, event))
  {
    if Possible(s, event) {
      match event
      case Happens(event) => HappensInv(s, event);
      case CheckFails(error, completedAt) => FailsInv(s, error, completedAt);
      case CheckSaves(attempt, ending, after) => SavesInv(s, attempt, ending, after);
      case Stops(_, after, startup, discards) => StartInv(after, startup, discards);
    }
  }

  lemma {:induction false} RunInv(s: System, events: seq<Event>)
    requires Inv(s)
    ensures Inv(Run(s, events))
    decreases events
  {
    if events != [] {
      StepInv(s, events[0]);
      RunInv(Step(s, events[0]), events[1..]);
    }
  }

  // The properties, for every start and every run

  /** The rows fit the writer's counter. */
  predicate CountableRows(snapshot: CheckedSnapshot) {
    |snapshot.snapshot.updates| <= 0x7FFF_FFFF
  }

  /** What stands for a snapshot reads as it, cut to seconds, exactly when it is storable and not too long. */
  lemma StandsForReads(bytes: Bytes, snapshot: CheckedSnapshot, catalog: seq<Provenance>)
    requires StandsFor(bytes, snapshot) && CountableRows(snapshot)
    ensures LoadOf(bytes, catalog) == Valid(Persisted(snapshot), catalog) <==>
            Storable(snapshot) && bytes.length <= MAX_SNAPSHOT_BYTES
  {
    if bytes.document == DocumentOf(snapshot) {
      RoundTrip(snapshot);
    } else {
      ReadIsStorable(bytes.document);
    }
  }

  /**
   * Whatever happens, and however often the program crashes and starts again: unless a saved result is still to be
   * announced, the last good snapshot is the one whose bytes are published. The store loads it, cut to seconds and
   * with the catalog its source says, exactly when it is storable and its file not too long.
   */
  lemma StoreHoldsLastGood(disk: Disk, startup: P.Startup, discards: bool, events: seq<Event>)
    requires CanStart(disk, startup)
    ensures var s := Run(Start(disk, startup, discards), events);
            s.service.lastGood.Some? && !Announcing(s.service) ==>
              && s.good.Some?
              && var good := s.good.value;
              && Some(good.snapshot) == s.service.lastGood
              && s.disk.published == Some(good.bytes)
              && Load(s.disk) == LoadOf(good.bytes, good.catalog)
              && Sourced(good)
              && (CountableRows(good.snapshot) ==>
                    (Load(s.disk) == Valid(Persisted(good.snapshot), good.catalog) <==>
                     Storable(good.snapshot) && good.bytes.length <= MAX_SNAPSHOT_BYTES))
  {
    StartInv(disk, startup, discards);
    RunInv(Start(disk, startup, discards), events);
    var s := Run(Start(disk, startup, discards), events);
    if s.service.lastGood.Some? && !Announcing(s.service) {
      assert Properties.StoreAgrees(s.service);
      if CountableRows(s.good.value.snapshot) {
        StandsForReads(s.good.value.bytes, s.good.value.snapshot, s.good.value.catalog);
      }
    }
  }

  /** The limits of the reader, which reusing a published catalog meets already. */
  predicate Fits(attempt: Attempt, ending: Ending) {
    && Storable(attempt.snapshot)
    && attempt.length <= MAX_SNAPSHOT_BYTES
    && (ending.reused || (Readable(attempt.repositories) && attempt.sidecarLength <= MAX_SIDECAR_BYTES))
  }

  lemma SavedCatalogIff(attempt: Attempt, before: Disk, ending: Ending)
    requires ending.reused ==> SameCatalog(LoadProvenance(before, BytesOf(attempt)), attempt.repositories)
    requires attempt.repositories != []
    ensures SameCatalog(CatalogOf(attempt, before, ending), attempt.repositories) <==>
            ending.reused || (Readable(attempt.repositories) && attempt.sidecarLength <= MAX_SIDECAR_BYTES)
  {
  }

  lemma SavedShownIff(good: Good)
    requires Sourced(good) && good.source.Saved?
    requires Countable(good.source.attempt) && good.source.attempt.repositories != []
    ensures Shows(LoadOf(good.bytes, good.catalog), good.source.attempt) <==>
            Fits(good.source.attempt, good.source.ending) && good.catalog != []
    ensures good.source.ending.readable && Fits(good.source.attempt, good.source.ending) ==> good.catalog != []
  {
    SavedCatalogIff(good.source.attempt, good.source.before, good.source.ending);
    StandsForReads(good.bytes, good.snapshot, good.catalog);
  }

  /**
   * A last good snapshot that was saved with repositories is loaded whole - the snapshot cut to seconds and every
   * repository as verified - exactly when it is within the reader's limits and its catalog is still there; and only
   * reclamation that could not open the sidecar takes the catalog away.
   */
  lemma LastGoodShownIff(disk: Disk, startup: P.Startup, discards: bool, events: seq<Event>)
    requires CanStart(disk, startup)
    ensures var s := Run(Start(disk, startup, discards), events);
            s.service.lastGood.Some? && !Announcing(s.service) ==>
              && s.good.Some?
              && match s.good.value.source
                 case Saved(attempt, _, ending) =>
                   && s.service.lastGood == Some(attempt.snapshot)
                   && (Countable(attempt) && attempt.repositories != [] ==>
                         && (Shows(Load(s.disk), attempt) <==> Fits(attempt, ending) && s.good.value.catalog != [])
                         && (ending.readable && Fits(attempt, ending) ==> s.good.value.catalog != []))
                 case _ => true
  {
    StoreHoldsLastGood(disk, startup, discards, events);
    var s := Run(Start(disk, startup, discards), events);
    if s.service.lastGood.Some? && !Announcing(s.service) && s.good.value.source.Saved? {
      var good := s.good.value;
      if Countable(good.source.attempt) && good.source.attempt.repositories != [] {
        SavedShownIff(good);
      }
    }
  }

  // Without faults

  /** Nothing fails while a snapshot is saved, and it is within the limits. */
  predicate Whole(event: Event) {
    event.CheckSaves? ==>
      && !event.ending.faulted
      && Countable(event.attempt) && WithinLimits(event.attempt)
  }

  predicate WholeSource(s: System) {
    s.good.Some? ==>
      match s.good.value.source
      case Found => true
      case Saved(attempt, _, ending) => ending.readable && Countable(attempt) && WithinLimits(attempt)
      case Replaced(_, _) => false
  }

  lemma StepWhole(s: System, event: Event)
    requires WholeSource(s) && Whole(event)
    ensures WholeSource(Step(s, event))
  {
    if event.CheckSaves? && Possible(s, event) {
      assert event.ending.committed ==> s.disk.published != Some(BytesOf(event.attempt));
    }
  }

  lemma {:induction false} RunWhole(s: System, events: seq<Event>)
    requires WholeSource(s) && forall event <- events :: Whole(event)
    ensures WholeSource(Run(s, events))
    decreases events
  {
    if events != [] {
      StepWhole(s, events[0]);
      RunWhole(Step(s, events[0]), events[1..]);
    }
  }

  /**
   * If no save meets a fault or exceeds the reader's limits, the store always loads the last good snapshot, cut to
   * seconds, and with every repository of the check that found it; if that had none, with what the bytes had before.
   */
  lemma FaultlessStoreAgrees(disk: Disk, startup: P.Startup, discards: bool, events: seq<Event>)
    requires CanStart(disk, startup) && forall event <- events :: Whole(event)
    ensures var s := Run(Start(disk, startup, discards), events);
            s.service.lastGood.Some? && !Announcing(s.service) ==>
              && s.good.Some?
              && match s.good.value.source
                 case Found => Load(s.disk) == Valid(s.service.lastGood.value, s.good.value.catalog)
                 case Saved(attempt, before, _) =>
                   && Some(attempt.snapshot) == s.service.lastGood
                   && (if attempt.repositories != [] then Shows(Load(s.disk), attempt)
                       else Load(s.disk) ==
                            Valid(Persisted(attempt.snapshot), LoadProvenance(before, BytesOf(attempt))))
                 case Replaced(_, _) => false
  {
    RunWhole(Start(disk, startup, discards), events);
    StoreHoldsLastGood(disk, startup, discards, events);
    LastGoodShownIff(disk, startup, discards, events);
  }

  // Starting again

  lemma StartsFromStore(disk: Disk, startup: P.Startup, discards: bool)
    requires CanStart(disk, startup) && startup.readable
    ensures Start(disk, startup, discards).service.lastGood == SnapshotIn(Load(disk))
  {
    Properties.StartInv(startup);
  }

  lemma EffectSnapshot(before: Disk, load: LoadResult, attempt: Attempt, reopened: bool)
    requires Effect(before, load, attempt, reopened)
    ensures SnapshotIn(load) == SnapshotIn(LoadOf(BytesOf(attempt), []))
  {
  }

  /**
   * Started again after a stop at any point, the service has the last good snapshot back, cut to seconds, or the one
   * whose publication the stop interrupted.
   */
  lemma RestartRecovers(s: System, stop: Option<Stop>, after: Disk, startup: P.Startup, discards: bool)
    requires Inv(s) && Possible(s, Stops(stop, after, startup, discards)) && startup.readable
    requires s.service.lastGood.Some? && !Announcing(s.service)
    requires CountableRows(s.service.lastGood.value) && Storable(s.service.lastGood.value)
    requires s.good.value.bytes.length <= MAX_SNAPSHOT_BYTES
    ensures var recovered := Step(s, Stops(stop, after, startup, discards)).service.lastGood;
            || recovered == Some(Persisted(s.service.lastGood.value))
            || (stop.Some? && recovered == SnapshotIn(LoadOf(BytesOf(stop.value.attempt), [])))
  {
    var good := s.good.value;
    assert good.snapshot == s.service.lastGood.value && Load(s.disk) == LoadOf(good.bytes, good.catalog) by {
      assert Properties.StoreAgrees(s.service) && GoodInv(s.service, s.disk, good);
    }
    StandsForReads(good.bytes, good.snapshot, good.catalog);
    StartsFromStore(after, startup, discards);
    if stop.Some? {
      OldOrNew(s.disk, after, stop.value.attempt, stop.value.reopened);
      if Load(after) != Load(s.disk) {
        EffectSnapshot(s.disk, Load(after), stop.value.attempt, stop.value.reopened);
      }
    }
  }

  // What a failed save can do

  /** The directory once this generation is retained and the bytes' sidecar names it. */
  function WithCatalog(disk: Disk, attempt: Attempt, generation: nat, files: map<string, string>): Disk {
    disk.(lockFile := true, generations := disk.generations[generation := files],
          sidecars := disk.sidecars[BytesOf(attempt) :=
                                    Sidecar(generation, RowsFor(attempt.repositories), attempt.sidecarLength)])
  }

  lemma CommittedCatalogIsLoaded(disk: Disk, attempt: Attempt, generation: nat, files: map<string, string>)
    requires Guarded(disk) && disk.published == Some(BytesOf(attempt))
    requires attempt.repositories != [] && Retains(files, attempt.repositories)
    requires Unnamed(disk, generation) && generation !in disk.generations
    ensures var after := WithCatalog(disk, attempt, generation, files);
            && Preparing(disk.(lockFile := true), after, BytesOf(attempt), attempt.repositories, generation,
                         attempt.sidecarLength)
            && Load(after) == LoadOf(BytesOf(attempt),
                                     ReadyCatalog(attempt.repositories, generation, attempt.sidecarLength))
  {
    var after := WithCatalog(disk, attempt, generation, files);
    ReadyCatalogLoads(after, BytesOf(attempt), attempt.repositories, generation, attempt.sidecarLength);
  }

  /**
   * A check finds the last good snapshot once more, with other repositories. If the published file cannot be opened
   * for comparison, the new catalog is committed; if replacing the file then fails, so does the check, and the old
   * last good snapshot is loaded with the new repositories.
   */
  lemma FailedSaveReplacesCatalog(s: System, attempt: Attempt, generation: nat, files: map<string, string>)
      returns (event: Event)
    requires Inv(s) && Checking(s.service) && s.good.Some? && BytesOf(attempt) == s.good.value.bytes
    requires attempt.repositories != [] && Retains(files, attempt.repositories)
    requires Unnamed(s.disk, generation) && generation !in s.disk.generations
    ensures event.CheckSaves? && event.attempt == attempt && !event.ending.ok && Possible(s, event)
    ensures var after := Step(s, event);
            && after.service.lastGood == s.service.lastGood
            && after.disk == WithCatalog(s.disk, attempt, generation, files)
            && Preparing(s.disk.(lockFile := true), after.disk, BytesOf(attempt), attempt.repositories, generation,
                         attempt.sidecarLength)
            && Load(after.disk) == LoadOf(s.good.value.bytes,
                                          ReadyCatalog(attempt.repositories, generation, attempt.sidecarLength))
  {
    var after := WithCatalog(s.disk, attempt, generation, files);
    CommittedCatalogIsLoaded(s.disk, attempt, generation, files);
    event := CheckSaves(attempt, Ending(generation, false, false, true, true, true, true, true), after);
  }

  // The objects together

  /** The worker publishes what the check has found, and reports whether that succeeded. */
  method FinishCheck(service: Objects.UpdateCheckService, store: SnapshotStore, attempt: Attempt, ghost s: System)
      returns (ghost event: Event)
    requires s.service == service.Abs() && s.disk == store.disk && store.Valid()
    requires Checking(s.service) && Guarded(s.disk)
    modifies service`pending, service`published, store
    ensures event.CheckSaves? && event.attempt == attempt && Possible(s, event)
    ensures Step(s, event).service == service.Abs() && Step(s, event).disk == store.disk && store.Valid()
  {
    SomeUnnamed(store.disk);
    var generation: nat :| Unnamed(store.disk, generation);
    var result;
    ghost var ending;
    result, ending := store.Save(attempt.snapshot, attempt.repositories, generation, attempt.length,
                                 attempt.sidecarLength);
    service.WorkerCompletes(P.Worker(Ok(attempt.snapshot.snapshot), attempt.snapshot.fetchedAt, result.Ok?));
    event := CheckSaves(attempt, ending, store.disk);
  }

  /** Starts the program in a directory: the service takes what the store loads, or discards what is invalid. */
  method Launch(disk: Disk, startup: P.Startup)
      returns (service: Objects.UpdateCheckService, store: SnapshotStore, ghost discards: bool)
    requires CanStart(disk, startup)
    ensures fresh(service) && fresh(service.scheduler) && fresh(store) && service.Wired() && store.Valid()
    ensures var s := Start(disk, startup, discards); s.service == service.Abs() && s.disk == store.disk
  {
    store := new SnapshotStore(disk);
    discards := false;
    if startup.readable && Load(store.disk).Invalid? {
      var discarded := store.DiscardInvalid();
      discards := discarded.Ok?;
    }
    service := Objects.Launch(startup);
  }

  /** What the world does next: an event of the service, a check that fails or finds something, or a crash. */
  datatype Choice =
    | Occurs(event: P.Event)
    | Fails(error: ErrorCode, completedAt: Time)
    | Finds(attempt: Attempt)
    | Crashes(during: Option<Attempt>, startup: P.Startup)

  /** The event is what the choice comes to in this state. */
  ghost predicate Realises(s: System, choice: Choice, event: Event) {
    match choice
    case Occurs(next) => event == Happens(next)
    case Fails(error, completedAt) => event == CheckFails(error, completedAt)
    case Finds(attempt) =>
      event.CheckSaves? && event.attempt == attempt && (Checking(s.service) ==> Possible(s, event))
    case Crashes(during, _) =>
      && event.Stops? && Possible(s, event)
      && event.stop.Some? == (during.Some? && Checking(s.service))
      && (event.stop.Some? ==> event.stop.value.attempt == during.value)
  }

  /** What the next start finds: the snapshot the store loads, and a history only if it is consistent. */
  function Finding(startup: P.Startup, disk: Disk): P.Startup {
    startup.(stored := SnapshotIn(Load(disk)), history := if P.ValidStartup(startup) then startup.history else None)
  }

  /** Stops the program, within a publication if one can be in progress, and starts it again. */
  method Crash(disk: Disk, checking: bool, during: Option<Attempt>, startup: P.Startup, ghost s: System)
      returns (service: Objects.UpdateCheckService, store: SnapshotStore, ghost event: Event)
    requires s.disk == disk && checking == Checking(s.service) && Guarded(disk)
    ensures fresh(service) && fresh(service.scheduler) && fresh(store) && service.Wired() && store.Valid()
    ensures Realises(s, Crashes(during, startup), event)
    ensures Step(s, event).service == service.Abs() && Step(s, event).disk == store.disk
  {
    var stopped := disk;
    ghost var stop: Option<Stop> := None;
    if checking && during.Some? {
      ghost var reopened;
      stopped, reopened := StopWithin(disk, during.value);
      stop := Some(Stop(during.value, reopened));
    }
    ghost var discards;
    service, store, discards := Launch(stopped, Finding(startup, stopped));
    event := Stops(stop, stopped, Finding(startup, stopped), discards);
  }

  method Act(service: Objects.UpdateCheckService, store: SnapshotStore, choice: Choice, ghost s: System)
      returns (ghost event: Event)
    requires !choice.Crashes?
    requires s.service == service.Abs() && s.disk == store.disk && service.Wired() && store.Valid() && Inv(s)
    modifies service, service.scheduler, store
    ensures service.Wired() && store.Valid() && Realises(s, choice, event)
    ensures Step(s, event).service == service.Abs() && Step(s, event).disk == store.disk
  {
    match choice
    case Occurs(next) =>
      event := Happens(next);
      if !next.WorkerCompletes? {
        Objects.Handle(service, next);
      }
    case Fails(error, completedAt) =>
      event := CheckFails(error, completedAt);
      if service.workers > 0 && service.pending.None? {
        service.WorkerCompletes(P.Worker(Err(error), completedAt, false));
      }
    case Finds(attempt) =>
      if service.workers > 0 && service.pending.None? {
        event := FinishCheck(service, store, attempt, s);
      } else {
        event := CheckSaves(attempt, Ending(0, false, false, false, false, true, true, true), store.disk);
      }
  }

  lemma {:induction false} RunMore(s: System, events: seq<Event>, event: Event)
    ensures Run(s, events + [event]) == Step(Run(s, events), event)
    decreases events
  {
    var all := events + [event];
    if events == [] {
      assert all[0] == event && all[1..] == [];
    } else {
      assert all[0] == events[0] && all[1..] == events[1..] + [event];
      RunMore(Step(s, events[0]), events[1..], event);
    }
  }

  ghost predicate AllRealised(first: System, choices: seq<Choice>, events: seq<Event>) {
    && |events| <= |choices|
    && forall i | 0 <= i < |events| :: Realises(Run(first, events[..i]), choices[i], events[i])
  }

  lemma OneMoreRealised(first: System, choices: seq<Choice>, events: seq<Event>, event: Event)
    requires AllRealised(first, choices, events) && |events| < |choices|
    requires Realises(Run(first, events), choices[|events|], event)
    ensures AllRealised(first, choices, events + [event])
  {
    var all := events + [event];
    forall i | 0 <= i < |all|
      ensures Realises(Run(first, all[..i]), choices[i], all[i])
    {
      if i < |events| {
        assert all[..i] == events[..i] && all[i] == events[i];
      } else {
        assert all[..i] == events && all[i] == event;
      }
    }
  }

  /** The service and the store, started together and driven by anything, are where some run of the system says. */
  method Drive(disk: Disk, startup: P.Startup, choices: seq<Choice>)
      returns (service: Objects.UpdateCheckService, store: SnapshotStore, ghost discards: bool,
               ghost events: seq<Event>)
    requires CanStart(disk, startup)
    ensures |events| == |choices| && AllRealised(Start(disk, startup, discards), choices, events)
    ensures var s := Run(Start(disk, startup, discards), events);
            s.service == service.Abs() && s.disk == store.disk && Inv(s)
  {
    service, store, discards := Launch(disk, startup);
    ghost var first := Start(disk, startup, discards);
    ghost var s := first;
    events := [];
    StartInv(disk, startup, discards);
    for i := 0 to |choices|
      invariant fresh(service) && fresh(service.scheduler) && fresh(store) && service.Wired() && store.Valid()
      invariant |events| == i && AllRealised(first, choices, events)
      invariant s == Run(first, events) && Inv(s) && s.service == service.Abs() && s.disk == store.disk
    {
      ghost var event;
      if choices[i].Crashes? {
        var checking := service.workers > 0 && service.pending.None?;
        service, store, event := Crash(store.disk, checking, choices[i].during, choices[i].startup, s);
      } else {
        event := Act(service, store, choices[i], s);
      }
      RunMore(first, events, event);
      OneMoreRealised(first, choices, events, event);
      StepInv(s, event);
      events := events + [event];
      s := Step(s, event);
    }
  }
}
