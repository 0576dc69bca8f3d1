/** From an evaluation to the displayed status: the summary, the choice of snapshot and the status derived from it. */
module UpdateDisplay {
  import opened Wrappers
  import opened Domain

  const UINT64_SPAN := 0x1_0000_0000_0000_0000

  datatype UpdateSummary = UpdateSummary(updateCount: nat, ignoredCount: nat, totalDownloadBytes: nat)

  datatype UpdateState = Loading | Ready | NoDatabases | Error

  datatype UpdateStatus = UpdateStatus(
    state: UpdateState,
    updateCount: nat,
    ignoredCount: nat,
    totalDownloadBytes: nat,
    dataAsOfSeconds: int,
    lastError: string)

  const NOTHING_SHOWN := UpdateStatus(Loading, 0, 0, 0, 0, "")

  /** An evaluation's snapshot, or the message of its failure. */
  type LoadResult = Result<UpdateSnapshot, string>

  /** The bytes to download for the rows not flagged as ignored. */
  function DownloadOf(updates: seq<PendingUpdate>): nat {
    if updates == [] then 0
    else
      var last := updates[|updates| - 1];
      DownloadOf(updates[..|updates| - 1]) + (if last.ignored then 0 else last.downloadSizeBytes)
  }

  /** Counts are exact; the 64-bit total wraps. */
  function SummaryOf(updates: seq<PendingUpdate>): UpdateSummary {
    UpdateSummary(CountShown(updates), |updates| - CountShown(updates), DownloadOf(updates) % UINT64_SPAN)
  }

  method SummarizeUpdates(updates: seq<PendingUpdate>) returns (summary: UpdateSummary)
    ensures summary == SummaryOf(updates)
  {
    summary := UpdateSummary(0, 0, 0);
    for i := 0 to |updates|
      invariant summary == SummaryOf(updates[..i])
    {
      assert updates[..i + 1][..i] == updates[..i];
      if updates[i].ignored {
        summary := summary.(ignoredCount := summary.ignoredCount + 1);
      } else {
        WrappedSum(DownloadOf(updates[..i]), updates[i].downloadSizeBytes);
        summary := summary.(updateCount := summary.updateCount + 1,
                            totalDownloadBytes :=
                              (summary.totalDownloadBytes + updates[i].downloadSizeBytes) % UINT64_SPAN);
      }
    }
    assert updates[..|updates|] == updates;
  }

  lemma WrappedSum(total: nat, more: nat)
    ensures (total % UINT64_SPAN + more) % UINT64_SPAN == (total + more) % UINT64_SPAN
  {
    assert total == UINT64_SPAN * (total / UINT64_SPAN) + total % UINT64_SPAN;
  }

  // The displayed status

  /** What one snapshot displays. */
  function Display(snapshot: UpdateSnapshot): UpdateStatus {
    if !snapshot.databasesFound && !snapshot.previouslyLoaded then NOTHING_SHOWN.(state := NoDatabases)
    else
      var summary := SummaryOf(snapshot.updates);
      UpdateStatus(if snapshot.previouslyLoaded then Error else Ready, summary.updateCount, summary.ignoredCount,
                   summary.totalDownloadBytes, ToSeconds(snapshot.dataAsOf), snapshot.evaluationError)
  }

  /** A success displays its snapshot whatever was displayed before; a failure only adds its message. */
  function StatusOf(result: LoadResult, previous: UpdateStatus): UpdateStatus {
    match result
    case Ok(snapshot) => Display(snapshot)
    case Err(message) => previous.(state := Error, lastError := message)
  }

  method BuildUpdateStatus(result: LoadResult, previous: Option<UpdateStatus>) returns (status: UpdateStatus)
    ensures status == StatusOf(result, if previous.Some? then previous.value else NOTHING_SHOWN)
  {
    status := if previous.Some? then previous.value else NOTHING_SHOWN;
    if result.Err? {
      status := status.(state := Error);
      status := status.(lastError := result.error);
      return;
    }
    status := status.(lastError := "");
    var snapshot := result.value;
    if !snapshot.databasesFound && !snapshot.previouslyLoaded {
      status := NOTHING_SHOWN;
      status := status.(state := NoDatabases);
      return;
    }
    var summary := SummarizeUpdates(snapshot.updates);
    status := status.(state := if snapshot.previouslyLoaded then Error else Ready);
    status := status.(lastError := snapshot.evaluationError);
    status := status.(updateCount := summary.updateCount);
    status := status.(ignoredCount := summary.ignoredCount);
    status := status.(totalDownloadBytes := summary.totalDownloadBytes);
    status := status.(dataAsOfSeconds := ToSeconds(snapshot.dataAsOf));
  }

  /**
   * What the header promises asks this of callers: a message is shown in the state Error only, exactly when a current
   * snapshot comes without an evaluation error. MonitorProtocol.MessageMeansError says that they comply.
   */
  lemma MessageOnlyOnError(snapshot: UpdateSnapshot, previous: UpdateStatus)
    ensures var status := StatusOf(Ok(snapshot), previous);
            (status.lastError != "" ==> status.state.Error?) <==>
            (snapshot.previouslyLoaded || !snapshot.databasesFound || snapshot.evaluationError == "")
  {
  }

  /** Only a saved snapshot explains why it stands in for an evaluation. */
  predicate Explained(result: LoadResult) {
    result.Ok? && result.value.evaluationError != "" ==> result.value.previouslyLoaded
  }

  // The choice between the evaluated and the checked snapshot

  datatype SnapshotChoice = Local | Online

  function SelectFresher(local: Option<UpdateSnapshot>, online: Option<UpdateSnapshot>): SnapshotChoice {
    if local.Some? && local.value.previouslyLoaded then Local
    else if local.Some? && local.value.evaluated then Local
    else if online.None? then Local
    else if local.None? || !local.value.databasesFound then Online
    else if local.value.dataAsOf >= online.value.dataAsOf then Local else Online
  }

  /** A saved snapshot is history: it was not evaluated against what is installed now. */
  function Historical(snapshot: UpdateSnapshot): UpdateSnapshot {
    snapshot.(evaluated := false, previouslyLoaded := true)
  }

  /** The snapshot on display when an evaluation has succeeded. */
  function Chosen(local: UpdateSnapshot, online: Option<UpdateSnapshot>): UpdateSnapshot {
    if online.Some? && SelectFresher(Some(local), online).Online? then online.value else local
  }

  /**
   * The choice never replaces an evaluated snapshot, or one at least as recent, by a saved one, and never turns a
   * saved one into a current one.
   */
  lemma ChoiceIsHonest(local: UpdateSnapshot, saved: UpdateSnapshot)
    ensures var chosen := Chosen(local, Some(Historical(saved)));
            && (chosen != local ==>
                  chosen == Historical(saved) && !local.evaluated &&
                  (local.databasesFound ==> local.dataAsOf < saved.dataAsOf))
            && (Display(chosen).state.Ready? ==> chosen == local && !local.previouslyLoaded && local.databasesFound)
  {
  }
}

/**
 * The update monitor. Evaluations run on a worker thread while files change, notifications arrive late, the debounce
 * timer runs and checks bring new snapshots. `world(t)` is what an evaluation yields when nothing it reads has changed
 * since time t; an evaluation during which something changes may yield anything.
 */
module MonitorProtocol {
  import opened Wrappers
  import opened Domain
  import opened UpdateDisplay

  type World = nat -> LoadResult

  /** One evaluation that was not dropped: when it started, and the latest notification or adoption before its end. */
  datatype Processed = Processed(started: int, lastChange: int, status: UpdateStatus)

  datatype State = State(
    // the monitor
    local: Option<UpdateSnapshot>,
    online: Option<UpdateSnapshot>,
    status: UpdateStatus,
    running: bool,
    rerun: bool,
    dirty: bool,
    timer: bool,
    // the clock counts events; what an evaluation reads last changed at `changed`
    clock: nat,
    changed: nat,
    startedAt: int,
    // what has happened: notifications and adoptions are changes, and with the refreshes they are triggers
    started: nat,
    finished: nat,
    lastChange: int,
    lastTrigger: int,
    processedStart: int,
    lastResult: Option<LoadResult>,
    log: seq<Processed>)

  const INITIAL := State(None, None, NOTHING_SHOWN, false, false, false, false, 0, 0, -1, 0, 0, -1, -1, -1, None, [])

  function StartEvaluation(s: State): State {
    s.(running := true, startedAt := s.clock, started := s.started + 1)
  }

  function Refresh(s: State): State {
    var triggered := s.(timer := false, lastTrigger := s.clock);
    if s.running then triggered.(rerun := true) else StartEvaluation(triggered)
  }

  function OnFilesystemChanged(s: State): State {
    s.(dirty := s.dirty || s.running, timer := true, lastChange := s.clock, lastTrigger := s.clock)
  }

  function AdoptOnline(s: State, snapshot: UpdateSnapshot): State {
    var adopted := s.(online := Some(Historical(snapshot)), lastChange := s.clock,
                      status := if s.local.None? then StatusOf(Ok(Historical(snapshot)), s.status) else s.status,
                      dirty := s.running);
    Refresh(adopted)
  }

  /** Takes in the result of an evaluation that nothing has outdated. */
  function Process(s: State, result: LoadResult): State {
    var status := if result.Ok? then Display(Chosen(result.value, s.online)) else StatusOf(result, s.status);
    s.(local := if result.Ok? then Some(result.value) else s.local, status := status,
       processedStart := s.startedAt, lastResult := Some(result),
       log := s.log + [Processed(s.startedAt, s.lastChange, status)])
  }

  function OnEvaluationFinished(s: State, result: LoadResult): State {
    var ended := s.(running := false, finished := s.finished + 1, dirty := false);
    if s.dirty then StartEvaluation(ended.(rerun := false))
    else
      var processed := Process(ended, result);
      if processed.rerun then StartEvaluation(processed.(rerun := false)) else processed
  }

  datatype Event =
    | ContentChanges
    | Notified
    | DebounceFires
    | Refreshed
    | Adopted(snapshot: UpdateSnapshot)
    | EvaluationFinishes(result: LoadResult)

  /** What can happen next: an undisturbed evaluation yields what the world holds. */
  predicate Possible(world: World, s: State, event: Event) {
    match event
    case DebounceFires => s.timer
    case EvaluationFinishes(result) => s.running && (s.changed <= s.startedAt ==> result == world(s.changed))
    case _ => true
  }

  /** An event that cannot occur changes nothing. */
  function Step(world: World, s: State, event: Event): State {
    if !Possible(world, s, event) then s
    else
      var later := s.(clock := s.clock + 1);
      match event
      case ContentChanges => later.(changed := later.clock)
      case Notified => OnFilesystemChanged(later)
      case DebounceFires => Refresh(later)
      case Refreshed => Refresh(later)
      case Adopted(snapshot) => AdoptOnline(later, snapshot)
      case EvaluationFinishes(result) => OnEvaluationFinished(later, result)
  }

  function Run(world: World, s: State, events: seq<Event>): State
    decreases events
  {
    if events == [] then s else Run(world, Step(world, s, events[0]), events[1..])
  }

  // What every run keeps

  /** Triggers are not lost: one the latest evaluation came too early for is still to be answered. */
  predicate NothingLost(s: State) {
    if s.running then s.startedAt < s.lastTrigger ==> s.rerun || s.dirty || s.timer
    else s.processedStart < s.lastTrigger ==> s.timer
  }

  predicate Flags(s: State) {
    && (s.rerun ==> s.running)
    && (s.dirty ==> s.running)
    && s.started == s.finished + (if s.running then 1 else 0)
    && -1 <= s.lastChange <= s.lastTrigger <= s.clock
    && s.changed <= s.clock
    && -1 <= s.processedStart <= s.clock && -1 <= s.startedAt <= s.clock
    && (s.lastResult.Some? <==> s.processedStart >= 0)
    && (s.running ==> s.startedAt >= 0 && s.processedStart <= s.startedAt)
  }

  /** An evaluation that began before a notification or an adoption will be dropped. */
  predicate StaleIsDirty(s: State) {
    s.running && s.startedAt < s.lastChange ==> s.dirty
  }

  /** The evaluation last taken in shows the world, if nothing has changed since it began. */
  predicate ShowsWorld(world: World, s: State) {
    s.lastResult.Some? && s.changed <= s.processedStart ==> s.lastResult == Some(world(s.changed))
  }

  /** What is displayed when the last result taken in is newer than every notification and adoption. */
  predicate DisplaysResult(s: State) {
    s.lastResult.Some? && s.lastChange <= s.processedStart ==>
      match s.lastResult.value
      case Ok(snapshot) => s.local == Some(snapshot) && s.status == Display(Chosen(snapshot, s.online))
      case Err(message) => s.status.state.Error? && s.status.lastError == message
  }

  /** Ready and NoDatabases speak of the local evaluation, never of a saved snapshot. */
  predicate ReadyIsCurrent(s: State) {
    && (s.status.state.Ready? ==>
          s.local.Some? && !s.local.value.previouslyLoaded && s.local.value.databasesFound &&
          s.status == Display(s.local.value))
    && (s.status.state.NoDatabases? ==> s.status == NOTHING_SHOWN.(state := NoDatabases))
    && (s.online.Some? ==> s.online.value.previouslyLoaded && !s.online.value.evaluated)
  }

  /** Every evaluation taken in had started after every notification and adoption seen by then. */
  predicate LogIsFresh(s: State) {
    forall entry <- s.log :: entry.lastChange <= entry.started
  }

  predicate Inv(world: World, s: State) {
    && Flags(s) && NothingLost(s) && StaleIsDirty(s) && ShowsWorld(world, s) && DisplaysResult(s)
    && ReadyIsCurrent(s) && LogIsFresh(s)
  }

  lemma StepInv(world: World, s: State, event: Event)
    requires Inv(world, s)
    ensures Inv(world, Step(world, s, event))
  {
    match event
    case ContentChanges => ChangeInv(world, s);
    case Notified => NotifiedInv(world, s);
    case DebounceFires => DebouncedInv(world, s);
    case Refreshed => RefreshedInv(world, s);
    case Adopted(snapshot) => AdoptInv(world, s, snapshot);
    case EvaluationFinishes(result) =>
      if Possible(world, s, event) {
        FinishInv(world, s, result);
      }
  }

  lemma ChangeInv(world: World, s: State)
    requires Inv(world, s)
    ensures Inv(world, Step(world, s, ContentChanges))
  {
  }

  lemma NotifiedInv(world: World, s: State)
    requires Inv(world, s)
    ensures Inv(world, Step(world, s, Notified))
  {
  }

  lemma DebouncedInv(world: World, s: State)
    requires Inv(world, s)
    ensures Inv(world, Step(world, s, DebounceFires))
  {
  }

  lemma RefreshedInv(world: World, s: State)
    requires Inv(world, s)
    ensures Inv(world, Step(world, s, Refreshed))
  {
  }

  lemma AdoptInv(world: World, s: State, snapshot: UpdateSnapshot)
    requires Inv(world, s)
    ensures Inv(world, Step(world, s, Adopted(snapshot)))
  {
  }

  lemma DroppedInv(world: World, s: State, result: LoadResult)
    requires Inv(world, s) && s.dirty && Possible(world, s, EvaluationFinishes(result))
    ensures Inv(world, Step(world, s, EvaluationFinishes(result)))
  {
  }

  lemma TakenInv(world: World, s: State, result: LoadResult)
    requires Inv(world, s) && !s.dirty && Possible(world, s, EvaluationFinishes(result))
    ensures Inv(world, Step(world, s, EvaluationFinishes(result)))
  {
    var later := s.(clock := s.clock + 1, running := false, finished := s.finished + 1, dirty := false);
    var processed := Process(later, result);
    assert ReadyIsCurrent(processed);
    assert DisplaysResult(processed);
    assert LogIsFresh(processed);
  }

  lemma FinishInv(world: World, s: State, result: LoadResult)
    requires Inv(world, s) && Possible(world, s, EvaluationFinishes(result))
    ensures Inv(world, Step(world, s, EvaluationFinishes(result)))
  {
    if s.dirty {
      DroppedInv(world, s, result);
    } else {
      TakenInv(world, s, result);
    }
  }

  lemma {:induction false} RunInv(world: World, s: State, events: seq<Event>)
    requires Inv(world, s)
    ensures Inv(world, Run(world, s, events))
    decreases events
  {
    if events != [] {
      StepInv(world, s, events[0]);
      RunInv(world, Step(world, s, events[0]), events[1..]);
    }
  }

  // The properties, for every world and every run

  /** Evaluations do not overlap, and the flags that ask for another one are only ever set during one. */
  lemma OneEvaluationAtATime(world: World, events: seq<Event>)
    ensures var s := Run(world, INITIAL, events);
            s.started - s.finished == (if s.running then 1 else 0) && (s.rerun || s.dirty ==> s.running)
  {
    RunInv(world, INITIAL, events);
  }

  /** No evaluation is taken in that had started before the latest notification or adoption seen so far. */
  lemma StaleEvaluationsDropped(world: World, events: seq<Event>)
    ensures forall entry <- Run(world, INITIAL, events).log :: entry.lastChange <= entry.started
  {
    RunInv(world, INITIAL, events);
  }

  /** Nothing running and the timer stopped: the last evaluation taken in started at or after every trigger. */
  lemma NoTriggerLost(world: World, events: seq<Event>)
    ensures var s := Run(world, INITIAL, events); !s.running && !s.timer ==> s.lastTrigger <= s.processedStart
  {
    RunInv(world, INITIAL, events);
  }

  /** At rest with every change followed by a trigger, the monitor displays the world as it is. */
  lemma RestShowsTheWorld(world: World, events: seq<Event>)
    ensures var s := Run(world, INITIAL, events);
            !s.running && !s.timer && s.changed <= s.lastTrigger ==>
              s.lastResult == Some(world(s.changed)) &&
              match world(s.changed)
              case Ok(snapshot) => s.local == Some(snapshot) && s.status == Display(Chosen(snapshot, s.online))
              case Err(message) => s.status.state.Error? && s.status.lastError == message
  {
    RunInv(world, INITIAL, events);
  }

  /** The counts, the total and the time shown as Ready are the local evaluation's, which found current databases. */
  lemma ReadyMeansCurrent(world: World, events: seq<Event>)
    ensures var s := Run(world, INITIAL, events);
            && (s.status.state.Ready? ==>
                  s.local.Some? && !s.local.value.previouslyLoaded && s.local.value.databasesFound &&
                  var summary := SummaryOf(s.local.value.updates);
                  s.status == UpdateStatus(Ready, summary.updateCount, summary.ignoredCount,
                                           summary.totalDownloadBytes, ToSeconds(s.local.value.dataAsOf),
                                           s.local.value.evaluationError))
            && (s.status.state.NoDatabases? ==> s.status == UpdateStatus(NoDatabases, 0, 0, 0, 0, ""))
  {
    RunInv(world, INITIAL, events);
  }

  /** A message is shown in the state Error only. */
  predicate MessageExplained(s: State) {
    s.status.lastError != "" ==> s.status.state.Error?
  }

  lemma StepExplained(world: World, s: State, event: Event)
    requires Inv(world, s) && MessageExplained(s)
    requires event.EvaluationFinishes? ==> Explained(event.result)
    ensures MessageExplained(Step(world, s, event))
  {
  }

  lemma {:induction false} RunExplained(world: World, s: State, events: seq<Event>)
    requires Inv(world, s) && MessageExplained(s)
    requires forall event <- events :: event.EvaluationFinishes? ==> Explained(event.result)
    ensures MessageExplained(Run(world, s, events))
    decreases events
  {
    if events != [] {
      assert events[0] in events;
      StepInv(world, s, events[0]);
      StepExplained(world, s, events[0]);
      RunExplained(world, Step(world, s, events[0]), events[1..]);
    }
  }

  /** Whatever is evaluated and adopted, a message is shown in the state Error only, if evaluations are explained. */
  lemma MessageMeansError(world: World, events: seq<Event>)
    requires forall event <- events :: event.EvaluationFinishes? ==> Explained(event.result)
    ensures var status := Run(world, INITIAL, events).status; status.lastError != "" ==> status.state.Error?
  {
    RunExplained(world, INITIAL, events);
  }

  /** Adopting a saved snapshot changes the display only before the first evaluation, and then to history. */
  lemma AdoptionIsHistory(s: State, snapshot: UpdateSnapshot)
    ensures var after := AdoptOnline(s, snapshot);
            && after.local == s.local
            && (if s.local.Some? then after.status == s.status
                else after.status.state.Error? && after.status.updateCount == CountShown(snapshot.updates))
  {
  }

  /** A failed evaluation keeps the earlier counts, total and time, and drops no snapshot. */
  lemma FailureKeepsTotals(world: World, s: State, message: string)
    requires Possible(world, s, EvaluationFinishes(Err(message)))
    ensures var after := Step(world, s, EvaluationFinishes(Err(message)));
            && after.local == s.local && after.online == s.online
            && after.status == if s.dirty then s.status else s.status.(state := Error, lastError := message)
  {
  }

  // Coming to rest

  /** What happens when nothing new does: the timer fires, and the evaluation in progress ends. */
  function Next(world: World, s: State): State {
    if s.timer then Step(world, s, DebounceFires)
    else if s.running then
      Step(world, s, EvaluationFinishes(if s.changed <= s.startedAt then world(s.changed) else Err("torn")))
    else s
  }

  /** However many triggers have come in, the evaluation in progress and at most one more answer them all. */
  lemma ComesToRest(world: World, events: seq<Event>)
    ensures var s := Run(world, INITIAL, events);
            var rested := Next(world, Next(world, Next(world, s)));
            && !rested.running && !rested.timer
            && rested.started <= s.started + 1
            && (s.changed <= s.lastTrigger ==> rested.lastResult == Some(world(s.changed)))
  {
    var s := Run(world, INITIAL, events);
    RunInv(world, INITIAL, events);
    RestAfterThree(world, s);
  }

  lemma RestAfterThree(world: World, s: State)
    requires Inv(world, s)
    ensures var rested := Next(world, Next(world, Next(world, s)));
            && Inv(world, rested) && !rested.running && !rested.timer
            && rested.started <= s.started + 1
            && rested.changed == s.changed && s.lastTrigger <= rested.lastTrigger
  {
    var one := Next(world, s);
    NextInv(world, s);
    NextInv(world, one);
    NextInv(world, Next(world, one));
  }

  lemma NextInv(world: World, s: State)
    requires Inv(world, s)
    ensures var next := Next(world, s);
            && Inv(world, next) && next.changed == s.changed && s.lastTrigger <= next.lastTrigger
            && !next.timer
            && (s.timer ==> next.running && (!s.running ==> !next.rerun && !next.dirty))
            && (!s.timer && s.running ==> next.running == (s.rerun || s.dirty) && !next.rerun && !next.dirty)
            && (!s.timer && !s.running ==> next == s)
            && next.started == s.started + (if next.running && s.timer != s.running then 1 else 0)
  {
    if s.timer {
      StepInv(world, s, DebounceFires);
    } else if s.running {
      StepInv(world, s, EvaluationFinishes(if s.changed <= s.startedAt then world(s.changed) else Err("torn")));
    }
  }
}

/** The monitor as the object it is: each method takes its fields where MonitorProtocol says. */
module MonitorObject {
  import opened Wrappers
  import opened Domain
  import opened UpdateDisplay
  import P = MonitorProtocol

  class UpdateMonitor {
    var local: Option<UpdateSnapshot>
    var online: Option<UpdateSnapshot>
    var status: UpdateStatus
    var running: bool
    var rerun: bool
    var dirty: bool
    var debouncing: bool

    /** The clock, the files evaluations read, and what has happened; its other fields are not used. */
    ghost var past: P.State

    ghost function Abs(): P.State
      reads this
    {
      past.(local := local, online := online, status := status, running := running, rerun := rerun, dirty := dirty,
            timer := debouncing)
    }

    constructor ()
      ensures Abs() == P.INITIAL
    {
      local, online, status := None, None, NOTHING_SHOWN;
      running, rerun, dirty, debouncing := false, false, false, false;
      past := P.INITIAL;
    }

    ghost method Tick()
      modifies this`past
      ensures past == old(past).(clock := old(past).clock + 1)
    {
      past := past.(clock := past.clock + 1);
    }

    ghost method ContentChanges()
      modifies this`past
      ensures past == old(past).(changed := old(past).clock)
    {
      past := past.(changed := past.clock);
    }

    method Refresh()
      modifies this
      ensures Abs() == P.Refresh(old(Abs()))
    {
      debouncing := false;
      past := past.(lastTrigger := past.clock);
      if running {
        rerun := true;
        return;
      }
      StartEvaluation();
    }

    method OnFilesystemChanged()
      modifies this
      ensures Abs() == P.OnFilesystemChanged(old(Abs()))
    {
      if running {
        dirty := true;
      }
      debouncing := true;
      past := past.(lastChange := past.clock, lastTrigger := past.clock);
    }

    method StartEvaluation()
      modifies this`running, this`past
      ensures Abs() == P.StartEvaluation(old(Abs()))
    {
      running := true;
      past := past.(startedAt := past.clock, started := past.started + 1);
    }

    method OnEvaluationFinished(result: LoadResult)
      modifies this
      ensures Abs() == P.OnEvaluationFinished(old(Abs()), result)
    {
      running := false;
      past := past.(finished := past.finished + 1);
      var outdated := dirty;
      dirty := false;
      if outdated {
        rerun := false;
        StartEvaluation();
        return;
      }
      TakeIn(result);
      if rerun {
        rerun := false;
        StartEvaluation();
      }
    }

    method TakeIn(result: LoadResult)
      modifies this
      ensures Abs() == P.Process(old(Abs()), result)
    {
      if result.Ok? {
        local := Some(result.value);
      }
      if online.Some? && result.Ok? {
        ApplyFreshest();
      } else {
        Show(result);
      }
      past := past.(processedStart := past.startedAt, lastResult := Some(result),
                    log := past.log + [P.Processed(past.startedAt, past.lastChange, status)]);
    }

    method AdoptOnline(snapshot: UpdateSnapshot)
      modifies this
      ensures Abs() == P.AdoptOnline(old(Abs()), snapshot)
    {
      past := past.(lastChange := past.clock);
      online := Some(snapshot.(evaluated := false, previouslyLoaded := true));
      if local.None? {
        var historical := snapshot.(evaluated := false, previouslyLoaded := true);
        Show(Ok(historical));
      }
      dirty := running;
      Refresh();
    }

    method ApplyFreshest()
      requires local.Some? && online.Some?
      modifies this`status
      ensures status == Display(Chosen(local.value, online))
    {
      var chosen := if SelectFresher(local, online).Online? then online.value else local.value;
      Show(Ok(chosen));
    }

    method Show(result: LoadResult)
      modifies this`status
      ensures status == StatusOf(result, old(status))
    {
      var updated := BuildUpdateStatus(result, Some(status));
      Publish(updated);
    }

    method Publish(updated: UpdateStatus)
      modifies this`status
      ensures status == updated
    {
      if updated != status {
        status := updated;
      }
    }
  }

  /** One event, as the monitor meets it. */
  method Handle(monitor: UpdateMonitor, ghost world: P.World, event: P.Event)
    requires P.Possible(world, monitor.Abs(), event)
    modifies monitor
    ensures monitor.Abs() == P.Step(world, old(monitor.Abs()), event)
  {
    monitor.Tick();
    match event
    case ContentChanges => monitor.ContentChanges();
    case Notified => monitor.OnFilesystemChanged();
    case DebounceFires => monitor.Refresh();
    case Refreshed => monitor.Refresh();
    case Adopted(snapshot) => monitor.AdoptOnline(snapshot);
    case EvaluationFinishes(result) => monitor.OnEvaluationFinished(result);
  }

  /** A monitor driven by any events is where the protocol says, and keeps what every run keeps. */
  method Drive(ghost world: P.World, events: seq<P.Event>) returns (monitor: UpdateMonitor)
    requires Occurring(world, P.INITIAL, events)
    ensures monitor.Abs() == P.Run(world, P.INITIAL, events) && P.Inv(world, monitor.Abs())
  {
    monitor := new UpdateMonitor();
    for i := 0 to |events|
      invariant Occurring(world, monitor.Abs(), events[i..])
      invariant P.Run(world, monitor.Abs(), events[i..]) == P.Run(world, P.INITIAL, events)
    {
      assert events[i..][1..] == events[i + 1..];
      Handle(monitor, world, events[i]);
    }
    P.RunInv(world, P.INITIAL, events);
  }

  /** Every event can occur when its turn comes. */
  ghost predicate Occurring(world: P.World, s: P.State, events: seq<P.Event>)
    decreases events
  {
    events != [] ==> P.Possible(world, s, events[0]) && Occurring(world, P.Step(world, s, events[0]), events[1..])
  }
}
