/**
 * The check service and its scheduler as one deterministic machine. Signals are synchronous calls, so an observer or
 * a callback may request another check while one is being started or finished: what they request is given by scripts,
 * and every behaviour of theirs is some script.
 */
module CheckProtocol {
  import opened Wrappers
  import opened Domain
  import opened SnapshotJson
  import opened Policy

  datatype CheckOrigin = Automatic | OnDemand

  /** A completion callback; `reentry` is what it requests when it runs. */
  datatype Callback = Callback(id: nat, reentry: seq<Request>)

  /** `wall` is the clock at the request; `onStarted` is requested by the observers of the status it changes. */
  datatype Request = Request(origin: CheckOrigin, wall: Time, onDone: Option<Callback>, onStarted: seq<Request>)

  datatype Outcome = Outcome(succeeded: bool, error: Option<ErrorCode>, completedAt: Time, origin: CheckOrigin)

  datatype Status = Status(
    checking: bool,
    hasResult: bool,
    succeeded: bool,
    error: Option<ErrorCode>,
    lastCheckTime: Time,
    fetchedAt: Option<Time>,
    count: Option<nat>)

  /** What the worker brings back; `saved` tells whether the store took a successful result. */
  datatype Worker = Worker(result: Result<UpdateSnapshot, ErrorCode>, completedAt: Time, saved: bool)

  /** When a check started, why, and the completion the cooldown was measured from. */
  datatype Started = Started(origin: CheckOrigin, wall: Time, previous: Option<Time>)

  datatype State = State(
    // configuration
    policy: UpdateCheckPolicy,
    capable: bool,
    // the service
    status: Status,
    lastGood: Option<CheckedSnapshot>,
    joined: seq<Callback>,
    lastCompleted: Option<Time>,
    runningOrigin: CheckOrigin,
    running: bool,
    // the worker thread and the snapshot last published
    workers: nat,
    pending: Option<Worker>,
    published: Option<CheckedSnapshot>,
    // the scheduler: timer due time and clock in milliseconds
    timer: Option<int>,
    failures: nat,
    time: int,
    // what has happened: per run, the callbacks accepted into it and the callbacks run, and the outcomes in order
    accepted: seq<seq<Callback>>,
    delivered: seq<seq<(Callback, Outcome)>>,
    outcomes: seq<Outcome>,
    starts: seq<Started>)

  // Requests

  function Join(s: State, callback: Callback): State {
    s.(joined := s.joined + [callback],
       accepted := if s.accepted == [] then [] else
                   s.accepted[|s.accepted| - 1 := s.accepted[|s.accepted| - 1] + [callback]])
  }

  predicate CoolingDown(s: State, request: Request) {
    request.origin.OnDemand? && s.lastCompleted.Some? &&
    request.wall - s.lastCompleted.value < s.policy.onDemandCooldown * NANOS_PER_SECOND
  }

  function HandleRequest(s: State, request: Request): State
    decreases request
  {
    if !s.capable then s
    else if s.running then (if request.onDone.Some? then Join(s, request.onDone.value) else s)
    else if CoolingDown(s, request) then s
    else BeginCheck(s, if request.onDone.Some? then [request.onDone.value] else [], request.origin, request.wall,
                    request.onStarted)
  }

  function BeginCheck(s: State, callbacks: seq<Callback>, origin: CheckOrigin, wall: Time, onStarted: seq<Request>)
      : State
    decreases onStarted, 2
  {
    var begun := s.(joined := s.joined + callbacks, running := true, runningOrigin := origin,
                    accepted := s.accepted + [s.joined + callbacks],
                    starts := s.starts + [Started(origin, wall, s.lastCompleted)]);
    var told := SetStatus(begun, begun.status.(checking := true), onStarted);
    told.(workers := told.workers + 1)
  }

  function SetStatus(s: State, status: Status, observers: seq<Request>): State
    decreases observers, 1
  {
    if status == s.status then s else HandleAll(s.(status := status), observers)
  }

  function HandleAll(s: State, requests: seq<Request>): State
    decreases requests, 0
  {
    if requests == [] then s else HandleAll(HandleRequest(s, requests[0]), requests[1..])
  }

  // Completion

  function OutcomeOf(worker: Worker, origin: CheckOrigin): Outcome {
    var succeeded := worker.result.Ok? && worker.saved;
    Outcome(succeeded,
            if succeeded then None else Some(if worker.result.Ok? then Unknown else worker.result.error),
            worker.completedAt, origin)
  }

  /** What the observers of the signals emitted on completion request, and the scheduler's random draw. */
  datatype Reactions = Reactions(
    onStatus: seq<Request>,
    onAdopted: seq<Request>,
    beforeScheduler: seq<Request>,
    afterScheduler: seq<Request>,
    draw: int)

  function CompletedStatus(s: State, worker: Worker, outcome: Outcome): Status {
    var updated := s.status.(checking := false, hasResult := true, succeeded := outcome.succeeded,
                             error := outcome.error, lastCheckTime := worker.completedAt);
    if worker.result.Ok? && worker.saved
    then updated.(fetchedAt := Some(worker.completedAt), count := Some(CountShown(worker.result.value.updates)))
    else updated
  }

  /** The state once the outcome is recorded, before anyone is told. */
  function Recorded(s: State, worker: Worker): State {
    var outcome := OutcomeOf(worker, s.runningOrigin);
    s.(joined := [], running := false, pending := None, workers := if s.workers > 0 then s.workers - 1 else 0,
       lastCompleted := Some(worker.completedAt),
       lastGood := if worker.result.Ok? && worker.saved
                   then Some(CheckedSnapshot(worker.result.value, worker.completedAt)) else s.lastGood,
       outcomes := s.outcomes + [outcome], delivered := s.delivered + [[]])
  }

  function Arm(s: State, failures: nat, draw: int): State
  {
    s.(failures := failures, timer := Some(s.time + NextAutomaticDelay(s.policy, failures, draw)))
  }

  function SchedulerCompleted(s: State, outcome: Outcome, draw: int): State
  {
    if outcome.origin.Automatic? then Arm(s, if outcome.succeeded then 0 else s.failures + 1, draw)
    else if outcome.succeeded then Arm(s, 0, draw)
    else if s.timer.None? then Arm(s, s.failures, draw)
    else s
  }

  /** Runs the callbacks of a finished run; each may request further checks. */
  function Deliver(s: State, run: nat, outcome: Outcome, callbacks: seq<Callback>): State
    decreases callbacks
  {
    if callbacks == [] || run >= |s.delivered| then s
    else
      var told := s.(delivered := s.delivered[run := s.delivered[run] + [(callbacks[0], outcome)]]);
      Deliver(HandleAll(told, callbacks[0].reentry), run, outcome, callbacks[1..])
  }

  function WorkerFinished(s: State, worker: Worker, reactions: Reactions): State
  {
    var outcome := OutcomeOf(worker, s.runningOrigin);
    var run := |s.delivered|;
    var told := SetStatus(Recorded(s, worker), CompletedStatus(s, worker, outcome), reactions.onStatus);
    var adopted := if outcome.succeeded then HandleAll(told, reactions.onAdopted) else told;
    var before := HandleAll(adopted, reactions.beforeScheduler);
    var scheduled := HandleAll(SchedulerCompleted(before, outcome, reactions.draw), reactions.afterScheduler);
    Deliver(scheduled, run, outcome, s.joined)
  }

  // Events

  datatype Event =
    | Requested(request: Request)
    | TimerFires(time: int, wall: Time, onStarted: seq<Request>)
    | WorkerCompletes(worker: Worker)
    | CompletionArrives(time: int, reactions: Reactions)

  /** An event that cannot occur changes nothing. */
  function Step(s: State, event: Event): State
  {
    match event
    case Requested(request) => HandleRequest(s, request)
    case TimerFires(time, wall, onStarted) =>
      if s.timer.Some? && s.timer.value <= time && s.time <= time
      then HandleRequest(s.(timer := None, time := time), Request(Automatic, wall, None, onStarted))
      else s
    case WorkerCompletes(worker) =>
      if s.workers > 0 && s.pending.None? then
        s.(pending := Some(worker),
           published := if worker.result.Ok? && worker.saved
                        then Some(CheckedSnapshot(worker.result.value, worker.completedAt)) else s.published)
      else s
    case CompletionArrives(time, reactions) =>
      if s.pending.Some? && s.time <= time then WorkerFinished(s.(time := time), s.pending.value, reactions) else s
  }

  // Start

  /** What the store offers at start: its history, and the snapshot it loads unless it cannot be read. */
  datatype Startup = Startup(
    policy: UpdateCheckPolicy,
    capable: bool,
    history: Option<CheckHistory>,
    readable: bool,
    stored: Option<CheckedSnapshot>,
    time: int,
    onHistory: seq<Request>,
    onStatus: seq<Request>,
    onAdopted: seq<Request>)

  const NO_STATUS := Status(false, false, false, None, 0, None, None)

  function Unstarted(startup: Startup): State {
    State(startup.policy, startup.capable, NO_STATUS, None, [], None, Automatic, false, 0, None, startup.stored, None,
          0, startup.time, [], [], [], [])
  }

  function HistoryStatus(history: CheckHistory): Status {
    NO_STATUS.(hasResult := true, succeeded := history.succeeded, error := history.error,
               lastCheckTime := history.completed)
  }

  /** The state once the saved result of the last check is shown. */
  function Remembered(startup: Startup): State {
    if startup.history.Some?
    then SetStatus(Unstarted(startup).(lastCompleted := Some(startup.history.value.completed)),
                   HistoryStatus(startup.history.value), startup.onHistory)
    else Unstarted(startup)
  }

  function ServiceStart(startup: Startup): State {
    if startup.readable && startup.stored.Some?
    then AdoptSnapshot(Remembered(startup), startup.stored.value, startup.onStatus, startup.onAdopted)
    else Remembered(startup)
  }

  function AdoptSnapshot(s: State, snapshot: CheckedSnapshot, onStatus: seq<Request>, onAdopted: seq<Request>)
      : State
  {
    var told := SetStatus(s.(lastGood := Some(snapshot)),
                          s.status.(fetchedAt := Some(snapshot.fetchedAt),
                                    count := Some(CountShown(snapshot.snapshot.updates))),
                          onStatus);
    HandleAll(told, onAdopted)
  }

  function Start(startup: Startup): State {
    var s := ServiceStart(startup);
    if s.capable then s.(timer := Some(s.time + startup.policy.startupDelay * 1000)) else s
  }

  predicate ValidStartup(startup: Startup) {
    (startup.history.Some? ==> (startup.history.value.error.None? <==> startup.history.value.succeeded))
  }

  /** Every reachable state is the result of some events after some start. */
  function Run(s: State, events: seq<Event>): State
    decreases events
  {
    if events == [] then s
    else Run(Step(s, events[0]), events[1..])
  }
}
