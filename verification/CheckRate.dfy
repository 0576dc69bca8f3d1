/**
 * How fast automatic checks can fail. The scheduler is the only source of automatic requests, so here observers and
 * callbacks request on-demand checks only; they may do so at any time and as often as they like.
 */
module CheckRate {
  import opened Wrappers
  import opened Domain
  import opened SnapshotJson
  import opened Policy
  import opened CheckProtocol
  import opened CheckProperties

  predicate OnDemandRequest(request: Request)
    decreases request
  {
    && request.origin.OnDemand?
    && OnDemandOnly(request.onStarted)
    && (request.onDone.Some? ==> OnDemandOnly(request.onDone.value.reentry))
  }

  predicate OnDemandOnly(requests: seq<Request>)
    decreases requests
  {
    requests == [] || (OnDemandRequest(requests[0]) && OnDemandOnly(requests[1..]))
  }

  /** No waiting callback will request an automatic check. */
  predicate Calm(s: State) {
    forall callback <- s.joined :: OnDemandOnly(callback.reentry)
  }

  predicate AutomaticRunning(s: State) {
    s.running && s.runningOrigin.Automatic?
  }

  lemma {:induction false} RequestStaysCalm(s: State, request: Request)
    requires Calm(s) && OnDemandRequest(request)
    ensures Calm(HandleRequest(s, request))
    ensures AutomaticRunning(HandleRequest(s, request)) ==> AutomaticRunning(s)
    decreases request
  {
    if s.capable && !s.running && !CoolingDown(s, request) {
      var callbacks := if request.onDone.Some? then [request.onDone.value] else [];
      BeginStaysCalm(s, callbacks, request.origin, request.wall, request.onStarted);
    }
  }

  lemma {:induction false} BeginStaysCalm(s: State, callbacks: seq<Callback>, origin: CheckOrigin, wall: Time,
                                          onStarted: seq<Request>)
    requires Calm(s) && OnDemandOnly(onStarted)
    requires forall callback <- callbacks :: OnDemandOnly(callback.reentry)
    ensures Calm(BeginCheck(s, callbacks, origin, wall, onStarted))
    ensures AutomaticRunning(BeginCheck(s, callbacks, origin, wall, onStarted)) ==> origin.Automatic?
    decreases onStarted, 1
  {
    var begun := s.(joined := s.joined + callbacks, running := true, runningOrigin := origin,
                    accepted := s.accepted + [s.joined + callbacks],
                    starts := s.starts + [Started(origin, wall, s.lastCompleted)]);
    AllStayCalm(begun.(status := begun.status.(checking := true)), onStarted);
  }

  lemma {:induction false} AllStayCalm(s: State, requests: seq<Request>)
    requires Calm(s) && OnDemandOnly(requests)
    ensures Calm(HandleAll(s, requests))
    ensures AutomaticRunning(HandleAll(s, requests)) ==> AutomaticRunning(s)
    decreases requests, 0
  {
    if requests != [] {
      RequestStaysCalm(s, requests[0]);
      AllStayCalm(HandleRequest(s, requests[0]), requests[1..]);
    }
  }

  lemma {:induction false} DeliveryStaysCalm(s: State, run: nat, outcome: Outcome, callbacks: seq<Callback>)
    requires Calm(s) && forall callback <- callbacks :: OnDemandOnly(callback.reentry)
    ensures Calm(Deliver(s, run, outcome, callbacks))
    ensures AutomaticRunning(Deliver(s, run, outcome, callbacks)) ==> AutomaticRunning(s)
    decreases callbacks
  {
    if callbacks != [] && run < |s.delivered| {
      var told := s.(delivered := s.delivered[run := s.delivered[run] + [(callbacks[0], outcome)]]);
      assert callbacks[0] in callbacks;
      AllStayCalm(told, callbacks[0].reentry);
      DeliveryStaysCalm(HandleAll(told, callbacks[0].reentry), run, outcome, callbacks[1..]);
    }
  }

  predicate CalmReactions(reactions: Reactions) {
    && OnDemandOnly(reactions.onStatus)
    && OnDemandOnly(reactions.onAdopted)
    && OnDemandOnly(reactions.beforeScheduler)
    && OnDemandOnly(reactions.afterScheduler)
  }

  lemma CompletionStaysCalm(s: State, worker: Worker, reactions: Reactions)
    requires Calm(s) && CalmReactions(reactions)
    ensures Calm(WorkerFinished(s, worker, reactions))
    ensures !AutomaticRunning(WorkerFinished(s, worker, reactions))
  {
    var outcome, announced := OutcomeOf(worker, s.runningOrigin), Announced(s, worker);
    AllStayCalm(announced, reactions.onStatus);
    var told := SetStatus(Recorded(s, worker), announced.status, reactions.onStatus);
    assert told == HandleAll(announced, reactions.onStatus) || told == announced;
    AllStayCalm(told, reactions.onAdopted);
    var adopted := if outcome.succeeded then HandleAll(told, reactions.onAdopted) else told;
    AllStayCalm(adopted, reactions.beforeScheduler);
    var before := HandleAll(adopted, reactions.beforeScheduler);
    var answered := SchedulerCompleted(before, outcome, reactions.draw);
    SchedulerAnswers(before, outcome, reactions.draw);
    assert answered.joined == before.joined;
    AllStayCalm(answered, reactions.afterScheduler);
    DeliveryStaysCalm(HandleAll(answered, reactions.afterScheduler), |s.delivered|, outcome, s.joined);
  }

  // The bound

  /** The shortest delays after the first `failures` failures, added up. */
  function TotalShortest(policy: UpdateCheckPolicy, failures: nat): int {
    if failures == 0 then 0 else TotalShortest(policy, failures - 1) + ShortestDelay(policy, failures)
  }

  /** The earliest completion of the `failures`-th automatic failure after `earliest`, the first possible tick. */
  function Bound(policy: UpdateCheckPolicy, earliest: int, failures: nat): int
    requires failures >= 1
  {
    earliest + TotalShortest(policy, failures - 1)
  }

  predicate Paced(s: State, earliest: int) {
    && Calm(s)
    && (s.failures >= 1 ==> s.time >= Bound(s.policy, earliest, s.failures))
    && (if s.timer.Some? then s.timer.value >= Bound(s.policy, earliest, s.failures + 1)
        else s.capable ==> s.time >= Bound(s.policy, earliest, s.failures + 1))
    && (AutomaticRunning(s) ==> s.time >= Bound(s.policy, earliest, s.failures + 1))
  }

  /** A success restarts the count: the next tick is at least the shortest plain interval away. */
  function EarliestAfter(s: State, earliest: int, event: Event): int {
    if event.CompletionArrives? && s.pending.Some? && s.time <= event.time &&
       OutcomeOf(s.pending.value, s.runningOrigin).succeeded
    then event.time + ShortestDelay(s.policy, 0)
    else earliest
  }

  predicate CalmEvent(event: Event) {
    match event
    case Requested(request) => OnDemandRequest(request)
    case TimerFires(_, _, onStarted) => OnDemandOnly(onStarted)
    case WorkerCompletes(_) => true
    case CompletionArrives(_, reactions) => CalmReactions(reactions)
  }

  lemma CompletionPaced(s: State, earliest: int, worker: Worker, reactions: Reactions)
    requires Inv(s) && Paced(s, earliest) && s.running && CalmReactions(reactions)
    ensures var succeeded := OutcomeOf(worker, s.runningOrigin).succeeded;
            Paced(WorkerFinished(s, worker, reactions),
                  if succeeded then s.time + ShortestDelay(s.policy, 0) else earliest)
  {
    var after, outcome := WorkerFinished(s, worker, reactions), OutcomeOf(worker, s.runningOrigin);
    CompletionEffect(s, worker, reactions);
    CompletionStaysCalm(s, worker, reactions);
    DelayInRange(s.policy, after.failures, reactions.draw);
    assert outcome.succeeded ==> after.failures == 0 && TotalShortest(s.policy, 0) == 0;
  }

  lemma RequestPaced(s: State, earliest: int, request: Request)
    requires Inv(s) && Paced(s, earliest) && OnDemandRequest(request)
    ensures Paced(HandleRequest(s, request), earliest)
  {
    RequestReacts(s, request);
    assert Fixed(HandleRequest(s, request)) == Fixed(s);
    RequestStaysCalm(s, request);
  }

  lemma TickPaced(s: State, earliest: int, time: int, wall: Time, onStarted: seq<Request>)
    requires Inv(s) && Paced(s, earliest) && OnDemandOnly(onStarted)
    requires s.timer.Some? && s.timer.value <= time && s.time <= time
    ensures Paced(HandleRequest(s.(timer := None, time := time), Request(Automatic, wall, None, onStarted)), earliest)
  {
    var fired, request := s.(timer := None, time := time), Request(Automatic, wall, None, onStarted);
    TickInv(s, time, wall, onStarted);
    assert Fixed(HandleRequest(fired, request)) == Fixed(fired);
    if s.capable && !s.running {
      BeginStaysCalm(fired, [], Automatic, wall, onStarted);
    }
  }

  lemma ArrivalPaced(s: State, earliest: int, time: int, reactions: Reactions)
    requires Inv(s) && Paced(s, earliest) && s.pending.Some? && s.time <= time && CalmReactions(reactions)
    ensures Paced(WorkerFinished(s.(time := time), s.pending.value, reactions),
                  EarliestAfter(s, earliest, CompletionArrives(time, reactions)))
  {
    CompletionPaced(s.(time := time), earliest, s.pending.value, reactions);
  }

  lemma StepPaced(s: State, earliest: int, event: Event)
    requires Inv(s) && Paced(s, earliest) && CalmEvent(event)
    ensures Paced(Step(s, event), EarliestAfter(s, earliest, event))
  {
    match event
    case Requested(request) => RequestPaced(s, earliest, request);
    case TimerFires(time, wall, onStarted) =>
      if s.timer.Some? && s.timer.value <= time && s.time <= time {
        TickPaced(s, earliest, time, wall, onStarted);
      }
    case WorkerCompletes(worker) =>
    case CompletionArrives(time, reactions) =>
      if s.pending.Some? && s.time <= time {
        ArrivalPaced(s, earliest, time, reactions);
      }
  }

  // Whole runs

  predicate CalmStartup(startup: Startup) {
    OnDemandOnly(startup.onHistory) && OnDemandOnly(startup.onStatus) && OnDemandOnly(startup.onAdopted)
  }

  function FirstTick(startup: Startup): int {
    startup.time + startup.policy.startupDelay * 1000
  }

  /** The first possible tick of the current streak: after the start or after the last success. */
  function StreakStart(s: State, earliest: int, events: seq<Event>): int
    decreases events
  {
    if events == [] then earliest
    else StreakStart(Step(s, events[0]), EarliestAfter(s, earliest, events[0]), events[1..])
  }

  lemma StartPaced(startup: Startup)
    requires ValidStartup(startup) && CalmStartup(startup)
    ensures Paced(Start(startup), FirstTick(startup))
  {
    StartInv(startup);
    RememberedService(startup);
    var remembered := Remembered(startup);
    if startup.history.Some? {
      var told := Unstarted(startup).(lastCompleted := Some(startup.history.value.completed),
                                      status := HistoryStatus(startup.history.value));
      AllReact(told, startup.onHistory);
      AllStayCalm(told, startup.onHistory);
      assert Fixed(HandleAll(told, startup.onHistory)) == Fixed(told);
    }
    assert Calm(remembered) && !AutomaticRunning(remembered) && remembered.failures == 0;
    assert remembered.time == startup.time;
    if startup.readable && startup.stored.Some? {
      AdoptionStaysCalm(remembered, startup.stored.value, startup.onStatus, startup.onAdopted);
    }
  }

  lemma AdoptionStaysCalm(s: State, snapshot: CheckedSnapshot, onStatus: seq<Request>, onAdopted: seq<Request>)
    requires Mid(s) && Calm(s) && !AutomaticRunning(s) && OnDemandOnly(onStatus) && OnDemandOnly(onAdopted)
    ensures var after := AdoptSnapshot(s, snapshot, onStatus, onAdopted);
            Calm(after) && !AutomaticRunning(after) && after.failures == s.failures && after.time == s.time
  {
    var status := s.status.(fetchedAt := Some(snapshot.fetchedAt),
                            count := Some(CountShown(snapshot.snapshot.updates)));
    var adopted := s.(lastGood := Some(snapshot), status := status);
    AllReact(adopted, onStatus);
    AllStayCalm(adopted, onStatus);
    var told := SetStatus(s.(lastGood := Some(snapshot)), status, onStatus);
    assert told == adopted || told == HandleAll(adopted, onStatus);
    assert Fixed(told) == Fixed(adopted);
    AllReact(told, onAdopted);
    AllStayCalm(told, onAdopted);
    assert Fixed(HandleAll(told, onAdopted)) == Fixed(told);
  }

  lemma {:induction false} RunPaced(s: State, earliest: int, events: seq<Event>)
    requires Inv(s) && Paced(s, earliest)
    requires forall event <- events :: CalmEvent(event)
    ensures Paced(Run(s, events), StreakStart(s, earliest, events))
    decreases events
  {
    if events != [] {
      assert events[0] in events;
      StepInv(s, events[0]);
      StepPaced(s, earliest, events[0]);
      RunPaced(Step(s, events[0]), EarliestAfter(s, earliest, events[0]), events[1..]);
    }
  }

  /** An event records at most one outcome, and the streak restarts only if that outcome is a success. */
  lemma StepRecords(s: State, earliest: int, event: Event)
    requires Inv(s)
    ensures var after := Step(s, event);
            || (after.outcomes == s.outcomes && EarliestAfter(s, earliest, event) == earliest)
            || (&& s.pending.Some?
                && after.outcomes == s.outcomes + [OutcomeOf(s.pending.value, s.runningOrigin)]
                && (OutcomeOf(s.pending.value, s.runningOrigin).succeeded ||
                    EarliestAfter(s, earliest, event) == earliest))
  {
    match event
    case Requested(request) =>
      RequestReacts(s, request);
      assert Fixed(HandleRequest(s, request)).outcomes == s.outcomes;
    case TimerFires(time, wall, onStarted) =>
      if s.timer.Some? && s.timer.value <= time && s.time <= time {
        TickInv(s, time, wall, onStarted);
        var request := Request(Automatic, wall, None, onStarted);
        assert Fixed(HandleRequest(s.(timer := None, time := time), request)).outcomes == s.outcomes;
      }
    case WorkerCompletes(worker) =>
    case CompletionArrives(time, reactions) =>
      if s.pending.Some? && s.time <= time {
        CompletionEffect(s.(time := time), s.pending.value, reactions);
      }
  }

  predicate NoSuccess(s: State) {
    forall i | 0 <= i < |s.outcomes| :: !s.outcomes[i].succeeded
  }

  /** Without a success, the streak is still the one that began at the start. */
  lemma {:induction false} FirstStreak(s: State, earliest: int, events: seq<Event>)
    requires Inv(s) && NoSuccess(Run(s, events))
    ensures StreakStart(s, earliest, events) == earliest && NoSuccess(s)
    decreases events
  {
    if events != [] {
      var next := Step(s, events[0]);
      StepInv(s, events[0]);
      FirstStreak(next, EarliestAfter(s, earliest, events[0]), events[1..]);
      StepRecords(s, earliest, events[0]);
      assert forall i | 0 <= i < |s.outcomes| :: s.outcomes[i] == next.outcomes[i];
      if next.outcomes != s.outcomes {
        assert !next.outcomes[|s.outcomes|].succeeded;
      }
    }
  }

  /**
   * However on-demand checks are interleaved, n automatic failures in a row cannot have completed before the first
   * possible tick of the streak plus the n - 1 shortest delays between them.
   */
  lemma AutomaticRateBound(startup: Startup, events: seq<Event>)
    requires ValidStartup(startup) && CalmStartup(startup)
    requires forall event <- events :: CalmEvent(event)
    ensures var s := Run(Start(startup), events);
            s.failures >= 1 ==>
              s.time >= StreakStart(Start(startup), FirstTick(startup), events) +
                        TotalShortest(startup.policy, s.failures - 1)
  {
    StartInv(startup);
    StartPaced(startup);
    RunInv(Start(startup), events);
    RunPaced(Start(startup), FirstTick(startup), events);
  }

  lemma {:induction false} DefaultTotals(failures: nat)
    requires failures >= 3
    ensures TotalShortest(DEFAULT, failures) == (80 + (failures - 3) * 350) * MINUTE
    decreases failures
  {
    if failures == 3 {
      assert TotalShortest(DEFAULT, 1) == 5 * MINUTE;
      assert TotalShortest(DEFAULT, 2) == 20 * MINUTE;
    } else {
      DefaultTotals(failures - 1);
      DefaultMaximum();
    }
  }

  /**
   * With the default policy and no success, the n-th automatic failure (n at least 4) needs a minute, the three
   * backoff steps and n - 4 intervals less jitter; so at most seven fail within a day of the start.
   */
  lemma DefaultRateBound(startup: Startup, events: seq<Event>)
    requires ValidStartup(startup) && CalmStartup(startup) && startup.policy == DEFAULT
    requires forall event <- events :: CalmEvent(event)
    requires NoSuccess(Run(Start(startup), events))
    ensures var s := Run(Start(startup), events);
            && (s.failures >= 4 ==> s.time >= startup.time + (1 + 80 + (s.failures - 4) * 350) * MINUTE)
            && (s.time < startup.time + 24 * 60 * MINUTE ==> s.failures <= 7)
  {
    AutomaticRateBound(startup, events);
    StartInv(startup);
    FirstStreak(Start(startup), FirstTick(startup), events);
    var s := Run(Start(startup), events);
    if s.failures >= 4 {
      DefaultTotals(s.failures - 1);
    }
  }
}
