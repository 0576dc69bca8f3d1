/** What every run of the check service and scheduler keeps, under any re-entrant requests. */
module CheckProperties {
  import opened Wrappers
  import opened Domain
  import opened SnapshotJson
  import opened Policy
  import opened CheckProtocol

  // What holds at every point where an observer or callback can call back

  /** The service's own fields agree, and the callbacks of the current run are the joined ones. */
  predicate Mid(s: State) {
    && s.running == s.status.checking
    && (s.running ==> s.capable)
    && |s.accepted| == |s.outcomes| + (if s.running then 1 else 0)
    && (if s.running then s.accepted[|s.outcomes|] == s.joined else s.joined == [])
  }

  /** No on-demand check started within the cooldown of the completion before it. */
  predicate Cooled(s: State) {
    forall start <- s.starts ::
      start.origin.OnDemand? && start.previous.Some? ==>
        start.wall - start.previous.value >= s.policy.onDemandCooldown * NANOS_PER_SECOND
  }

  /** The part of the state a request cannot change. */
  function Fixed(s: State): State {
    s.(running := false, runningOrigin := Automatic, status := s.status.(checking := false), joined := [],
       accepted := [], workers := 0, starts := [])
  }

  /** How requests made at such a point can change the state. */
  predicate Reacts(s: State, after: State)
    requires Mid(s)
  {
    && Mid(after)
    && Fixed(after) == Fixed(s)
    && |s.outcomes| <= |after.accepted| && after.accepted[..|s.outcomes|] == s.accepted[..|s.outcomes|]
    && (s.running ==>
          after.running && after.runningOrigin == s.runningOrigin && s.joined <= after.joined &&
          after.workers == s.workers && after.starts == s.starts)
    && (!s.running ==> after.workers == s.workers + (if after.running then 1 else 0))
    && (Cooled(s) ==> Cooled(after))
  }

  lemma {:induction false} RequestReacts(s: State, request: Request)
    requires Mid(s)
    ensures Reacts(s, HandleRequest(s, request))
    decreases request
  {
    if s.capable && s.running && request.onDone.Some? {
      var joined := Join(s, request.onDone.value);
      assert joined.accepted[..|s.outcomes|] == s.accepted[..|s.outcomes|];
      assert HandleRequest(s, request) == joined;
    } else if s.capable && !s.running && !CoolingDown(s, request) {
      var callbacks := if request.onDone.Some? then [request.onDone.value] else [];
      BeginReacts(s, callbacks, request.origin, request.wall, request.onStarted);
      assert HandleRequest(s, request) ==
             BeginCheck(s, callbacks, request.origin, request.wall, request.onStarted);
    }
  }

  lemma {:induction false} BeginReacts(s: State, callbacks: seq<Callback>, origin: CheckOrigin, wall: Time,
                                       onStarted: seq<Request>)
    requires Mid(s) && s.capable && !s.running
    requires origin.OnDemand? && s.lastCompleted.Some? ==>
               wall - s.lastCompleted.value >= s.policy.onDemandCooldown * NANOS_PER_SECOND
    ensures Reacts(s, BeginCheck(s, callbacks, origin, wall, onStarted))
    ensures BeginCheck(s, callbacks, origin, wall, onStarted).running
    decreases onStarted, 1
  {
    var begun := s.(joined := s.joined + callbacks, running := true, runningOrigin := origin,
                    accepted := s.accepted + [s.joined + callbacks],
                    starts := s.starts + [Started(origin, wall, s.lastCompleted)]);
    var checking := begun.(status := begun.status.(checking := true));
    AllReact(checking, onStarted);
    assert SetStatus(begun, begun.status.(checking := true), onStarted) == HandleAll(checking, onStarted);
    assert checking.accepted[..|s.outcomes|] == s.accepted;
    var told := HandleAll(checking, onStarted);
    assert BeginCheck(s, callbacks, origin, wall, onStarted) == told.(workers := told.workers + 1);
    assert Fixed(checking) == Fixed(s);
  }

  lemma {:induction false} AllReact(s: State, requests: seq<Request>)
    requires Mid(s)
    ensures Reacts(s, HandleAll(s, requests))
    decreases requests, 0
  {
    if requests == [] {
      assert HandleAll(s, requests) == s;
    } else {
      RequestReacts(s, requests[0]);
      var next := HandleRequest(s, requests[0]);
      AllReact(next, requests[1..]);
      ReactsTwice(s, next, HandleAll(next, requests[1..]));
    }
  }

  lemma ReactsTwice(s: State, next: State, after: State)
    requires Mid(s) && Reacts(s, next) && Reacts(next, after)
    ensures Reacts(s, after)
  {
    assert next.outcomes == Fixed(next).outcomes == Fixed(s).outcomes;
  }

  // What holds between events

  /** These callbacks, each run once with this outcome, in order. */
  function Stamped(callbacks: seq<Callback>, outcome: Outcome): seq<(Callback, Outcome)> {
    seq(|callbacks|, i requires 0 <= i < |callbacks| => (callbacks[i], outcome))
  }

  /** Every finished run has run exactly the callbacks accepted into it, with its own outcome. */
  predicate Settled(s: State) {
    && |s.delivered| == |s.outcomes| <= |s.accepted|
    && forall r | 0 <= r < |s.outcomes| :: s.delivered[r] == Stamped(s.accepted[r], s.outcomes[r])
  }

  /** Automatic failures since the last success of either origin. */
  function FailuresSince(outcomes: seq<Outcome>): nat {
    if outcomes == [] then 0
    else
      var last := outcomes[|outcomes| - 1];
      if last.succeeded then 0
      else FailuresSince(outcomes[..|outcomes| - 1]) + (if last.origin.Automatic? then 1 else 0)
  }

  /** The published status is derived from the last result and the last good snapshot. */
  predicate StatusAgrees(s: State) {
    && (s.status.error.Some? <==> s.status.hasResult && !s.status.succeeded)
    && s.lastCompleted == (if s.status.hasResult then Some(s.status.lastCheckTime) else None)
    && s.status.fetchedAt == (if s.lastGood.Some? then Some(s.lastGood.value.fetchedAt) else None)
    && s.status.count ==
       (if s.lastGood.Some? then Some(CountShown(s.lastGood.value.snapshot.updates)) else None)
  }

  /** The store holds the last good snapshot, or the one the worker has just saved. */
  predicate StoreAgrees(s: State) {
    if s.pending.Some? && s.pending.value.result.Ok? && s.pending.value.saved
    then s.published == Some(CheckedSnapshot(s.pending.value.result.value, s.pending.value.completedAt))
    else s.lastGood.Some? ==> s.published == s.lastGood
  }

  predicate ServiceInv(s: State) {
    && Mid(s)
    && s.workers == (if s.running then 1 else 0)
    && (s.pending.Some? ==> s.running)
    && Settled(s)
    && s.failures == FailuresSince(s.outcomes)
    && StatusAgrees(s)
    && StoreAgrees(s)
    && Cooled(s)
  }

  predicate Inv(s: State) {
    && ServiceInv(s)
    && (s.timer.Some? ==> s.capable)
    && (s.capable ==> s.running || s.timer.Some?)
  }

  /** A request between events, or from an observer of one, disturbs nothing. */
  lemma RequestsKeepService(s: State, after: State)
    requires ServiceInv(s) && Reacts(s, after)
    ensures ServiceInv(after)
  {
    assert Fixed(after) == Fixed(s);
    forall r | 0 <= r < |after.outcomes|
      ensures after.delivered[r] == Stamped(after.accepted[r], after.outcomes[r])
    {
      assert after.accepted[..|s.outcomes|][r] == s.accepted[..|s.outcomes|][r];
    }
  }

  lemma RequestsKeepInv(s: State, after: State)
    requires Inv(s) && Reacts(s, after)
    ensures Inv(after)
  {
    RequestsKeepService(s, after);
    assert Fixed(after) == Fixed(s);
  }

  lemma {:induction false} DeliverRunsEach(s: State, run: nat, outcome: Outcome, callbacks: seq<Callback>)
    requires Mid(s) && run < |s.delivered|
    ensures var after := Deliver(s, run, outcome, callbacks);
            && after.delivered == s.delivered[run := s.delivered[run] + Stamped(callbacks, outcome)]
            && Reacts(s.(delivered := after.delivered), after)
    decreases callbacks
  {
    if callbacks == [] {
      assert s.delivered[run] + Stamped(callbacks, outcome) == s.delivered[run];
      assert s.delivered[run := s.delivered[run]] == s.delivered;
    } else {
      var told := s.(delivered := s.delivered[run := s.delivered[run] + [(callbacks[0], outcome)]]);
      AllReact(told, callbacks[0].reentry);
      var next := HandleAll(told, callbacks[0].reentry);
      assert next.delivered == Fixed(next).delivered == told.delivered;
      DeliverRunsEach(next, run, outcome, callbacks[1..]);
      var after := Deliver(next, run, outcome, callbacks[1..]);
      assert Stamped(callbacks, outcome) == [(callbacks[0], outcome)] + Stamped(callbacks[1..], outcome);
      var first, rest := [(callbacks[0], outcome)], Stamped(callbacks[1..], outcome);
      assert s.delivered[run] + first + rest == s.delivered[run] + (first + rest);
      assert after.delivered == s.delivered[run := s.delivered[run] + Stamped(callbacks, outcome)];
      ReactsElsewhere(told, next, after.delivered);
      ReactsTwice(told.(delivered := after.delivered), next.(delivered := after.delivered), after);
    }
  }

  lemma ReactsElsewhere(s: State, after: State, delivered: seq<seq<(Callback, Outcome)>>)
    requires Mid(s) && Reacts(s, after)
    ensures Reacts(s.(delivered := delivered), after.(delivered := delivered))
  {
    assert Fixed(after.(delivered := delivered)) == Fixed(after).(delivered := delivered);
  }

  /** The state once the outcome and the status are recorded, as the first observer sees it. */
  function Announced(s: State, worker: Worker): State {
    Recorded(s, worker).(status := CompletedStatus(s, worker, OutcomeOf(worker, s.runningOrigin)))
  }

  /** A completion is its record, the scheduler's reaction and the delivery, with requests in between. */
  lemma CompletionShape(s: State, worker: Worker, reactions: Reactions) returns (before: State, scheduled: State)
    requires Inv(s) && s.running
    ensures var outcome, announced := OutcomeOf(worker, s.runningOrigin), Announced(s, worker);
            && Mid(announced) && Reacts(announced, before)
            && Mid(SchedulerCompleted(before, outcome, reactions.draw))
            && Reacts(SchedulerCompleted(before, outcome, reactions.draw), scheduled)
            && WorkerFinished(s, worker, reactions) ==
               Deliver(scheduled, |s.delivered|, outcome, s.joined)
  {
    var outcome, announced := OutcomeOf(worker, s.runningOrigin), Announced(s, worker);
    AllReact(announced, reactions.onStatus);
    var told := HandleAll(announced, reactions.onStatus);
    assert Recorded(s, worker).status.checking && !announced.status.checking;
    assert told == SetStatus(Recorded(s, worker), announced.status, reactions.onStatus);
    AllReact(told, reactions.onAdopted);
    var adopted := if outcome.succeeded then HandleAll(told, reactions.onAdopted) else told;
    AllReact(adopted, reactions.beforeScheduler);
    before := HandleAll(adopted, reactions.beforeScheduler);
    if outcome.succeeded {
      ReactsTwice(announced, told, adopted);
    }
    ReactsTwice(announced, adopted, before);
    AllReact(SchedulerCompleted(before, outcome, reactions.draw), reactions.afterScheduler);
    scheduled := HandleAll(SchedulerCompleted(before, outcome, reactions.draw), reactions.afterScheduler);
  }

  /** How the scheduler answers a completion: the new failure count, and whether the timer is restarted. */
  function FailuresAfter(s: State, outcome: Outcome): nat {
    if outcome.succeeded then 0 else if outcome.origin.Automatic? then s.failures + 1 else s.failures
  }

  predicate Restarts(s: State, outcome: Outcome) {
    outcome.origin.Automatic? || outcome.succeeded || s.timer.None?
  }

  /** What a completion changes besides the scheduler and the run it may start. */
  predicate CompletedService(s: State, worker: Worker, after: State)
    requires Inv(s)
  {
    && after.outcomes == s.outcomes + [OutcomeOf(worker, s.runningOrigin)]
    && after.status.(checking := false) == CompletedStatus(s, worker, OutcomeOf(worker, s.runningOrigin))
    && after.lastGood == Recorded(s, worker).lastGood
    && after.lastCompleted == Some(worker.completedAt)
    && after.published == s.published && after.pending == None
    && after.time == s.time && after.policy == s.policy && after.capable == s.capable
    && |s.accepted| <= |after.accepted| && after.accepted[..|s.accepted|] == s.accepted
    && after.workers == s.workers - 1 + (if after.running then 1 else 0)
    && Cooled(after)
  }

  predicate Completed(s: State, worker: Worker, draw: int, after: State)
    requires Inv(s)
  {
    && CompletedService(s, worker, after)
    && after.failures == FailuresAfter(s, OutcomeOf(worker, s.runningOrigin))
    && after.timer == (if Restarts(s, OutcomeOf(worker, s.runningOrigin))
                       then Some(s.time + NextAutomaticDelay(s.policy, after.failures, draw)) else s.timer)
  }

  lemma SchedulerAnswers(s: State, outcome: Outcome, draw: int)
    ensures SchedulerCompleted(s, outcome, draw) ==
            s.(failures := FailuresAfter(s, outcome),
               timer := if Restarts(s, outcome)
                        then Some(s.time + NextAutomaticDelay(s.policy, FailuresAfter(s, outcome), draw)) else s.timer)
  {
  }

  lemma AnnouncedService(s: State, worker: Worker, before: State)
    requires Inv(s) && s.running
    requires Mid(Announced(s, worker)) && Reacts(Announced(s, worker), before)
    ensures CompletedService(s, worker, before)
    ensures before.delivered == s.delivered + [[]]
    ensures before.failures == s.failures && before.timer == s.timer
  {
    assert Fixed(before) == Fixed(Announced(s, worker));
    assert s.accepted[..|s.accepted|] == s.accepted;
  }

  /** The scheduler's answer and further requests leave the service's part alone. */
  lemma ScheduledService(s: State, worker: Worker, before: State, answered: State, scheduled: State)
    requires Inv(s) && CompletedService(s, worker, before)
    requires answered == before.(failures := answered.failures, timer := answered.timer)
    requires Mid(answered) && Reacts(answered, scheduled)
    ensures CompletedService(s, worker, scheduled) && scheduled.delivered == before.delivered
    ensures scheduled.failures == answered.failures && scheduled.timer == answered.timer
  {
    assert Fixed(scheduled) == Fixed(answered);
  }

  lemma ScheduledEffect(s: State, worker: Worker, reactions: Reactions) returns (scheduled: State)
    requires Inv(s) && s.running
    ensures Mid(scheduled) && Completed(s, worker, reactions.draw, scheduled)
    ensures scheduled.delivered == s.delivered + [[]]
    ensures WorkerFinished(s, worker, reactions) ==
            Deliver(scheduled, |s.delivered|, OutcomeOf(worker, s.runningOrigin), s.joined)
  {
    var before: State;
    before, scheduled := CompletionShape(s, worker, reactions);
    AnnouncedService(s, worker, before);
    var answered := SchedulerCompleted(before, OutcomeOf(worker, s.runningOrigin), reactions.draw);
    SchedulerAnswers(before, OutcomeOf(worker, s.runningOrigin), reactions.draw);
    ScheduledService(s, worker, before, answered, scheduled);
  }

  /** The whole effect of a completion, whatever is requested while it is announced and delivered. */
  lemma CompletionEffect(s: State, worker: Worker, reactions: Reactions)
    requires Inv(s) && s.running
    ensures var after := WorkerFinished(s, worker, reactions);
            && Mid(after) && Completed(s, worker, reactions.draw, after)
            && after.delivered == s.delivered + [Stamped(s.joined, OutcomeOf(worker, s.runningOrigin))]
  {
    var outcome, run := OutcomeOf(worker, s.runningOrigin), |s.delivered|;
    var scheduled := ScheduledEffect(s, worker, reactions);
    DeliverRunsEach(scheduled, run, outcome, s.joined);
    var after := Deliver(scheduled, run, outcome, s.joined);
    assert [] + Stamped(s.joined, outcome) == Stamped(s.joined, outcome);
    assert after.delivered == s.delivered + [Stamped(s.joined, outcome)];
    assert Fixed(after) == Fixed(scheduled.(delivered := after.delivered));
  }

  lemma CompletionInv(s: State, worker: Worker, reactions: Reactions)
    requires Inv(s) && s.pending == Some(worker)
    ensures Inv(WorkerFinished(s, worker, reactions))
  {
    var after, outcome := WorkerFinished(s, worker, reactions), OutcomeOf(worker, s.runningOrigin);
    CompletionEffect(s, worker, reactions);
    assert after.outcomes[..|s.outcomes|] == s.outcomes;
    forall r | 0 <= r < |after.outcomes|
      ensures after.delivered[r] == Stamped(after.accepted[r], after.outcomes[r])
    {
      assert after.accepted[..|s.accepted|][r] == s.accepted[r];
    }
    StatusAfterCompletion(s, worker, reactions);
  }

  lemma StatusAfterCompletion(s: State, worker: Worker, reactions: Reactions)
    requires Inv(s) && s.pending == Some(worker)
    ensures StatusAgrees(WorkerFinished(s, worker, reactions)) && StoreAgrees(WorkerFinished(s, worker, reactions))
  {
    var after, outcome := WorkerFinished(s, worker, reactions), OutcomeOf(worker, s.runningOrigin);
    CompletionEffect(s, worker, reactions);
    var status := CompletedStatus(s, worker, outcome);
    assert after.status == status.(checking := after.status.checking);
  }

  lemma StepInv(s: State, event: Event)
    requires Inv(s)
    ensures Inv(Step(s, event))
    ensures Step(s, event).capable == s.capable && Step(s, event).policy == s.policy
  {
    match event
    case Requested(request) => RequestInv(s, request);
    case TimerFires(time, wall, onStarted) =>
      if s.timer.Some? && s.timer.value <= time && s.time <= time {
        TickInv(s, time, wall, onStarted);
        var fired := s.(timer := None, time := time);
        assert Fixed(HandleRequest(fired, Request(Automatic, wall, None, onStarted))) == Fixed(fired);
      }
    case WorkerCompletes(worker) => WorkerInv(s, worker);
    case CompletionArrives(time, reactions) =>
      if s.pending.Some? && s.time <= time {
        ArrivalInv(s, time, reactions);
      }
  }

  lemma RequestInv(s: State, request: Request)
    requires Inv(s)
    ensures var after := HandleRequest(s, request);
            Inv(after) && after.capable == s.capable && after.policy == s.policy
  {
    RequestReacts(s, request);
    RequestsKeepInv(s, HandleRequest(s, request));
    assert Fixed(HandleRequest(s, request)) == Fixed(s);
  }

  lemma WorkerInv(s: State, worker: Worker)
    requires Inv(s)
    ensures var after := Step(s, WorkerCompletes(worker));
            Inv(after) && after.capable == s.capable && after.policy == s.policy
  {
  }

  lemma ArrivalInv(s: State, time: int, reactions: Reactions)
    requires Inv(s) && s.pending.Some? && s.time <= time
    ensures var after := WorkerFinished(s.(time := time), s.pending.value, reactions);
            Inv(after) && after.capable == s.capable && after.policy == s.policy
  {
    CompletionInv(s.(time := time), s.pending.value, reactions);
    CompletionEffect(s.(time := time), s.pending.value, reactions);
  }

  /** A tick starts a check or finds one running, so the schedule goes on without the timer. */
  lemma TickInv(s: State, time: int, wall: Time, onStarted: seq<Request>)
    requires Inv(s) && s.timer.Some?
    ensures var request := Request(Automatic, wall, None, onStarted);
            Inv(HandleRequest(s.(timer := None, time := time), request)) &&
            Fixed(HandleRequest(s.(timer := None, time := time), request)) == Fixed(s.(timer := None, time := time))
  {
    var fired, request := s.(timer := None, time := time), Request(Automatic, wall, None, onStarted);
    RequestReacts(fired, request);
    var after := HandleRequest(fired, request);
    if !s.running {
      BeginReacts(fired, [], Automatic, wall, onStarted);
    }
    assert after.running;
    RequestsKeepInv(s.(time := time), after.(timer := s.timer)) by {
      assert Fixed(after.(timer := s.timer)) == Fixed(after).(timer := s.timer);
    }
  }

  lemma StartInv(startup: Startup)
    requires ValidStartup(startup)
    ensures Inv(Start(startup))
    ensures Start(startup).capable == startup.capable && Start(startup).policy == startup.policy
    ensures Start(startup).lastGood == (if startup.readable then startup.stored else None)
    ensures Start(startup).published == startup.stored && Start(startup).pending.None?
  {
    RememberedService(startup);
    if startup.readable && startup.stored.Some? {
      AdoptionKeepsService(Remembered(startup), startup.stored.value, startup.onStatus, startup.onAdopted);
    }
  }

  lemma RememberedService(startup: Startup)
    requires ValidStartup(startup)
    ensures var s := Remembered(startup);
            && ServiceInv(s) && s.pending.None? && s.published == startup.stored && s.timer.None?
            && s.lastGood.None? && s.capable == startup.capable && s.policy == startup.policy
  {
    if startup.history.Some? {
      var history := startup.history.value;
      var told := Unstarted(startup).(lastCompleted := Some(history.completed), status := HistoryStatus(history));
      AllReact(told, startup.onHistory);
      RequestsKeepService(told, HandleAll(told, startup.onHistory));
      assert Fixed(HandleAll(told, startup.onHistory)) == Fixed(told);
    }
  }

  lemma AdoptionKeepsService(s: State, snapshot: CheckedSnapshot, onStatus: seq<Request>, onAdopted: seq<Request>)
    requires ServiceInv(s) && s.pending.None? && s.published == Some(snapshot) && s.timer.None?
    ensures var after := AdoptSnapshot(s, snapshot, onStatus, onAdopted);
            && ServiceInv(after) && after.timer.None? && after.capable == s.capable && after.policy == s.policy
            && after.lastGood == Some(snapshot) && after.published == s.published && after.pending.None?
  {
    var status := s.status.(fetchedAt := Some(snapshot.fetchedAt),
                            count := Some(CountShown(snapshot.snapshot.updates)));
    var adopted := s.(lastGood := Some(snapshot), status := status);
    AllReact(adopted, onStatus);
    var told := SetStatus(s.(lastGood := Some(snapshot)), status, onStatus);
    assert told == adopted || told == HandleAll(adopted, onStatus);
    if told != adopted {
      RequestsKeepService(adopted, told);
      assert Fixed(told) == Fixed(adopted);
    }
    AllReact(told, onAdopted);
    RequestsKeepService(told, HandleAll(told, onAdopted));
    assert Fixed(HandleAll(told, onAdopted)) == Fixed(told);
  }

  lemma {:induction false} RunInv(s: State, events: seq<Event>)
    requires Inv(s)
    ensures Inv(Run(s, events))
    ensures Run(s, events).capable == s.capable && Run(s, events).policy == s.policy
    decreases events
  {
    if events != [] {
      StepInv(s, events[0]);
      RunInv(Step(s, events[0]), events[1..]);
    }
  }

  // The properties, for every start and every run

  /**
   * At most one worker is out. Callbacks wait only while it runs; every callback accepted into a finished run has
   * been run exactly once, with that run's outcome, and no other callback has been run.
   */
  lemma JoinAccounting(startup: Startup, events: seq<Event>)
    requires ValidStartup(startup)
    ensures var s := Run(Start(startup), events);
            && s.workers <= 1 && (s.workers == 1 <==> s.running)
            && |s.accepted| == |s.outcomes| + s.workers && |s.delivered| == |s.outcomes|
            && (forall r | 0 <= r < |s.outcomes| :: s.delivered[r] == Stamped(s.accepted[r], s.outcomes[r]))
            && s.joined == (if s.running then s.accepted[|s.outcomes|] else [])
  {
    StartInv(startup);
    RunInv(Start(startup), events);
  }

  /** The backend cannot check, or no check runs and the cooldown has not passed. */
  predicate Rejected(s: State, request: Request) {
    !s.capable || (!s.running && CoolingDown(s, request))
  }

  /** A rejected request leaves no trace: every later run is as if it had not been made, so its callback never runs. */
  lemma RejectedForgotten(s: State, request: Request, events: seq<Event>)
    requires Rejected(s, request)
    ensures Run(s, [Requested(request)] + events) == Run(s, events)
  {
    var all := [Requested(request)] + events;
    assert all[0] == Requested(request) && all[1..] == events;
    assert Step(s, all[0]) == s;
  }

  /**
   * Nor does one that an observer or a callback makes: the others in its script find the same state, and so does
   * whatever comes after.
   */
  lemma {:induction false} RejectedInScript(s: State, before: seq<Request>, request: Request, after: seq<Request>)
    requires Rejected(HandleAll(s, before), request)
    ensures HandleAll(s, before + [request] + after) == HandleAll(s, before + after)
    decreases before
  {
    var all, others := before + [request] + after, before + after;
    if before == [] {
      assert all[0] == request && all[1..] == after == others;
    } else {
      assert all[0] == others[0] == before[0];
      assert all[1..] == before[1..] + [request] + after && others[1..] == before[1..] + after;
      RejectedInScript(HandleRequest(s, before[0]), before[1..], request, after);
    }
  }

  /** Started with a capable backend, there is always a check running or a timer that will start one. */
  lemma ScheduleNeverStalls(startup: Startup, events: seq<Event>)
    requires ValidStartup(startup) && startup.capable
    ensures var s := Run(Start(startup), events); s.running || s.timer.Some?
  {
    StartInv(startup);
    RunInv(Start(startup), events);
  }

  /** The counter that drives the backoff is the number of automatic failures since the last success of any kind. */
  lemma FailuresCounted(startup: Startup, events: seq<Event>)
    requires ValidStartup(startup)
    ensures Run(Start(startup), events).failures == FailuresSince(Run(Start(startup), events).outcomes)
  {
    StartInv(startup);
    RunInv(Start(startup), events);
  }

  /**
   * While no check runs, a last good snapshot is the one last saved, the status is derived from it and from the last
   * result, and its document reads back, cut to seconds, exactly when it is storable. ServiceStore says what the
   * directory then holds.
   */
  lemma ServiceAndStoreAgree(startup: Startup, events: seq<Event>)
    requires ValidStartup(startup)
    ensures var s := Run(Start(startup), events);
            && s.status.checking == s.running
            && (s.status.error.Some? <==> s.status.hasResult && !s.status.succeeded)
            && (!s.running && s.lastGood.Some? ==>
                  && s.published == s.lastGood
                  && s.status.fetchedAt == Some(s.lastGood.value.fetchedAt)
                  && s.status.count == Some(CountShown(s.lastGood.value.snapshot.updates))
                  && (|s.lastGood.value.snapshot.updates| <= 0x7FFF_FFFF ==>
                        (SnapshotOf(DocumentOf(s.published.value)) == Some(Persisted(s.lastGood.value)) <==>
                         Storable(s.lastGood.value))))
  {
    StartInv(startup);
    RunInv(Start(startup), events);
    var s := Run(Start(startup), events);
    if !s.running && s.lastGood.Some? && |s.lastGood.value.snapshot.updates| <= 0x7FFF_FFFF {
      RoundTrip(s.lastGood.value);
    }
  }

  /** A failed check, or one whose result could not be saved, leaves the snapshot, its count and its time alone. */
  lemma FailureKeepsSnapshot(s: State, worker: Worker, time: int, reactions: Reactions)
    requires Inv(s) && s.running && s.pending.None? && s.time <= time
    requires worker.result.Err? || !worker.saved
    ensures var finished := Step(Step(s, WorkerCompletes(worker)), CompletionArrives(time, reactions));
            && finished.lastGood == s.lastGood && finished.published == s.published
            && finished.status.fetchedAt == s.status.fetchedAt && finished.status.count == s.status.count
            && finished.outcomes == s.outcomes + [OutcomeOf(worker, s.runningOrigin)]
            && OutcomeOf(worker, s.runningOrigin).error ==
               Some(if worker.result.Err? then worker.result.error else Unknown)
  {
    var done := Step(s, WorkerCompletes(worker));
    StepInv(s, WorkerCompletes(worker));
    CompletionEffect(done.(time := time), worker, reactions);
    var finished := WorkerFinished(done.(time := time), worker, reactions);
    assert finished.status.(checking := false).fetchedAt == s.status.fetchedAt;
    assert finished.status.(checking := false).count == s.status.count;
  }

  /** No on-demand check starts within the cooldown after a completion; automatic checks are not held back. */
  lemma CooldownRespected(startup: Startup, events: seq<Event>)
    requires ValidStartup(startup)
    ensures forall start <- Run(Start(startup), events).starts ::
              start.origin.OnDemand? && start.previous.Some? ==>
                start.wall - start.previous.value >= startup.policy.onDemandCooldown * NANOS_PER_SECOND
  {
    StartInv(startup);
    RunInv(Start(startup), events);
  }
}
