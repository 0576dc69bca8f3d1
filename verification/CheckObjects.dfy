/**
 * The check service and the scheduler as the objects they are: fields updated in place by methods. Every method is
 * proved to take the abstract state exactly where CheckProtocol says.
 */
module CheckObjects {
  import opened Wrappers
  import opened Domain
  import opened SnapshotJson
  import opened Policy
  import P = CheckProtocol
  import Properties = CheckProperties

  type Request = P.Request

  class UpdateCheckScheduler {
    const policy: UpdateCheckPolicy
    /** When the one-shot timer is due, if it is active. */
    var timer: Option<int>
    var consecutiveFailures: nat
    /** Milliseconds on the timer's clock. */
    var time: int

    constructor (policy: UpdateCheckPolicy, time: int)
      ensures this.policy == policy && timer == None && consecutiveFailures == 0 && this.time == time
    {
      this.policy := policy;
      timer := None;
      consecutiveFailures := 0;
      this.time := time;
    }

    method Start(capable: bool)
      modifies this`timer
      ensures timer == if capable then Some(time + policy.startupDelay * 1000) else old(timer)
    {
      if !capable {
        return;
      }
      timer := Some(time + policy.startupDelay * 1000);
    }

    method Arm(failures: nat, draw: int)
      modifies this`timer
      ensures timer == Some(time + NextAutomaticDelay(policy, failures, draw))
    {
      timer := Some(time + NextAutomaticDelay(policy, failures, draw));
    }

    method OnCheckCompleted(outcome: P.Outcome, draw: int)
      modifies this`timer, this`consecutiveFailures
      ensures forall s: P.State |
                s.timer == old(timer) && s.failures == old(consecutiveFailures) && s.time == time &&
                s.policy == policy ::
                P.SchedulerCompleted(s, outcome, draw) == s.(timer := timer, failures := consecutiveFailures)
    {
      if outcome.origin.Automatic? {
        consecutiveFailures := if outcome.succeeded then 0 else consecutiveFailures + 1;
        Arm(consecutiveFailures, draw);
        return;
      }
      if outcome.succeeded {
        consecutiveFailures := 0;
        Arm(0, draw);
      } else if timer.None? {
        Arm(consecutiveFailures, draw);
      }
    }
  }

  class UpdateCheckService {
    const policy: UpdateCheckPolicy
    const capable: bool
    const scheduler: UpdateCheckScheduler

    var status: P.Status
    var lastGood: Option<CheckedSnapshot>
    var joined: seq<P.Callback>
    var lastCompleted: Option<Time>
    var runningOrigin: P.CheckOrigin
    var running: bool

    // The worker pool and the store.
    var workers: nat
    var pending: Option<P.Worker>
    var published: Option<CheckedSnapshot>

    // What has happened.
    ghost var accepted: seq<seq<P.Callback>>
    ghost var delivered: seq<seq<(P.Callback, P.Outcome)>>
    ghost var outcomes: seq<P.Outcome>
    ghost var starts: seq<P.Started>

    ghost function Abs(): P.State
      reads this, scheduler
    {
      P.State(policy, capable, status, lastGood, joined, lastCompleted, runningOrigin, running, workers, pending,
              published, scheduler.timer, scheduler.consecutiveFailures, scheduler.time, accepted, delivered, outcomes,
              starts)
    }

    ghost predicate Wired()
      reads this, scheduler
    {
      scheduler.policy == policy
    }

    constructor (scheduler: UpdateCheckScheduler, capable: bool, published: Option<CheckedSnapshot>)
      ensures this.scheduler == scheduler && this.capable == capable && policy == scheduler.policy && Wired()
      ensures Abs() == P.State(scheduler.policy, capable, P.NO_STATUS, None, [], None, P.Automatic, false, 0, None,
                               published, scheduler.timer, scheduler.consecutiveFailures, scheduler.time, [], [], [],
                               [])
    {
      this.policy := scheduler.policy;
      this.capable := capable;
      this.scheduler := scheduler;
      status := P.NO_STATUS;
      lastGood := None;
      joined := [];
      lastCompleted := None;
      runningOrigin := P.Automatic;
      running := false;
      workers := 0;
      pending := None;
      this.published := published;
      accepted := [];
      delivered := [];
      outcomes := [];
      starts := [];
    }

    /** Restores the saved result of the last check and the saved snapshot. */
    method Start(startup: P.Startup)
      requires Wired() && Abs() == P.Unstarted(startup)
      modifies this
      ensures Abs() == P.ServiceStart(startup)
    {
      if startup.history.Some? {
        var history := startup.history.value;
        var updated := status.(hasResult := true, lastCheckTime := history.completed,
                               succeeded := history.succeeded, error := history.error);
        lastCompleted := Some(history.completed);
        SetStatus(updated, startup.onHistory);
      }
      assert Abs() == P.Remembered(startup);
      if startup.readable && startup.stored.Some? {
        AdoptSnapshot(startup.stored.value, startup.onStatus, startup.onAdopted);
      }
    }

    method AdoptSnapshot(snapshot: CheckedSnapshot, onStatus: seq<Request>, onAdopted: seq<Request>)
      modifies this
      ensures Abs() == P.AdoptSnapshot(old(Abs()), snapshot, onStatus, onAdopted)
    {
      lastGood := Some(snapshot);
      var updated := status.(fetchedAt := Some(snapshot.fetchedAt),
                             count := Some(CountShown(snapshot.snapshot.updates)));
      SetStatus(updated, onStatus);
      Observe(onAdopted);
    }

    method HandleRequest(request: Request)
      modifies this
      ensures Abs() == P.HandleRequest(old(Abs()), request)
      ensures delivered == old(delivered)
      decreases request
    {
      if !capable {
        return;
      }
      if running {
        if request.onDone.Some? {
          joined := joined + [request.onDone.value];
          accepted := if accepted == [] then []
                      else accepted[|accepted| - 1 := accepted[|accepted| - 1] + [request.onDone.value]];
        }
        return;
      }
      if request.origin.OnDemand? && lastCompleted.Some? &&
         request.wall - lastCompleted.value < policy.onDemandCooldown * NANOS_PER_SECOND {
        return;
      }
      ghost var callbacks := if request.onDone.Some? then [request.onDone.value] else [];
      if request.onDone.Some? {
        joined := joined + [request.onDone.value];
      }
      assert joined == old(joined) + callbacks;
      BeginCheck(request.origin, request.wall, request.onStarted);
      SplitCallbacks(old(Abs()), callbacks, request.origin, request.wall, request.onStarted);
    }

    /** The observers told of the new status run before the worker is started. */
    method BeginCheck(origin: P.CheckOrigin, wall: Time, onStarted: seq<Request>)
      modifies this
      ensures Abs() == P.BeginCheck(old(Abs()), [], origin, wall, onStarted)
      ensures delivered == old(delivered)
      decreases onStarted, 2
    {
      assert joined + [] == joined;
      running := true;
      runningOrigin := origin;
      accepted := accepted + [joined];
      starts := starts + [P.Started(origin, wall, lastCompleted)];
      ghost var begun := Abs();
      assert begun == old(Abs()).(joined := joined + [], running := true, runningOrigin := origin,
                                  accepted := accepted, starts := starts);
      SetStatus(status.(checking := true), onStarted);
      workers := workers + 1;
    }

    method SetStatus(updated: P.Status, observers: seq<Request>)
      modifies this
      ensures Abs() == P.SetStatus(old(Abs()), updated, observers)
      ensures delivered == old(delivered)
      decreases observers, 1
    {
      if updated == status {
        return;
      }
      status := updated;
      Observe(observers);
    }

    /** Emits a signal: its observers make these requests before the emission returns. */
    method Observe(requests: seq<Request>)
      modifies this
      ensures Abs() == P.HandleAll(old(Abs()), requests)
      ensures delivered == old(delivered)
      decreases requests, 0
    {
      var i := 0;
      while i < |requests|
        invariant i <= |requests|
        invariant delivered == old(delivered)
        invariant P.HandleAll(Abs(), requests[i..]) == P.HandleAll(old(Abs()), requests)
      {
        assert requests[i..][1..] == requests[i + 1..];
        HandleRequest(requests[i]);
        i := i + 1;
      }
    }

    /** The worker thread ends: a successful result has been saved, or saving it failed. */
    method WorkerCompletes(worker: P.Worker)
      modifies this`pending, this`published
      ensures Abs() == P.Step(old(Abs()), P.WorkerCompletes(worker))
    {
      if workers > 0 && pending.None? {
        pending := Some(worker);
        if worker.result.Ok? && worker.saved {
          published := Some(CheckedSnapshot(worker.result.value, worker.completedAt));
        }
      }
    }

    method OnWorkerFinished(worker: P.Worker, reactions: P.Reactions)
      requires Wired()
      modifies this, scheduler`timer, scheduler`consecutiveFailures
      ensures Abs() == P.WorkerFinished(old(Abs()), worker, reactions)
    {
      var waiting := joined;
      ghost var run := |delivered|;
      var outcome, updated := Record(worker);
      SetStatus(updated, reactions.onStatus);
      if outcome.succeeded {
        Observe(reactions.onAdopted);
      }
      EmitCompleted(outcome, reactions);
      RunCallbacks(waiting, outcome, run);
    }

    /** Takes the result in before anyone is told of it. */
    method Record(worker: P.Worker) returns (outcome: P.Outcome, updated: P.Status)
      modifies this
      ensures Abs() == P.Recorded(old(Abs()), worker)
      ensures outcome == P.OutcomeOf(worker, old(runningOrigin))
      ensures updated == P.CompletedStatus(old(Abs()), worker, outcome)
    {
      var before := status;
      outcome := P.OutcomeOf(worker, runningOrigin);
      if outcome.succeeded {
        lastGood := Some(CheckedSnapshot(worker.result.value, worker.completedAt));
      }
      Finish(outcome);
      updated := before.(checking := false, hasResult := true, succeeded := outcome.succeeded,
                         error := outcome.error, lastCheckTime := worker.completedAt);
      if outcome.succeeded {
        updated := updated.(fetchedAt := Some(worker.completedAt),
                            count := Some(CountShown(worker.result.value.updates)));
      }
    }

    /** Ends the run: whoever asks from now on starts another. */
    method Finish(outcome: P.Outcome)
      modifies this
      ensures var s := old(Abs());
              Abs() == s.(joined := [], running := false, pending := None,
                          workers := if s.workers > 0 then s.workers - 1 else 0,
                          lastCompleted := Some(outcome.completedAt), outcomes := s.outcomes + [outcome],
                          delivered := s.delivered + [[]])
    {
      joined := [];
      running := false;
      pending := None;
      workers := if workers > 0 then workers - 1 else 0;
      lastCompleted := Some(outcome.completedAt);
      outcomes := outcomes + [outcome];
      delivered := delivered + [[]];
    }

    /** The scheduler is one of the observers of a completed check. */
    method EmitCompleted(outcome: P.Outcome, reactions: P.Reactions)
      requires Wired()
      modifies this, scheduler`timer, scheduler`consecutiveFailures
      ensures Abs() ==
              P.HandleAll(P.SchedulerCompleted(P.HandleAll(old(Abs()), reactions.beforeScheduler), outcome,
                                               reactions.draw),
                          reactions.afterScheduler)
      ensures delivered == old(delivered)
    {
      Observe(reactions.beforeScheduler);
      ghost var before := Abs();
      scheduler.OnCheckCompleted(outcome, reactions.draw);
      assert Abs() == P.SchedulerCompleted(before, outcome, reactions.draw);
      Observe(reactions.afterScheduler);
    }

    method RunCallbacks(waiting: seq<P.Callback>, outcome: P.Outcome, ghost run: nat)
      requires run < |delivered|
      modifies this
      ensures Abs() == P.Deliver(old(Abs()), run, outcome, waiting)
    {
      for i := 0 to |waiting|
        invariant run < |delivered|
        invariant P.Deliver(Abs(), run, outcome, waiting[i..]) == P.Deliver(old(Abs()), run, outcome, waiting)
      {
        assert waiting[i..][1..] == waiting[i + 1..];
        delivered := delivered[run := delivered[run] + [(waiting[i], outcome)]];
        Observe(waiting[i].reentry);
      }
    }

    /** The timer fires: it is spent before the service is asked. */
    method Fire(time: int, wall: Time, onStarted: seq<Request>)
      requires scheduler.timer.Some? && scheduler.timer.value <= time && scheduler.time <= time
      modifies this, scheduler
      ensures Abs() == P.Step(old(Abs()), P.TimerFires(time, wall, onStarted))
    {
      scheduler.timer := None;
      scheduler.time := time;
      HandleRequest(P.Request(P.Automatic, wall, None, onStarted));
    }

    method CompletionArrives(time: int, reactions: P.Reactions)
      requires Wired() && pending.Some? && scheduler.time <= time
      modifies this, scheduler
      ensures Abs() == P.Step(old(Abs()), P.CompletionArrives(time, reactions))
    {
      scheduler.time := time;
      OnWorkerFinished(pending.value, reactions);
    }
  }

  lemma SplitCallbacks(s: P.State, callbacks: seq<P.Callback>, origin: P.CheckOrigin, wall: Time,
                       onStarted: seq<Request>)
    ensures P.BeginCheck(s.(joined := s.joined + callbacks), [], origin, wall, onStarted) ==
            P.BeginCheck(s, callbacks, origin, wall, onStarted)
  {
    assert s.joined + callbacks + [] == s.joined + callbacks;
  }

  /** Sets up a service and its scheduler and starts them. */
  method Launch(startup: P.Startup) returns (service: UpdateCheckService)
    requires P.ValidStartup(startup)
    ensures fresh(service) && fresh(service.scheduler) && service.Wired()
    ensures service.Abs() == P.Start(startup)
  {
    var scheduler := new UpdateCheckScheduler(startup.policy, startup.time);
    service := new UpdateCheckService(scheduler, startup.capable, startup.stored);
    service.Start(startup);
    service.scheduler.Start(service.capable);
    assert service.Abs() == P.Start(startup) by {
      Properties.StartInv(startup);
    }
  }

  method Handle(service: UpdateCheckService, event: P.Event)
    requires service.Wired()
    modifies service, service.scheduler
    ensures service.Wired() && service.Abs() == P.Step(old(service.Abs()), event)
  {
    match event
    case Requested(request) => service.HandleRequest(request);
    case TimerFires(time, wall, onStarted) =>
      if service.scheduler.timer.Some? && service.scheduler.timer.value <= time && service.scheduler.time <= time {
        service.Fire(time, wall, onStarted);
      }
    case WorkerCompletes(worker) => service.WorkerCompletes(worker);
    case CompletionArrives(time, reactions) =>
      if service.pending.Some? && service.scheduler.time <= time {
        service.CompletionArrives(time, reactions);
      }
  }

  /** A service and its scheduler, started and driven by any events, are where the protocol says. */
  method Drive(startup: P.Startup, events: seq<P.Event>) returns (service: UpdateCheckService)
    requires P.ValidStartup(startup)
    ensures service.Abs() == P.Run(P.Start(startup), events)
    ensures Properties.Inv(service.Abs())
  {
    service := Launch(startup);
    for i := 0 to |events|
      invariant fresh(service) && fresh(service.scheduler) && service.Wired()
      invariant P.Run(service.Abs(), events[i..]) == P.Run(P.Start(startup), events)
    {
      assert events[i..][1..] == events[i + 1..];
      Handle(service, events[i]);
    }
    Properties.StartInv(startup);
    Properties.RunInv(P.Start(startup), events);
  }
}
