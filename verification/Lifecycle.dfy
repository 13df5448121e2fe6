/**
 Start-up and shutdown of an application: one orchestrator goroutine and one serve goroutine per service, the
 application context, and a separate context per server. Every goroutine moves one operation at a time, in any
 interleaving; the environment may cancel the application context at any moment.
 */
module Lifecycle {

  /** Fixed facts about a service: whether it announces readiness and whether it is discoverable. */
  datatype Traits = Traits(notifies: bool, discoverable: bool)

  /** Program points of the orchestrator goroutine. */
  datatype Orchestrator =
    | NotSpawned
    | AwaitReady             // select on ready, app context, server context
    | Registering            // the loop over the registries
    | RollingBack            // a registration failed: stopping the earlier ones
    | AwaitStop              // select on app context, server context
    | Deregistering(crashed: bool)
    | Draining               // waiting out the drain delay
    | StopServing            // the explicit stopServe
    | Leaving                // the deferred stopServe
    | OrchDone               // the deferred wg.Done has run

  /** Program points of the serve goroutine, whose deferred calls run in reverse order. */
  datatype Server =
    | NotStarted
    | Serving                // inside srv.Start
    | Returned               // Start has returned; the deferred stopServe is next
    | Stopped                // the deferred appCancel is next
    | Cancelled              // wg.Done is next
    | ServeDone

  /**
   One service. `registered` lists the registries it registered with, in order (the `stops` list), `stopCalls` the
   registries whose stop function was called, in order, and `stages` everything its orchestrator has done, in order.
   */
  datatype Service = Service(
    orch: Orchestrator, server: Server, ctxDone: bool,
    registered: seq<nat>, stopCalls: seq<nat>, stages: seq<Stage>)

  /** What an orchestrator does that others can see. */
  datatype Stage =
    | SawReady               // the service announced readiness
    | Registered(k: nat)
    | Refused                // a registration failed
    | Deregistered(k: nat)
    | Drained                // the drain delay passed
    | StoppedServer          // the server's context was cancelled

  datatype MainLoop = Spawning | AwaitDone | AwaitGroup | AfterRun

  datatype App = App(main: MainLoop, spawned: nat, ctxDone: bool, services: seq<Service>)

  /** Configuration of a run: the services, the number of registries, and whether a drain delay is set. */
  datatype Config = Config(traits: seq<Traits>, registries: nat, drains: bool)

  datatype Step =
    | CancelApp                      // a signal or the caller cancels the application context
    | Spawn                          // startService for the next service
    | MainProceeds                   // the main goroutine passes its current wait
    | Ready(i: nat)
    | SeeApp(i: nat)                 // a select takes the application-context case
    | SeeServer(i: nat)              // a select takes the server-context case
    | RegisterOk(i: nat) | RegisterFail(i: nat) | RegistrationOver(i: nat)
    | StopOne(i: nat) | StopsOver(i: nat)
    | DrainOver(i: nat)
    | StopServe(i: nat) | Leave(i: nat)
    | StartReturns(i: nat) | ServerUnwinds(i: nat)

  function Initial(c: Config): App {
    App(Spawning, 0, false, seq(|c.traits|, _ => Service(NotSpawned, NotStarted, false, [], [], [])))
  }

  function AllFinished(a: App): bool {
    forall i :: 0 <= i < |a.services| ==> a.services[i].orch == OrchDone && a.services[i].server == ServeDone
  }

  /**
   The step of service `i`, if it is enabled: the service afterwards, and whether it cancels the application context.
   */
  function ServiceStep(c: Config, t: Traits, appDone: bool, s: Service, step: Step): (Service, bool) {
    match step
    case Ready(_) =>
      (if s.orch == AwaitReady then s.(orch := Registering, stages := s.stages + [SawReady]) else s, false)
    case SeeApp(_) =>
      (if !appDone then s
       else if s.orch == AwaitReady then s.(orch := Leaving)
       else if s.orch == AwaitStop then s.(orch := Deregistering(false))
       else s, false)
    case SeeServer(_) =>
      (if !s.ctxDone then s
       else if s.orch == AwaitReady then s.(orch := Leaving)
       else if s.orch == AwaitStop then s.(orch := Deregistering(true))
       else if s.orch == Draining then s.(orch := StopServing)
       else s, false)
    case RegisterOk(_) =>
      (if s.orch == Registering && t.discoverable && |s.registered| < c.registries
       then s.(registered := s.registered + [|s.registered|], stages := s.stages + [Registered(|s.registered|)])
       else s, false)
    case RegisterFail(_) =>
      (if s.orch == Registering && t.discoverable && |s.registered| < c.registries
       then s.(orch := RollingBack, stages := s.stages + [Refused]) else s, false)
    case RegistrationOver(_) =>
      (if s.orch == Registering && (!t.discoverable || |s.registered| == c.registries)
       then s.(orch := AwaitStop) else s, false)
    case StopOne(_) =>
      (if (s.orch == RollingBack || s.orch.Deregistering?) && |s.stopCalls| < |s.registered|
       then Deregister(s, s.registered[|s.stopCalls|]) else s, false)
    case StopsOver(_) =>
      (if |s.stopCalls| < |s.registered| then s
       else if s.orch == RollingBack || s.orch == Deregistering(true) then s.(orch := Leaving)
       else if s.orch == Deregistering(false) then
         s.(orch := if s.registered != [] && c.drains && !s.ctxDone then Draining else StopServing)
       else s, false)
    case DrainOver(_) =>
      (if s.orch == Draining then s.(orch := StopServing, stages := s.stages + [Drained]) else s, false)
    case StopServe(_) => (if s.orch == StopServing then StopServer(s, Leaving) else s, false)
    case Leave(_) => (if s.orch == Leaving then StopServer(s, OrchDone) else s, false)
    case StartReturns(_) => (if s.server == Serving then s.(server := Returned) else s, false)
    case ServerUnwinds(_) =>
      match s.server {
        case Returned => (s.(server := Stopped, ctxDone := true), false)
        case Stopped => (s.(server := Cancelled), true)
        case Cancelled => (s.(server := ServeDone), false)
        case _ => (s, false)
      }
    case _ => (s, false)
  }

  function Deregister(s: Service, k: nat): Service {
    s.(stopCalls := s.stopCalls + [k], stages := s.stages + [Deregistered(k)])
  }

  function StopServer(s: Service, next: Orchestrator): Service {
    s.(orch := next, ctxDone := true, stages := s.stages + [StoppedServer])
  }

  function Spawned(t: Traits, s: Service): Service {
    s.(orch := if t.notifies then AwaitReady else Registering, server := Serving)
  }

  /** One operation of one goroutine. A step whose guard does not hold leaves the state unchanged. */
  function Next(c: Config, a: App, step: Step): App
    requires |a.services| == |c.traits|
  {
    match step
    case CancelApp => a.(ctxDone := true)
    case Spawn =>
      if a.main != Spawning || a.spawned >= |a.services| then a else
        a.(spawned := a.spawned + 1,
           services := a.services[a.spawned := Spawned(c.traits[a.spawned], a.services[a.spawned])])
    case MainProceeds =>
      (match a.main
       case Spawning => if a.spawned >= |a.services| then a.(main := AwaitDone) else a
       case AwaitDone => if a.ctxDone then a.(main := AwaitGroup) else a
       case AwaitGroup => if AllFinished(a) then a.(main := AfterRun) else a
       case AfterRun => a)
    case _ =>
      if step.i >= |a.services| then a else
        var (s, cancels) := ServiceStep(c, c.traits[step.i], a.ctxDone, a.services[step.i], step);
        a.(services := a.services[step.i := s], ctxDone := a.ctxDone || cancels)
  }

  function Run(c: Config, steps: seq<Step>): (a: App)
    ensures |a.services| == |c.traits|
  {
    if steps == [] then Initial(c) else Next(c, Run(c, steps[..|steps| - 1]), steps[|steps| - 1])
  }

  // ---------- What every step keeps ----------

  /** Registrations whose stop function has not been called. */
  function Live(s: Service): nat {
    if |s.stopCalls| <= |s.registered| then |s.registered| - |s.stopCalls| else 0
  }

  /** Registrations are numbered in order, and stop calls follow them in order. */
  ghost predicate Books(c: Config, s: Service) {
    && |s.registered| <= c.registries
    && (forall k :: 0 <= k < |s.registered| ==> s.registered[k] == k)
    && s.stopCalls <= s.registered
  }

  /** What each program point of the orchestrator implies. */
  ghost predicate Phases(s: Service) {
    && (s.orch in {NotSpawned, AwaitReady, Registering, AwaitStop} ==> s.stopCalls == [])
    && (s.orch in {NotSpawned, AwaitReady} ==> s.registered == [])
    && (s.orch in {Draining, StopServing, Leaving, OrchDone} ==> s.stopCalls == s.registered)
    && (s.orch == NotSpawned <==> s.server == NotStarted)
    && (s.orch == OrchDone ==> s.ctxDone)
    // The server's context is cancelled by its own return, or by an orchestrator that has stopped every registration.
    && (s.ctxDone ==> s.server in {Stopped, Cancelled, ServeDone} || s.orch in {Leaving, OrchDone})
  }

  ghost predicate ServiceOk(c: Config, s: Service) {
    Books(c, s) && Phases(s)
  }

  lemma {:induction false} StepKeepsBooks(c: Config, t: Traits, appDone: bool, s: Service, step: Step)
    requires Books(c, s)
    ensures Books(c, ServiceStep(c, t, appDone, s, step).0)
  {
  }

  lemma {:induction false} StepKeepsPhases(c: Config, t: Traits, appDone: bool, s: Service, step: Step)
    requires s.stopCalls <= s.registered && Phases(s)
    ensures Phases(ServiceStep(c, t, appDone, s, step).0)
  {
  }

  lemma {:induction false} ServiceStepOk(c: Config, t: Traits, appDone: bool, s: Service, step: Step)
    requires ServiceOk(c, s)
    ensures ServiceOk(c, ServiceStep(c, t, appDone, s, step).0)
  {
    StepKeepsBooks(c, t, appDone, s, step);
    StepKeepsPhases(c, t, appDone, s, step);
  }

  ghost predicate Inv(c: Config, a: App) {
    && |a.services| == |c.traits|
    && a.spawned <= |a.services|
    && (a.main != Spawning ==> a.spawned == |a.services|)
    && (a.main == AfterRun ==> AllFinished(a))
    && forall i {:trigger a.services[i]} :: 0 <= i < |a.services| ==>
         ServiceOk(c, a.services[i]) && (a.services[i].orch == NotSpawned <==> i >= a.spawned)
  }

  /** Finished goroutines do nothing more. */
  lemma DoneIsFinal(c: Config, t: Traits, appDone: bool, s: Service, step: Step)
    ensures s.orch == OrchDone ==> ServiceStep(c, t, appDone, s, step).0.orch == OrchDone
    ensures s.server == ServeDone ==> ServiceStep(c, t, appDone, s, step).0.server == ServeDone
    ensures s.orch != NotSpawned <==> ServiceStep(c, t, appDone, s, step).0.orch != NotSpawned
  {
  }

  /** One service moves and the others stay. */
  lemma {:induction false} MoveKeeps(c: Config, a: App, i: nat, s: Service, done: bool)
    requires Inv(c, a) && i < |a.services| && ServiceOk(c, s)
    requires s.orch == NotSpawned <==> a.services[i].orch == NotSpawned
    requires a.services[i].orch == OrchDone ==> s.orch == OrchDone
    requires a.services[i].server == ServeDone ==> s.server == ServeDone
    ensures Inv(c, a.(services := a.services[i := s], ctxDone := done))
  {
  }

  lemma {:induction false} NextKeeps(c: Config, a: App, step: Step)
    requires Inv(c, a)
    ensures Inv(c, Next(c, a, step))
  {
    if !step.CancelApp? && !step.Spawn? && !step.MainProceeds? && step.i < |a.services| {
      ServiceStepOk(c, c.traits[step.i], a.ctxDone, a.services[step.i], step);
      DoneIsFinal(c, c.traits[step.i], a.ctxDone, a.services[step.i], step);
      var (s, cancels) := ServiceStep(c, c.traits[step.i], a.ctxDone, a.services[step.i], step);
      MoveKeeps(c, a, step.i, s, a.ctxDone || cancels);
    }
  }

  lemma {:induction false} RunKeeps(c: Config, steps: seq<Step>)
    ensures Inv(c, Run(c, steps))
  {
    if steps != [] {
      RunKeeps(c, steps[..|steps| - 1]);
      NextKeeps(c, Run(c, steps[..|steps| - 1]), steps[|steps| - 1]);
    }
  }

  // ---------- The promises ----------

  /**
   Deregister before stopping: in every interleaving, when a server's context is cancelled while one of its
   registrations is still live, that server's Start had already returned by itself.
   */
  lemma NeverStoppedWhileRegistered(c: Config, steps: seq<Step>, i: nat)
    requires i < |c.traits|
    ensures var s := Run(c, steps).services[i];
            s.ctxDone && Live(s) > 0 ==> s.server in {Stopped, Cancelled, ServeDone}
  {
    RunKeeps(c, steps);
  }

  /**
   Every successful Register is stopped exactly once: stop calls never repeat and never outrun registrations, and once
   the orchestrator is done (normal shutdown, crash, or rollback of a partial registration) none is missing.
   */
  lemma StoppedExactlyOnce(c: Config, steps: seq<Step>, i: nat)
    requires i < |c.traits|
    ensures var s := Run(c, steps).services[i];
            && s.stopCalls <= s.registered
            && (forall j, k :: 0 <= j < k < |s.stopCalls| ==> s.stopCalls[j] != s.stopCalls[k])
            && (s.orch == OrchDone ==> s.stopCalls == s.registered)
  {
    RunKeeps(c, steps);
    var s := Run(c, steps).services[i];
    forall j, k | 0 <= j < k < |s.stopCalls| ensures s.stopCalls[j] != s.stopCalls[k] {
      assert s.registered[j] == j && s.registered[k] == k;
    }
  }

  /** AfterRun hooks see no running goroutine, no live registration and no server context left open. */
  lemma AfterRunIsQuiet(c: Config, steps: seq<Step>)
    ensures var a := Run(c, steps);
            a.main == AfterRun ==>
              a.spawned == |c.traits| &&
              forall i :: 0 <= i < |c.traits| ==>
                var s := a.services[i];
                s.orch == OrchDone && s.server == ServeDone && s.ctxDone && Live(s) == 0
  {
    RunKeeps(c, steps);
  }

  // ---------- Order of the stages ----------

  function Rank(e: Stage): nat {
    match e
    case SawReady => 0
    case Registered(_) => 1
    case Refused => 2
    case Deregistered(_) => 3
    case Drained => 4
    case StoppedServer => 5
  }

  /** The latest stage an orchestrator can have reached at each of its points. */
  function Reached(o: Orchestrator): nat {
    match o
    case NotSpawned => 0
    case AwaitReady => 0
    case Registering => 1
    case AwaitStop => 1
    case RollingBack => 3
    case Deregistering(_) => 3
    case Draining => 3
    case StopServing => 4
    case Leaving => 5
    case OrchDone => 5
  }

  ghost predicate InStageOrder(es: seq<Stage>, last: nat) {
    && (forall i :: 0 <= i < |es| ==> Rank(es[i]) <= last)
    && forall i, j :: 0 <= i < j < |es| ==> Rank(es[i]) <= Rank(es[j])
  }

  lemma StageAdded(es: seq<Stage>, last: nat, e: Stage, next: nat)
    requires InStageOrder(es, last) && last <= Rank(e) <= next
    ensures InStageOrder(es + [e], next)
  {
  }

  lemma StageOrderGrows(es: seq<Stage>, last: nat, next: nat)
    requires InStageOrder(es, last) && last <= next
    ensures InStageOrder(es, next)
  {
  }

  /** The registries of one kind of event, in order. */
  function RegisteredIn(es: seq<Stage>): seq<nat> {
    if es == [] then [] else
      RegisteredIn(es[..|es| - 1]) + if es[|es| - 1].Registered? then [es[|es| - 1].k] else []
  }

  function DeregisteredIn(es: seq<Stage>): seq<nat> {
    if es == [] then [] else
      DeregisteredIn(es[..|es| - 1]) + if es[|es| - 1].Deregistered? then [es[|es| - 1].k] else []
  }

  lemma Projections(es: seq<Stage>, e: Stage)
    ensures RegisteredIn(es + [e]) == RegisteredIn(es) + if e.Registered? then [e.k] else []
    ensures DeregisteredIn(es + [e]) == DeregisteredIn(es) + if e.Deregistered? then [e.k] else []
  {
    assert (es + [e])[..|es|] == es;
  }

  ghost predicate Recorded(s: Service) {
    RegisteredIn(s.stages) == s.registered && DeregisteredIn(s.stages) == s.stopCalls
  }

  /** A service that announces readiness gets past that point only by doing so, or by leaving unregistered. */
  ghost predicate ReadyFirst(t: Traits, s: Service) {
    t.notifies && SawReady !in s.stages ==>
      s.registered == [] && s.orch in {NotSpawned, AwaitReady, Leaving, OrchDone}
  }

  /** While the server has not returned: what the orchestrator has done before it stops the server. */
  ghost predicate DrainedFirst(c: Config, s: Service) {
    && (s.orch == RollingBack ==> Refused in s.stages)
    && (s.orch == Deregistering(true) ==> s.ctxDone)
    && (s.server in {Serving, Returned} && s.orch in {StopServing, Leaving, OrchDone} ==>
          && (c.drains && s.registered != [] ==> Drained in s.stages || Refused in s.stages)
          && (s.ctxDone ==> StoppedServer in s.stages))
  }

  lemma {:induction false} StepInOrder(c: Config, t: Traits, appDone: bool, s: Service, step: Step)
    requires InStageOrder(s.stages, Reached(s.orch))
    ensures var s' := ServiceStep(c, t, appDone, s, step).0; InStageOrder(s'.stages, Reached(s'.orch))
  {
    var s' := ServiceStep(c, t, appDone, s, step).0;
    if s'.stages == s.stages {
      assert Reached(s.orch) <= Reached(s'.orch);
      StageOrderGrows(s.stages, Reached(s.orch), Reached(s'.orch));
    } else {
      var e := s'.stages[|s.stages|];
      assert s'.stages == s.stages + [e];
      assert Reached(s.orch) <= Rank(e) <= Reached(s'.orch);
      StageAdded(s.stages, Reached(s.orch), e, Reached(s'.orch));
    }
  }

  /** The second service is the first after one more stage. */
  ghost predicate Grown(s: Service, s': Service, e: Stage) {
    && s'.stages == s.stages + [e]
    && s'.registered == s.registered + (if e.Registered? then [e.k] else [])
    && s'.stopCalls == s.stopCalls + (if e.Deregistered? then [e.k] else [])
  }

  lemma {:induction false} StepGrows(c: Config, t: Traits, appDone: bool, s: Service, step: Step)
    ensures var s' := ServiceStep(c, t, appDone, s, step).0;
            if s'.stages == s.stages then s'.registered == s.registered && s'.stopCalls == s.stopCalls
            else |s'.stages| > |s.stages| && Grown(s, s', s'.stages[|s.stages|])
  {
  }

  lemma {:induction false} GrownRecords(s: Service, s': Service, e: Stage)
    requires Recorded(s) && Grown(s, s', e)
    ensures Recorded(s')
  {
    Projections(s.stages, e);
  }

  lemma {:induction false} StepRecords(c: Config, t: Traits, appDone: bool, s: Service, step: Step)
    requires Recorded(s)
    ensures Recorded(ServiceStep(c, t, appDone, s, step).0)
  {
    var s' := ServiceStep(c, t, appDone, s, step).0;
    StepGrows(c, t, appDone, s, step);
    if s'.stages != s.stages { GrownRecords(s, s', s'.stages[|s.stages|]); }
  }

  lemma {:induction false} StepReadyFirst(c: Config, t: Traits, appDone: bool, s: Service, step: Step)
    requires ServiceOk(c, s) && ReadyFirst(t, s)
    ensures ReadyFirst(t, ServiceStep(c, t, appDone, s, step).0)
  {
  }

  lemma {:induction false} StepDrainedFirst(c: Config, t: Traits, appDone: bool, s: Service, step: Step)
    requires ServiceOk(c, s) && DrainedFirst(c, s)
    ensures DrainedFirst(c, ServiceStep(c, t, appDone, s, step).0)
  {
  }

  ghost predicate Staged(c: Config, t: Traits, s: Service) {
    InStageOrder(s.stages, Reached(s.orch)) && Recorded(s) && ReadyFirst(t, s) && DrainedFirst(c, s)
  }

  lemma {:induction false} StepStaged(c: Config, t: Traits, appDone: bool, s: Service, step: Step)
    requires ServiceOk(c, s) && Staged(c, t, s)
    ensures Staged(c, t, ServiceStep(c, t, appDone, s, step).0)
  {
    StepInOrder(c, t, appDone, s, step);
    StepRecords(c, t, appDone, s, step);
    StepReadyFirst(c, t, appDone, s, step);
    StepDrainedFirst(c, t, appDone, s, step);
  }

  lemma {:induction false} RunStaged(c: Config, steps: seq<Step>, i: nat)
    requires i < |c.traits|
    ensures Staged(c, c.traits[i], Run(c, steps).services[i])
  {
    if steps != [] {
      var before, step := steps[..|steps| - 1], steps[|steps| - 1];
      var a := Run(c, before);
      RunStaged(c, before, i);
      RunKeeps(c, before);
      if !step.CancelApp? && !step.Spawn? && !step.MainProceeds? && step.i == i {
        StepStaged(c, c.traits[i], a.ctxDone, a.services[i], step);
      }
    }
  }

  /**
   The documented order, in every interleaving, over what really happened: readiness is seen before any registration,
   registrations end before the first deregistration, deregistrations before the drain ends, and the drain before the
   server is stopped. And no stage is skipped: a service that announces readiness is registered only after it did, and
   if the orchestrator stops a server whose Start has not returned, every registration was stopped, and drained for,
   unless a refused registration rolled the service back.
   */
  lemma StagesInOrder(c: Config, steps: seq<Step>, i: nat)
    requires i < |c.traits|
    ensures var s := Run(c, steps).services[i];
            && (forall j, k :: 0 <= j < k < |s.stages| ==> Rank(s.stages[j]) <= Rank(s.stages[k]))
            && RegisteredIn(s.stages) == s.registered && DeregisteredIn(s.stages) == s.stopCalls
            && (c.traits[i].notifies && s.registered != [] ==> SawReady in s.stages)
            && (s.ctxDone && s.server in {Serving, Returned} ==>
                  && StoppedServer in s.stages && s.stopCalls == s.registered
                  && (c.drains && s.registered != [] ==> Drained in s.stages || Refused in s.stages))
  {
    RunStaged(c, steps, i);
    RunKeeps(c, steps);
  }

  // ---------- Shutdown makes progress ----------

  /** Work left for the orchestrator of a service; every enabled move of it lowers this. */
  function Remaining(c: Config, s: Service): nat {
    var stops := if |s.stopCalls| <= |s.registered| then |s.registered| - |s.stopCalls| else 0;
    var regs := if |s.registered| <= c.registries then c.registries - |s.registered| else 0;
    match s.orch
    case NotSpawned => 2 * c.registries + 9
    case AwaitReady => 2 * c.registries + 8
    case Registering => 2 * regs + stops + 7
    case AwaitStop => stops + 6
    case RollingBack => stops + 5
    case Deregistering(_) => stops + 5
    case Draining => 3
    case StopServing => 2
    case Leaving => 1
    case OrchDone => 0
  }

  /**
   A move for the service that is not finished: its orchestrator's, else its server's, which Start's return sets going.
   */
  function ServiceMove(c: Config, t: Traits, s: Service, i: nat): Step {
    if s.orch == OrchDone then (if s.server == Serving then StartReturns(i) else ServerUnwinds(i)) else
      match s.orch
      case AwaitReady => SeeApp(i)
      case Registering =>
        if t.discoverable && |s.registered| < c.registries then RegisterFail(i) else RegistrationOver(i)
      case AwaitStop => SeeApp(i)
      case RollingBack => if |s.stopCalls| < |s.registered| then StopOne(i) else StopsOver(i)
      case Deregistering(_) => if |s.stopCalls| < |s.registered| then StopOne(i) else StopsOver(i)
      case Draining => DrainOver(i)
      case StopServing => StopServe(i)
      case _ => Leave(i)
  }

  /** Every move of an orchestrator, whoever makes the choice, lowers the work it has left. */
  lemma {:induction false} MovesLowerRemaining(c: Config, t: Traits, appDone: bool, s: Service, step: Step)
    requires ServiceOk(c, s)
    ensures var s' := ServiceStep(c, t, appDone, s, step).0;
            (s'.orch != s.orch || s'.registered != s.registered || s'.stopCalls != s.stopCalls) ==>
              Remaining(c, s') < Remaining(c, s)
  {
  }

  /** After the application context is cancelled, an orchestrator that is not done has a move that does something. */
  lemma {:induction false} MoveProgresses(c: Config, t: Traits, s: Service)
    requires ServiceOk(c, s) && s.orch != NotSpawned && s.orch != OrchDone
    ensures var s' := ServiceStep(c, t, true, s, ServiceMove(c, t, s, 0)).0;
            && ServiceOk(c, s') && s'.orch != NotSpawned
            && Remaining(c, s') < Remaining(c, s) && s.registered <= s'.registered
  {
    var move := ServiceMove(c, t, s, 0);
    ServiceStepOk(c, t, true, s, move);
    MovesLowerRemaining(c, t, true, s, move);
  }

  /**
   Once the application context is cancelled no orchestrator can be stuck: from any point it can be driven to its end,
   and it then leaves a cancelled server context and every registration stopped.
   */
  function DriveToEnd(c: Config, t: Traits, s: Service): (r: Service)
    requires ServiceOk(c, s) && s.orch != NotSpawned
    ensures r.orch == OrchDone && r.ctxDone && r.stopCalls == r.registered && s.registered <= r.registered
    decreases Remaining(c, s)
  {
    if s.orch == OrchDone then s else
      MoveProgresses(c, t, s);
      DriveToEnd(c, t, ServiceStep(c, t, true, s, ServiceMove(c, t, s, 0)).0)
  }

  // ---------- The whole application comes to its end ----------

  function ServerLeft(s: Server): nat {
    match s
    case NotStarted => 5
    case Serving => 4
    case Returned => 3
    case Stopped => 2
    case Cancelled => 1
    case ServeDone => 0
  }

  function MainLeft(m: MainLoop): nat {
    match m
    case Spawning => 3
    case AwaitDone => 2
    case AwaitGroup => 1
    case AfterRun => 0
  }

  function Work(c: Config, s: Service): nat {
    Remaining(c, s) + ServerLeft(s.server)
  }

  function WorkOfAll(c: Config, ss: seq<Service>): nat {
    if ss == [] then 0 else Work(c, ss[0]) + WorkOfAll(c, ss[1..])
  }

  /** Work left for all the goroutines of the application. */
  function TotalWork(c: Config, a: App): nat {
    MainLeft(a.main) + WorkOfAll(c, a.services)
  }

  lemma {:induction false} WorkAfter(c: Config, ss: seq<Service>, i: nat, s: Service)
    requires i < |ss|
    ensures WorkOfAll(c, ss[i := s]) == WorkOfAll(c, ss) - Work(c, ss[i]) + Work(c, s)
  {
    if i == 0 {
      assert ss[i := s][1..] == ss[1..];
    } else {
      assert ss[i := s][1..] == ss[1..][i - 1 := s];
      WorkAfter(c, ss[1..], i - 1, s);
    }
  }

  lemma {:induction false} ServiceStepLowers(c: Config, t: Traits, appDone: bool, s: Service, step: Step)
    requires ServiceOk(c, s)
    ensures var (s', cancels) := ServiceStep(c, t, appDone, s, step); Work(c, s') < Work(c, s) || (s' == s && !cancels)
  {
    MovesLowerRemaining(c, t, appDone, s, step);
  }

  lemma {:induction false} SpawnLowers(c: Config, t: Traits, s: Service)
    requires ServiceOk(c, s) && s.orch == NotSpawned
    ensures Work(c, Spawned(t, s)) < Work(c, s)
  {
  }

  /**
   No run can go on for ever: whoever moves, a step that does anything, other than cancelling the application, lowers
   the work left for all the goroutines together.
   */
  lemma {:induction false} StepLowersWork(c: Config, a: App, step: Step)
    requires Inv(c, a)
    ensures var a' := Next(c, a, step); a' == a || step.CancelApp? || TotalWork(c, a') < TotalWork(c, a)
  {
    if step.Spawn? {
      if a.main == Spawning && a.spawned < |a.services| {
        var t, s := c.traits[a.spawned], a.services[a.spawned];
        SpawnLowers(c, t, s);
        WorkAfter(c, a.services, a.spawned, Spawned(t, s));
      }
    } else if !step.CancelApp? && !step.MainProceeds? && step.i < |a.services| {
      var s := a.services[step.i];
      ServiceStepLowers(c, c.traits[step.i], a.ctxDone, s, step);
      var (s', cancels) := ServiceStep(c, c.traits[step.i], a.ctxDone, s, step);
      WorkAfter(c, a.services, step.i, s');
      assert s' == s ==> a.services[step.i := s'] == a.services;
    }
  }

  lemma {:induction false} ServiceCanMove(c: Config, t: Traits, s: Service, i: nat)
    requires ServiceOk(c, s) && s.orch != NotSpawned && !(s.orch == OrchDone && s.server == ServeDone)
    ensures ServiceStep(c, t, true, s, ServiceMove(c, t, s, i)).0 != s
  {
  }

  /** After cancellation, the application is never stuck before its AfterRun hooks. */
  lemma {:induction false} AppCanMove(c: Config, a: App) returns (step: Step)
    requires Inv(c, a) && a.ctxDone && a.main != AfterRun
    ensures Next(c, a, step) != a && Next(c, a, step).ctxDone && !step.CancelApp?
  {
    if a.main == Spawning && a.spawned < |a.services| {
      return Spawn;
    }
    if a.main != AwaitGroup || AllFinished(a) {
      return MainProceeds;
    }
    var i: nat :| i < |a.services| && !(a.services[i].orch == OrchDone && a.services[i].server == ServeDone);
    ServiceCanMove(c, c.traits[i], a.services[i], i);
    step := ServiceMove(c, c.traits[i], a.services[i], i);
    assert Next(c, a, step).services[i] != a.services[i];
  }

  /** More steps from a state. */
  function Continue(c: Config, a: App, steps: seq<Step>): (r: App)
    requires |a.services| == |c.traits|
    decreases |steps|
  {
    if steps == [] then a else Continue(c, Next(c, a, steps[0]), steps[1..])
  }

  lemma {:induction false} ContinueFirst(c: Config, a: App, step: Step, rest: seq<Step>)
    requires |a.services| == |c.traits|
    ensures Continue(c, a, [step] + rest) == Continue(c, Next(c, a, step), rest)
  {
    assert ([step] + rest)[1..] == rest;
  }

  lemma {:induction false} RunContinues(c: Config, steps: seq<Step>, more: seq<Step>)
    ensures Run(c, steps + more) == Continue(c, Run(c, steps), more)
    decreases |more|
  {
    if more == [] {
      assert steps + more == steps;
    } else {
      assert (steps + [more[0]])[..|steps|] == steps;
      assert steps + more == steps + [more[0]] + more[1..];
      RunContinues(c, steps + [more[0]], more[1..]);
    }
  }

  ghost predicate NoCancel(steps: seq<Step>) {
    forall i :: 0 <= i < |steps| ==> !steps[i].CancelApp?
  }

  lemma {:induction false} WorkEnds(c: Config, a: App) returns (more: seq<Step>)
    requires Inv(c, a) && a.ctxDone
    ensures Continue(c, a, more).main == AfterRun && NoCancel(more)
    decreases TotalWork(c, a)
  {
    more := [];
    if a.main != AfterRun {
      var step := AppCanMove(c, a);
      NextKeeps(c, a, step);
      StepLowersWork(c, a, step);
      var rest := WorkEnds(c, Next(c, a, step));
      ContinueFirst(c, a, step, rest);
      more := [step] + rest;
    }
  }

  /**
   Shutdown succeeds: from every reachable state in which the application context is cancelled, provided that every
   Start eventually returns, the application reaches its AfterRun hooks.
   */
  lemma AfterRunIsReached(c: Config, steps: seq<Step>) returns (more: seq<Step>)
    requires Run(c, steps).ctxDone
    ensures Run(c, steps + more).main == AfterRun && NoCancel(more)
  {
    RunKeeps(c, steps);
    more := WorkEnds(c, Run(c, steps));
    RunContinues(c, steps, more);
  }

  // ---------- What cancels the application ----------

  /** This service's serve goroutine has cancelled the application, as it does once Start has returned. */
  predicate HasCancelled(s: Service) {
    s.server == Cancelled || s.server == ServeDone
  }

  ghost predicate CancelledBySome(a: App) {
    exists i :: 0 <= i < |a.services| && HasCancelled(a.services[i])
  }

  /** The main goroutine passes its first wait only after the cancellation. */
  ghost predicate Waits(a: App) {
    a.main == AwaitGroup || a.main == AfterRun ==> a.ctxDone
  }

  lemma {:induction false} StepCancels(c: Config, t: Traits, appDone: bool, s: Service, step: Step)
    ensures var (s', cancels) := ServiceStep(c, t, appDone, s, step);
            && (HasCancelled(s) ==> HasCancelled(s')) && (HasCancelled(s') ==> HasCancelled(s) || cancels)
            && (cancels ==> HasCancelled(s'))
  {
  }

  /** Service `i` moved to `s`, and perhaps cancelled the application. */
  lemma {:induction false} MoveCancels(a: App, i: nat, s: Service, cancels: bool)
    requires i < |a.services| && (HasCancelled(a.services[i]) ==> HasCancelled(s))
    requires (HasCancelled(s) ==> HasCancelled(a.services[i]) || cancels) && (cancels ==> HasCancelled(s))
    ensures CancelledBySome(a.(services := a.services[i := s])) <==> CancelledBySome(a) || cancels
  {
    var ss := a.services[i := s];
    if CancelledBySome(a) {
      var j :| 0 <= j < |a.services| && HasCancelled(a.services[j]);
      assert HasCancelled(ss[j]);
    } else if HasCancelled(s) {
      assert HasCancelled(ss[i]);
    } else {
      assert forall j :: 0 <= j < |ss| ==> !HasCancelled(ss[j]);
    }
  }

  lemma {:induction false} NextCancels(c: Config, a: App, step: Step)
    requires Inv(c, a) && (CancelledBySome(a) ==> a.ctxDone) && Waits(a)
    ensures var a' := Next(c, a, step);
            && (a'.ctxDone <==> a.ctxDone || step.CancelApp? || CancelledBySome(a'))
            && (CancelledBySome(a) ==> CancelledBySome(a')) && Waits(a')
  {
    if step.Spawn? {
      if a.main == Spawning && a.spawned < |a.services| {
        MoveCancels(a, a.spawned, Spawned(c.traits[a.spawned], a.services[a.spawned]), false);
      }
    } else if !step.CancelApp? && !step.MainProceeds? && step.i < |a.services| {
      var (s, cancels) := ServiceStep(c, c.traits[step.i], a.ctxDone, a.services[step.i], step);
      StepCancels(c, c.traits[step.i], a.ctxDone, a.services[step.i], step);
      MoveCancels(a, step.i, s, cancels);
    }
  }

  /**
   What cancels the application, exactly, in every interleaving: it is cancelled if and only if someone outside did so
   or the serve goroutine of some service has come past its Start. And the main goroutine waits for that.
   */
  lemma {:induction false} CancelledIff(c: Config, steps: seq<Step>)
    ensures var a := Run(c, steps); a.ctxDone <==> CancelApp in steps || CancelledBySome(a)
    ensures Waits(Run(c, steps))
  {
    if steps != [] {
      var before, step := steps[..|steps| - 1], steps[|steps| - 1];
      assert steps == before + [step];
      CancelledIff(c, before);
      RunKeeps(c, before);
      NextCancels(c, Run(c, before), step);
    }
  }

  /** Its Start has returned. */
  predicate HasReturned(s: Service) {
    s.server == Returned || s.server == Stopped || s.server == Cancelled || s.server == ServeDone
  }

  lemma {:induction false} Unwind(c: Config, steps: seq<Step>, i: nat) returns (more: seq<Step>)
    requires i < |c.traits| && HasReturned(Run(c, steps).services[i])
    ensures Run(c, steps + more).ctxDone && NoCancel(more)
    decreases ServerLeft(Run(c, steps).services[i].server)
  {
    more := [];
    assert steps + [] == steps;
    var a := Run(c, steps);
    CancelledIff(c, steps);
    if a.services[i].server == Returned || a.services[i].server == Stopped {
      RunContinues(c, steps, [ServerUnwinds(i)]);
      assert [ServerUnwinds(i)] + [] == [ServerUnwinds(i)];
      ContinueFirst(c, a, ServerUnwinds(i), []);
      var rest := Unwind(c, steps + [ServerUnwinds(i)], i);
      more := [ServerUnwinds(i)] + rest;
      assert steps + more == steps + [ServerUnwinds(i)] + rest;
    } else {
      assert HasCancelled(a.services[i]);
    }
  }

  /**
   A server that returns by itself brings the application down: from every reachable state in which some Start has
   returned, without any cancellation from outside, the application reaches its AfterRun hooks, provided that every
   Start returns once its context is cancelled.
   */
  lemma {:induction false} CrashReachesAfterRun(c: Config, steps: seq<Step>, i: nat) returns (more: seq<Step>)
    requires i < |c.traits| && HasReturned(Run(c, steps).services[i])
    ensures Run(c, steps + more).main == AfterRun && NoCancel(more)
  {
    var first := Unwind(c, steps, i);
    var rest := AfterRunIsReached(c, steps + first);
    more := first + rest;
    assert steps + more == steps + first + rest;
  }

  // ---------- Registration and drain ----------

  /** Past registration a discoverable service is registered everywhere, and another nowhere; only notifiers wait. */
  ghost predicate Announced(c: Config, t: Traits, s: Service) {
    && (!t.discoverable ==> s.registered == [])
    && (s.orch in {AwaitStop, Draining, StopServing} || s.orch.Deregistering? ==>
          |s.registered| == if t.discoverable then c.registries else 0)
    && (!t.notifies ==> s.orch != AwaitReady)
  }

  lemma {:induction false} StepAnnounced(c: Config, t: Traits, appDone: bool, s: Service, step: Step)
    requires Announced(c, t, s)
    ensures Announced(c, t, ServiceStep(c, t, appDone, s, step).0)
  {
  }

  lemma {:induction false} RegisteredEverywhere(c: Config, steps: seq<Step>, i: nat)
    requires i < |c.traits|
    ensures Announced(c, c.traits[i], Run(c, steps).services[i])
  {
    if steps != [] {
      var before, step := steps[..|steps| - 1], steps[|steps| - 1];
      var a := Run(c, before);
      RegisteredEverywhere(c, before, i);
      RunKeeps(c, before);
      if !step.CancelApp? && !step.Spawn? && !step.MainProceeds? && step.i == i {
        StepAnnounced(c, c.traits[i], a.ctxDone, a.services[i], step);
      }
    }
  }

  /**
   When an orchestrator starts to drain, exactly: at the end of a normal deregistration, if a delay is set, the service
   had a registration, and its server has not been cancelled. So a crashed server is not drained for.
   */
  lemma {:induction false} DrainStartsIff(c: Config, t: Traits, appDone: bool, s: Service, step: Step)
    requires s.orch != Draining
    ensures ServiceStep(c, t, appDone, s, step).0.orch == Draining <==>
            && step.StopsOver? && s.orch == Deregistering(false) && |s.stopCalls| >= |s.registered|
            && s.registered != [] && c.drains && !s.ctxDone
  {
  }

  /**
   No wait outlives the server: once its context is cancelled, an orchestrator that waits for readiness, for the
   shutdown or for the end of the drain can go on at once, to where it deregisters what is registered and drains for
   nothing.
   */
  lemma {:induction false} WaitsEndWithServer(c: Config, t: Traits, appDone: bool, s: Service, i: nat)
    requires ServiceOk(c, s) && s.ctxDone && s.orch in {AwaitReady, AwaitStop, Draining}
    ensures var s' := ServiceStep(c, t, appDone, s, SeeServer(i)).0;
            && (s.orch == AwaitReady ==> s'.orch == Leaving && s'.registered == [])
            && (s.orch == AwaitStop ==> s'.orch == Deregistering(true))
            && (s.orch == Draining ==> s'.orch == StopServing && s'.stopCalls == s'.registered)
  {
  }

  // ---------- What cancels a server ----------

  ghost predicate CancelledWhy(s: Service) {
    s.ctxDone <==> s.server in {Stopped, Cancelled, ServeDone} || StoppedServer in s.stages
  }

  lemma {:induction false} StepCancelledWhy(c: Config, t: Traits, appDone: bool, s: Service, step: Step)
    requires CancelledWhy(s)
    ensures CancelledWhy(ServiceStep(c, t, appDone, s, step).0)
  {
  }

  /**
   What cancels a server's context, exactly, in every interleaving: its own serve goroutine after Start has returned, or
   its orchestrator stopping it; nothing else, the application's context included.
   */
  lemma {:induction false} ServerCancelledIff(c: Config, steps: seq<Step>, i: nat)
    requires i < |c.traits|
    ensures CancelledWhy(Run(c, steps).services[i])
  {
    if steps != [] {
      var before, step := steps[..|steps| - 1], steps[|steps| - 1];
      var a := Run(c, before);
      ServerCancelledIff(c, before, i);
      RunKeeps(c, before);
      if !step.CancelApp? && !step.Spawn? && !step.MainProceeds? && step.i == i {
        StepCancelledWhy(c, c.traits[i], a.ctxDone, a.services[i], step);
      }
    }
  }
}
