/**
 Startup and shutdown of the API pods around one singleton lease, as a state machine: any number of
 pods, any interleaving of their steps, any step failing, any process dying at any point.
 A step is one await or start call of the lifespan function.
 */
module Lifespan {
  import opened Options

  datatype Worker = Scheduler | Bootstrap | Engine | AlertMonitor | GapReplay

  /** The workers shutdown stops. */
  const STOPPED_WORKERS: set<Worker> := {Scheduler, Engine, AlertMonitor, GapReplay}

  const ALL_WORKERS: set<Worker> := STOPPED_WORKERS + {Bootstrap}

  /** What the deployment offers: a PostgreSQL advisory lock behind the lease (other databases grant
      it to everyone), whether the two stop calls whose exceptions are swallowed always work, and whether
      the token bootstrap is scheduled at startup. */
  datatype Deployment = Deployment(postgres: bool, tasksStop: bool, engineStops: bool, bootstrap: bool)

  datatype Mode = Test | Safe | Normal | Quarantine

  datatype Phase =
    | Down
    | TestServing
    | AskLease | Preflight
    | SafeStartup | SafeServing
    | ApiStartup | ApiServing
    | Initialise | FatalCleanup
    | StartScheduler | StartBootstrap | StartEngine | StartMonitor | StartReplay | OpenStores
    | Serving
    | StopTasks | StopScheduler | StopEngine | ReleaseLease
    | Exiting

  /** `lease` is the pod's own record that it acquired the lease and has not released it. */
  datatype Pod = Pod(phase: Phase, mode: Mode, lease: bool, running: set<Worker>)

  const DOWN_POD := Pod(Down, Normal, false, {})

  /** The pods, and the pod whose session holds the advisory lock. */
  datatype World = World(pods: seq<Pod>, holder: Option<nat>)

  datatype Action =
    | Launch(mode: Mode)      // a new process enters lifespan
    | Proceed(ok: bool)       // the next step of lifespan succeeds or raises
    | Shutdown                // the server is asked to stop
    | Finish(worker: Worker)  // a worker ends by itself
    | Die                     // the process ends: its tasks stop and its connections close

  function Initial(n: nat): World {
    World(seq(n, _ => DOWN_POD), None)
  }

  function Started(p: Pod, worker: Worker, ok: bool, next: Phase): Pod {
    if p.mode == Quarantine || !ok then p.(phase := next)
    else p.(phase := next, running := p.running + {worker})
  }

  /** One step of lifespan that does not touch the lease. */
  function ProceedPod(d: Deployment, p: Pod, ok: bool): Pod {
    match p.phase
    case Preflight =>
      p.(phase := if !ok then Exiting
                  else if p.mode == Safe then SafeStartup
                  else if !p.lease then ApiStartup else Initialise)
    case SafeStartup => p.(phase := if ok then SafeServing else Exiting)
    case ApiStartup => p.(phase := if ok then ApiServing else Exiting)
    case Initialise => p.(phase := if ok then StartScheduler else FatalCleanup)
    case StartScheduler =>
      if p.mode != Quarantine && !ok then p.(phase := Exiting) else Started(p, Scheduler, ok, StartBootstrap)
    case StartBootstrap => Started(p, Bootstrap, ok && d.bootstrap, StartEngine)
    case StartEngine => Started(p, Engine, ok, StartMonitor)
    case StartMonitor => Started(p, AlertMonitor, ok, StartReplay)
    case StartReplay => Started(p, GapReplay, ok, OpenStores)
    case OpenStores => p.(phase := if ok then Serving else Exiting)
    case StopTasks =>
      p.(phase := StopScheduler,
         running := if ok || d.tasksStop then p.running - {AlertMonitor, GapReplay} else p.running)
    case StopScheduler =>
      if Scheduler !in p.running then p.(phase := StopEngine)
      else if ok then p.(phase := StopEngine, running := p.running - {Scheduler})
      else p.(phase := Exiting)
    case StopEngine =>
      p.(phase := ReleaseLease, running := if ok || d.engineStops then p.running - {Engine} else p.running)
    case _ => p
  }

  function Freed(holder: Option<nat>, i: nat): Option<nat> {
    if holder == Some(i) then None else holder
  }

  /** One step of pod i: its new state, and the new holder of the lock. */
  function PodAct(d: Deployment, p: Pod, holder: Option<nat>, i: nat, a: Action): (Pod, Option<nat>) {
    match a
    case Launch(mode) =>
      (if p.phase == Down then Pod(if mode == Test then TestServing else AskLease, mode, false, {}) else p, holder)
    case Shutdown =>
      (if p.phase == Serving then p.(phase := StopTasks)
       else if p.phase in {SafeServing, ApiServing, TestServing} then p.(phase := Exiting)
       else p, holder)
    case Finish(worker) => (p.(running := p.running - {worker}), holder)
    case Die => (DOWN_POD, Freed(holder, i))
    case Proceed(ok) =>
      match p.phase
      case AskLease =>
        if !ok then (p.(phase := Exiting), holder)
        else
          var granted := !d.postgres || holder == None;
          (p.(phase := Preflight, lease := granted), if d.postgres && granted then Some(i) else holder)
      case FatalCleanup =>
        if ok then (p.(phase := Exiting, lease := false), Freed(holder, i)) else (p.(phase := Exiting), holder)
      case ReleaseLease =>
        if ok then (p.(phase := Exiting, lease := false), Freed(holder, i)) else (p.(phase := Exiting), holder)
      case _ => (ProceedPod(d, p, ok), holder)
  }

  function Act(d: Deployment, w: World, i: nat, a: Action): World {
    if i >= |w.pods| then w
    else
      var (p, holder) := PodAct(d, w.pods[i], w.holder, i, a);
      World(w.pods[i := p], holder)
  }

  datatype Event = Event(pod: nat, action: Action)

  function Run(d: Deployment, w: World, trace: seq<Event>): World {
    if trace == [] then w
    else
      var before := Run(d, w, trace[..|trace| - 1]);
      Act(d, before, trace[|trace| - 1].pod, trace[|trace| - 1].action)
  }

  /** At most one pod runs any of these workers. */
  predicate AtMostOne(w: World, workers: set<Worker>) {
    forall i, j :: 0 <= i < j < |w.pods| ==> w.pods[i].running * workers == {} || w.pods[j].running * workers == {}
  }

  ghost predicate Singleton(d: Deployment, workers: set<Worker>) {
    forall n: nat, trace: seq<Event> :: AtMostOne(Run(d, Initial(n), trace), workers)
  }

  // ---------------------------------------------------------------- the invariant

  predicate Dependable(d: Deployment) {
    d.postgres && d.tasksStop && d.engineStops
  }

  const WITHOUT_WORKERS: set<Phase> := {
    Down, TestServing, AskLease, Preflight, SafeStartup, SafeServing, ApiStartup, ApiServing, Initialise, FatalCleanup
  }

  /** What may still run in each phase of a pod of a dependable deployment. */
  predicate PodInvariant(d: Deployment, p: Pod) {
    && (p.running * STOPPED_WORKERS != {} ==> p.lease)
    && (p.phase in {StartScheduler, StartBootstrap, StartEngine, StartMonitor, StartReplay} ==> p.lease)
    && (p.phase == Initialise ==> p.lease)
    && (p.phase in WITHOUT_WORKERS ==> p.running == {})
    && (p.phase in {StopScheduler, StopEngine, ReleaseLease} ==> p.running * {AlertMonitor, GapReplay} == {})
    && (p.phase in {StopEngine, ReleaseLease} ==> Scheduler !in p.running)
    && (p.phase == ReleaseLease ==> Engine !in p.running)
    && (p.phase in {Down, TestServing, AskLease} ==> !p.lease)
    && (!d.bootstrap ==> Bootstrap !in p.running)
  }

  predicate Invariant(d: Deployment, w: World) {
    && (forall i :: 0 <= i < |w.pods| ==> PodInvariant(d, w.pods[i]))
    && (forall i :: 0 <= i < |w.pods| ==> (w.pods[i].lease <==> w.holder == Some(i)))
  }

  lemma ProceedKeepsPod(d: Deployment, p: Pod, ok: bool)
    requires Dependable(d) && PodInvariant(d, p)
    ensures var p' := ProceedPod(d, p, ok);
            p'.lease == p.lease && (p.phase !in {AskLease, FatalCleanup, ReleaseLease} ==> PodInvariant(d, p'))
  {}

  /** A step keeps its pod's invariant and its record of the lease, and takes the lock from no other pod. */
  lemma PodActKeepsPod(d: Deployment, p: Pod, holder: Option<nat>, i: nat, a: Action)
    requires Dependable(d) && PodInvariant(d, p) && (p.lease <==> holder == Some(i))
    ensures var (p', holder') := PodAct(d, p, holder, i, a);
            && PodInvariant(d, p') && (p'.lease <==> holder' == Some(i))
            && forall j: nat :: j != i ==> (holder' == Some(j) <==> holder == Some(j))
  {
    if a.Proceed? {
      ProceedKeepsPod(d, p, a.ok);
    }
    hide ProceedPod;
  }

  lemma ActKeepsInvariant(d: Deployment, w: World, i: nat, a: Action)
    requires Dependable(d) && Invariant(d, w)
    ensures Invariant(d, Act(d, w, i, a))
  {
    if i < |w.pods| {
      PodActKeepsPod(d, w.pods[i], w.holder, i, a);
      hide PodAct, PodInvariant;
    }
  }

  lemma {:induction false} RunKeepsInvariant(d: Deployment, n: nat, trace: seq<Event>)
    requires Dependable(d)
    ensures Invariant(d, Run(d, Initial(n), trace))
  {
    if trace != [] {
      RunKeepsInvariant(d, n, trace[..|trace| - 1]);
      hide Invariant;
      ActKeepsInvariant(d, Run(d, Initial(n), trace[..|trace| - 1]), trace[|trace| - 1].pod, trace[|trace| - 1].action);
    }
  }

  lemma InvariantExcludes(d: Deployment, w: World)
    requires Invariant(d, w)
    ensures AtMostOne(w, STOPPED_WORKERS) && (!d.bootstrap ==> AtMostOne(w, ALL_WORKERS))
  {
    forall i, j | 0 <= i < j < |w.pods|
      ensures w.pods[i].running * STOPPED_WORKERS == {} || w.pods[j].running * STOPPED_WORKERS == {}
      ensures !d.bootstrap ==> w.pods[i].running * ALL_WORKERS == {} || w.pods[j].running * ALL_WORKERS == {}
    {
      assert PodInvariant(d, w.pods[i]) && PodInvariant(d, w.pods[j]);
      if !d.bootstrap {
        assert w.pods[i].running * ALL_WORKERS == w.pods[i].running * STOPPED_WORKERS;
        assert w.pods[j].running * ALL_WORKERS == w.pods[j].running * STOPPED_WORKERS;
      }
    }
  }

  lemma DependableIsSingleton(d: Deployment)
    requires Dependable(d)
    ensures Singleton(d, STOPPED_WORKERS) && (!d.bootstrap ==> Singleton(d, ALL_WORKERS))
  {
    forall n: nat, trace: seq<Event>
      ensures AtMostOne(Run(d, Initial(n), trace), STOPPED_WORKERS)
      ensures !d.bootstrap ==> AtMostOne(Run(d, Initial(n), trace), ALL_WORKERS)
    {
      RunKeepsInvariant(d, n, trace);
      InvariantExcludes(d, Run(d, Initial(n), trace));
    }
  }

  // ---------------------------------------------------------------- every condition is needed

  ghost predicate Reachable(d: Deployment, n: nat, w: World) {
    exists trace: seq<Event> :: Run(d, Initial(n), trace) == w
  }

  /** Moves one pod while the others stand still. */
  lemma Move(d: Deployment, n: nat, pods: seq<Pod>, i: nat, p: Pod, holder: Option<nat>, a: Action, p': Pod, holder': Option<nat>)
    requires i < |pods| && Reachable(d, n, World(pods[i := p], holder))
    requires PodAct(d, p, holder, i, a) == (p', holder')
    ensures Reachable(d, n, World(pods[i := p'], holder'))
  {
    hide PodAct;
    var w := World(pods[i := p], holder);
    var trace :| Run(d, Initial(n), trace) == w;
    var longer := trace + [Event(i, a)];
    assert longer[..|longer| - 1] == trace;
    assert pods[i := p][i := p'] == pods[i := p'];
    assert Run(d, Initial(n), longer) == Act(d, w, i, a);
  }

  function Workers(d: Deployment): set<Worker> {
    if d.bootstrap then ALL_WORKERS else STOPPED_WORKERS
  }

  lemma StartsBackground(d: Deployment, n: nat, pods: seq<Pod>, i: nat, h: Option<nat>, running: set<Worker>)
    requires i < |pods| && Reachable(d, n, World(pods[i := Pod(StartEngine, Normal, true, running)], h))
    ensures Reachable(d, n, World(pods[i := Pod(Serving, Normal, true, running + {Engine} + {AlertMonitor} + {GapReplay})], h))
  {
    hide Reachable;
    var p2, p3 := Pod(StartEngine, Normal, true, running), Pod(StartMonitor, Normal, true, running + {Engine});
    var p4 := Pod(StartReplay, Normal, true, running + {Engine} + {AlertMonitor});
    var p5 := Pod(OpenStores, Normal, true, running + {Engine} + {AlertMonitor} + {GapReplay});
    Move(d, n, pods, i, p2, h, Proceed(true), p3, h);
    Move(d, n, pods, i, p3, h, Proceed(true), p4, h);
    Move(d, n, pods, i, p4, h, Proceed(true), p5, h);
    Move(d, n, pods, i, p5, h, Proceed(true), p5.(phase := Serving), h);
  }

  lemma StartsWorkers(d: Deployment, n: nat, pods: seq<Pod>, i: nat, h: Option<nat>)
    requires i < |pods| && Reachable(d, n, World(pods[i := Pod(StartScheduler, Normal, true, {})], h))
    ensures Reachable(d, n, World(pods[i := Pod(Serving, Normal, true, Workers(d))], h))
  {
    hide Reachable;
    var none: set<Worker> := {};
    var r1 := none + {Scheduler};
    var r2 := if d.bootstrap then r1 + {Bootstrap} else r1;
    var p1, p2 := Pod(StartBootstrap, Normal, true, r1), Pod(StartEngine, Normal, true, r2);
    Move(d, n, pods, i, Pod(StartScheduler, Normal, true, none), h, Proceed(true), p1, h);
    Move(d, n, pods, i, p1, h, Proceed(true), p2, h);
    StartsBackground(d, n, pods, i, h, r2);
    assert r2 + {Engine} + {AlertMonitor} + {GapReplay} == Workers(d);
  }

  /** A pod that is granted the lease can come up with all its workers. */
  lemma ComesUp(d: Deployment, n: nat, pods: seq<Pod>, i: nat, holder: Option<nat>)
    requires i < |pods| && pods[i] == DOWN_POD && Reachable(d, n, World(pods, holder))
    requires !d.postgres || holder == None
    ensures var holder' := if d.postgres then Some(i) else holder;
            Reachable(d, n, World(pods[i := Pod(Serving, Normal, true, Workers(d))], holder'))
  {
    hide Reachable, Workers;
    var h := if d.postgres then Some(i) else holder;
    var p1, p2 := Pod(AskLease, Normal, false, {}), Pod(Preflight, Normal, true, {});
    var p3, p4 := Pod(Initialise, Normal, true, {}), Pod(StartScheduler, Normal, true, {});
    assert pods[i := DOWN_POD] == pods;
    Move(d, n, pods, i, DOWN_POD, holder, Launch(Normal), p1, holder);
    Move(d, n, pods, i, p1, holder, Proceed(true), p2, h);
    Move(d, n, pods, i, p2, h, Proceed(true), p3, h);
    Move(d, n, pods, i, p3, h, Proceed(true), p4, h);
    StartsWorkers(d, n, pods, i, h);
  }

  /** What a full shutdown leaves running when the unreliable stop calls fail. */
  function LeftOver(d: Deployment): set<Worker> {
    AfterEngine(d, AfterTasks(d, Workers(d)) - {Scheduler})
  }

  function AfterTasks(d: Deployment, running: set<Worker>): set<Worker> {
    if d.tasksStop then running - {AlertMonitor, GapReplay} else running
  }

  function AfterEngine(d: Deployment, running: set<Worker>): set<Worker> {
    if d.engineStops then running - {Engine} else running
  }

  lemma StopsFirstHalf(d: Deployment, n: nat, pods: seq<Pod>, i: nat, h: Option<nat>)
    requires i < |pods| && Reachable(d, n, World(pods[i := Pod(Serving, Normal, true, Workers(d))], h))
    ensures Reachable(d, n, World(pods[i := Pod(StopScheduler, Normal, true, AfterTasks(d, Workers(d)))], h))
  {
    hide Reachable, Workers;
    var up := Workers(d);
    var p1, p2 := Pod(StopTasks, Normal, true, up), Pod(StopScheduler, Normal, true, AfterTasks(d, up));
    Move(d, n, pods, i, Pod(Serving, Normal, true, up), h, Shutdown, p1, h);
    Move(d, n, pods, i, p1, h, Proceed(false), p2, h);
  }

  lemma StopsSecondHalf(d: Deployment, n: nat, pods: seq<Pod>, i: nat, h: Option<nat>, running: set<Worker>)
    requires i < |pods| && Reachable(d, n, World(pods[i := Pod(StopEngine, Normal, true, running)], h))
    ensures Reachable(d, n, World(pods[i := Pod(Exiting, Normal, false, AfterEngine(d, running))], Freed(h, i)))
  {
    hide Reachable;
    var p4 := Pod(ReleaseLease, Normal, true, AfterEngine(d, running));
    Move(d, n, pods, i, Pod(StopEngine, Normal, true, running), h, Proceed(false), p4, h);
    Move(d, n, pods, i, p4, h, Proceed(true), Pod(Exiting, Normal, false, AfterEngine(d, running)), Freed(h, i));
  }

  /** A serving pod can shut down, free the lock, and leave these workers running. */
  lemma ShutsDown(d: Deployment, n: nat, pods: seq<Pod>, i: nat, h: Option<nat>)
    requires i < |pods| && Reachable(d, n, World(pods[i := Pod(Serving, Normal, true, Workers(d))], h))
    ensures Reachable(d, n, World(pods[i := Pod(Exiting, Normal, false, LeftOver(d))], Freed(h, i)))
  {
    StopsFirstHalf(d, n, pods, i, h);
    var running := AfterTasks(d, Workers(d));
    assert Scheduler in running;
    hide Reachable, Workers, AfterTasks;
    Move(d, n, pods, i, Pod(StopScheduler, Normal, true, running), h, Proceed(true),
         Pod(StopEngine, Normal, true, running - {Scheduler}), h);
    StopsSecondHalf(d, n, pods, i, h, running - {Scheduler});
  }

  lemma TwoPodsAtOnce(d: Deployment, workers: set<Worker>)
    requires workers * Workers(d) != {}
    requires !d.postgres || LeftOver(d) * workers != {}
    ensures !Singleton(d, workers)
  {
    var start := Initial(2);
    assert Run(d, start, []) == start;
    assert Reachable(d, 2, start);
    ComesUp(d, 2, start.pods, 0, None);
    var serving := Pod(Serving, Normal, true, Workers(d));
    var first := serving;
    var holder: Option<nat> := if d.postgres then Some(0) else None;
    if d.postgres {
      ShutsDown(d, 2, start.pods, 0, holder);
      first := Pod(Exiting, Normal, false, LeftOver(d));
      holder := None;
    }
    var one := start.pods[0 := first];
    ComesUp(d, 2, one, 1, holder);
    var two := World(one[1 := serving], if d.postgres then Some(1) else holder);
    var trace :| Run(d, Initial(2), trace) == two;
    assert two.pods[0].running == first.running && two.pods[1].running == Workers(d);
    var x :| x in first.running * workers;
    assert x in first.running * workers && x in Workers(d) * workers;
    assert !AtMostOne(Run(d, Initial(2), trace), workers);
  }

  /** The four workers that shutdown stops are singletons, over any pods and interleavings, if and only
      if the lock is a PostgreSQL one and both swallowed stop calls always work. */
  lemma SingletonCondition(d: Deployment)
    ensures Singleton(d, STOPPED_WORKERS) <==> Dependable(d)
  {
    if Dependable(d) {
      DependableIsSingleton(d);
    } else {
      assert Scheduler in STOPPED_WORKERS * Workers(d);
      if d.postgres {
        assert AlertMonitor in LeftOver(d) * STOPPED_WORKERS || Engine in LeftOver(d) * STOPPED_WORKERS;
      }
      TwoPodsAtOnce(d, STOPPED_WORKERS);
    }
  }

  /** The token bootstrap is started with them but no shutdown step stops it: counting it too, exclusion
      holds if and only if it is switched off as well. */
  lemma SingletonConditionWithBootstrap(d: Deployment)
    ensures Singleton(d, ALL_WORKERS) <==> Dependable(d) && !d.bootstrap
  {
    if Dependable(d) && !d.bootstrap {
      DependableIsSingleton(d);
    } else {
      assert Scheduler in ALL_WORKERS * Workers(d);
      if d.postgres {
        assert AlertMonitor in LeftOver(d) * ALL_WORKERS || Engine in LeftOver(d) * ALL_WORKERS
            || Bootstrap in LeftOver(d) * ALL_WORKERS;
      }
      TwoPodsAtOnce(d, ALL_WORKERS);
    }
  }

  // ---------------------------------------------------------------- a safe-mode pod keeps the lease

  /** A pod in safe mode that was granted the lease. */
  predicate SafeHolder(w: World, i: nat) {
    && i < |w.pods| && w.holder == Some(i) && w.pods[i].lease && w.pods[i].mode == Safe
    && w.pods[i].phase in {Preflight, SafeStartup, SafeServing, Exiting}
  }

  /** Until that process dies it keeps the lease, through its own shutdown too, and no other pod
      runs a stopped worker: safe mode starts no workers and lets nobody else start them. */
  lemma {:induction false} SafeModeBlocksWorkers(d: Deployment, w: World, i: nat, trace: seq<Event>)
    requires Dependable(d) && Invariant(d, w) && SafeHolder(w, i)
    requires forall k :: 0 <= k < |trace| ==> trace[k] != Event(i, Die)
    ensures var w' := Run(d, w, trace);
            && Invariant(d, w') && SafeHolder(w', i)
            && forall j :: 0 <= j < |w'.pods| && j != i ==> w'.pods[j].running * STOPPED_WORKERS == {}
  {
    if trace != [] {
      var before := trace[..|trace| - 1];
      var e := trace[|trace| - 1];
      assert forall k :: 0 <= k < |before| ==> before[k] == trace[k];
      SafeModeBlocksWorkers(d, w, i, before);
      ActKeepsInvariant(d, Run(d, w, before), e.pod, e.action);
      SafeHolderStays(d, Run(d, w, before), i, e);
    }
  }

  lemma SafeHolderStays(d: Deployment, w: World, i: nat, e: Event)
    requires Dependable(d) && Invariant(d, w) && SafeHolder(w, i) && e != Event(i, Die)
    ensures SafeHolder(Act(d, w, e.pod, e.action), i)
  {}
}
