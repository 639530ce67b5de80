/**
 What the mode of a pod and the lease gate decide, in every deployment: which pods ever run workers,
 what a startup and a shutdown come to for every combination of failing steps, and that the lease is
 handed on.
 */
module LifespanModes {
  import opened Options
  import opened Lifespan

  const API_PHASES: set<Phase> := {ApiStartup, ApiServing}

  const WORKER_PHASES: set<Phase> := {
    Initialise, FatalCleanup, StartScheduler, StartBootstrap, StartEngine, StartMonitor, StartReplay, OpenStores,
    Serving, StopTasks, StopScheduler, StopEngine, ReleaseLease
  }

  /** A pod in test, safe or quarantine mode runs no worker; only normal and quarantine pods with the
      lease get past the lease gate, and only those without it serve the API alone. */
  predicate ModeKept(p: Pod) {
    && (p.mode in {Test, Safe, Quarantine} ==> p.running == {})
    && (p.phase == TestServing <==> p.mode == Test && p.phase != Exiting)
    && (p.phase in {SafeStartup, SafeServing} ==> p.mode == Safe)
    && (p.phase in API_PHASES ==> p.mode in {Normal, Quarantine} && !p.lease && p.running == {})
    && (p.phase in WORKER_PHASES ==> p.mode in {Normal, Quarantine} && p.lease)
    && (p.running != {} ==> p.phase in WORKER_PHASES + {Exiting})
    && (p.phase in {Initialise, FatalCleanup} ==> p.running == {})
  }

  predicate AllKept(w: World) {
    forall i :: 0 <= i < |w.pods| ==> ModeKept(w.pods[i])
  }

  lemma ProceedKeepsMode(d: Deployment, p: Pod, ok: bool)
    requires ModeKept(p)
    ensures p.phase !in {AskLease, FatalCleanup, ReleaseLease} ==> ModeKept(ProceedPod(d, p, ok))
  {}

  lemma ActKeepsMode(d: Deployment, p: Pod, holder: Option<nat>, i: nat, a: Action)
    requires ModeKept(p)
    ensures ModeKept(PodAct(d, p, holder, i, a).0)
  {
    if a.Proceed? {
      ProceedKeepsMode(d, p, a.ok);
    }
    hide ProceedPod;
  }

  /** In every reachable state of every deployment, dependable or not. */
  lemma {:induction false} ModesKept(d: Deployment, n: nat, trace: seq<Event>)
    ensures AllKept(Run(d, Initial(n), trace))
  {
    if trace == [] {
      assert ModeKept(DOWN_POD);
    } else {
      var before, e := Run(d, Initial(n), trace[..|trace| - 1]), trace[|trace| - 1];
      ModesKept(d, n, trace[..|trace| - 1]);
      if e.pod < |before.pods| {
        ActKeepsMode(d, before.pods[e.pod], before.holder, e.pod, e.action);
        hide PodAct, ModeKept;
      }
    }
  }

  // ---------------------------------------------------------------- startup and shutdown

  /** The next steps of one pod, succeeding or failing as listed, while the others stand still. */
  function Steps(d: Deployment, p: Pod, holder: Option<nat>, i: nat, oks: seq<bool>): (Pod, Option<nat>)
    decreases |oks|
  {
    if oks == [] then (p, holder)
    else
      var (next, h) := PodAct(d, p, holder, i, Proceed(oks[0]));
      Steps(d, next, h, i, oks[1..])
  }

  lemma {:induction false} ExitingStays(d: Deployment, p: Pod, holder: Option<nat>, i: nat, oks: seq<bool>)
    requires p.phase == Exiting
    ensures Steps(d, p, holder, i, oks) == (p, holder)
    decreases |oks|
  {
    if oks != [] {
      ExitingStays(d, p, holder, i, oks[1..]);
    }
  }

  function Only(wanted: bool, worker: Worker): set<Worker> {
    if wanted then {worker} else {}
  }

  lemma FirstStep(d: Deployment, p: Pod, holder: Option<nat>, i: nat, oks: seq<bool>, q: Pod, h: Option<nat>)
    requires oks != [] && PodAct(d, p, holder, i, Proceed(oks[0])) == (q, h)
    ensures Steps(d, p, holder, i, oks) == Steps(d, q, h, i, oks[1..])
  {
    hide PodAct;
  }

  /** The steps of the startup, in order, and the workers they start. */
  function StartPhase(k: nat): Phase {
    match k
    case 0 => StartScheduler
    case 1 => StartBootstrap
    case 2 => StartEngine
    case 3 => StartMonitor
    case 4 => StartReplay
    case _ => OpenStores
  }

  function StartWorker(k: nat): Worker {
    match k
    case 0 => Scheduler
    case 1 => Bootstrap
    case 2 => Engine
    case 3 => AlertMonitor
    case _ => GapReplay
  }

  /** Whether the k-th start puts its worker to work. */
  predicate StartsOne(d: Deployment, mode: Mode, k: nat, ok: bool) {
    mode != Quarantine && ok && (k == 1 ==> d.bootstrap)
  }

  lemma StartOne(d: Deployment, p: Pod, holder: Option<nat>, i: nat, k: nat, ok: bool)
    requires k < 5 && p.phase == StartPhase(k) && (k == 0 ==> p.mode == Quarantine || ok)
    ensures PodAct(d, p, holder, i, Proceed(ok)) ==
            (Pod(StartPhase(k + 1), p.mode, p.lease, p.running + Only(StartsOne(d, p.mode, k, ok), StartWorker(k))), holder)
  {
    assert p.running + {} == p.running;
  }

  /** The workers started by the starts from k on. */
  function StartedFrom(d: Deployment, mode: Mode, k: nat, oks: seq<bool>): set<Worker>
    requires k <= 5 && |oks| == 6 - k
    decreases |oks|
  {
    if k == 5 then {} else Only(StartsOne(d, mode, k, oks[0]), StartWorker(k)) + StartedFrom(d, mode, k + 1, oks[1..])
  }

  lemma {:induction false} StartAll(d: Deployment, p: Pod, holder: Option<nat>, i: nat, k: nat, oks: seq<bool>)
    requires k <= 5 && |oks| == 6 - k && p.phase == StartPhase(k) && (k == 0 ==> p.mode == Quarantine || oks[0])
    ensures Steps(d, p, holder, i, oks) ==
            (Pod(if oks[5 - k] then Serving else Exiting, p.mode, p.lease, p.running + StartedFrom(d, p.mode, k, oks)), holder)
    decreases |oks|
  {
    StartedNext(d, p.mode, k, oks);
    if k == 5 {
      LastStart(d, p, holder, i, oks);
    } else {
      StartOne(d, p, holder, i, k, oks[0]);
      hide PodAct, StartsOne, StartPhase, StartWorker, StartedFrom, Steps;
      var q := Pod(StartPhase(k + 1), p.mode, p.lease, p.running + Only(StartsOne(d, p.mode, k, oks[0]), StartWorker(k)));
      FirstStep(d, p, holder, i, oks, q, holder);
      StartAll(d, q, holder, i, k + 1, oks[1..]);
      hide Only;
      assert q.running + StartedFrom(d, p.mode, k + 1, oks[1..]) == p.running + StartedFrom(d, p.mode, k, oks);
      assert oks[1..][5 - (k + 1)] == oks[5 - k];
    }
  }

  lemma LastStart(d: Deployment, p: Pod, holder: Option<nat>, i: nat, oks: seq<bool>)
    requires |oks| == 1 && p.phase == OpenStores
    ensures Steps(d, p, holder, i, oks) == (Pod(if oks[0] then Serving else Exiting, p.mode, p.lease, p.running + {}), holder)
  {
    assert p.running + {} == p.running;
    FirstStep(d, p, holder, i, oks, p.(phase := if oks[0] then Serving else Exiting), holder);
    assert oks[1..] == [];
  }

  lemma StartedNext(d: Deployment, mode: Mode, k: nat, oks: seq<bool>)
    requires k <= 5 && |oks| == 6 - k
    ensures StartedFrom(d, mode, k, oks) ==
            if k == 5 then {} else Only(StartsOne(d, mode, k, oks[0]), StartWorker(k)) + StartedFrom(d, mode, k + 1, oks[1..])
  {}

  /** The lease as a pod finds it: granted to everyone unless the database is PostgreSQL. */
  predicate Granted(d: Deployment, holder: Option<nat>) {
    d.postgres ==> holder == None
  }

  /** Where a pod stands after the lease gate, its checks and the first step of its mode: a test pod
      serves at once; an exception on the way ends the startup, with the lease if it was granted by
      then; safe mode comes before the lease gate; a pod without the lease serves the API alone. */
  function GatePhase(mode: Mode, granted: bool, oks: seq<bool>): Phase
    requires |oks| == 3
  {
    if mode == Test then TestServing
    else if !oks[0] || !oks[1] then Exiting
    else if mode == Safe then if oks[2] then SafeServing else Exiting
    else if !granted then if oks[2] then ApiServing else Exiting
    else if oks[2] then StartScheduler else FatalCleanup
  }

  lemma GateOutcome(d: Deployment, holder: Option<nat>, i: nat, mode: Mode, oks: seq<bool>)
    requires |oks| == 3
    ensures var (p, h) := PodAct(d, DOWN_POD, holder, i, Launch(mode));
            var (q, h') := Steps(d, p, h, i, oks);
            var granted := Granted(d, holder) && mode != Test && oks[0];
            && q == Pod(GatePhase(mode, granted, oks), mode, granted, {})
            && h' == if d.postgres && granted then Some(i) else holder
  {
    var (p, h) := PodAct(d, DOWN_POD, holder, i, Launch(mode));
    if mode == Test {
      TestStays(d, p, h, i, oks);
    } else {
      var (p1, h1) := PodAct(d, p, h, i, Proceed(oks[0]));
      FirstStep(d, p, h, i, oks, p1, h1);
      AfterLease(d, p1, h1, i, oks[1..]);
    }
  }

  lemma AfterLease(d: Deployment, p: Pod, holder: Option<nat>, i: nat, oks: seq<bool>)
    requires p.phase in {Preflight, Exiting} && p.mode != Test && |oks| == 2
    ensures Steps(d, p, holder, i, oks) ==
            (p.(phase := if p.phase == Exiting then Exiting else GatePhase(p.mode, p.lease, [true] + oks)), holder)
  {
    if p.phase == Exiting {
      ExitingStays(d, p, holder, i, oks);
    } else {
      var (p2, h2) := PodAct(d, p, holder, i, Proceed(oks[0]));
      FirstStep(d, p, holder, i, oks, p2, h2);
      var (p3, h3) := PodAct(d, p2, h2, i, Proceed(oks[1]));
      FirstStep(d, p2, h2, i, oks[1..], p3, h3);
      assert oks[1..][1..] == [];
    }
  }

  lemma {:induction false} TestStays(d: Deployment, p: Pod, holder: Option<nat>, i: nat, oks: seq<bool>)
    requires p.phase == TestServing
    ensures Steps(d, p, holder, i, oks) == (p, holder)
    decreases |oks|
  {
    if oks != [] {
      TestStays(d, p, holder, i, oks[1..]);
    }
  }

  /** Besides its steps: a worker that ends by itself no longer runs, a dead process leaves nothing
      running and frees the lock, and a shutdown takes every serving pod out of service, at once if it
      has no workers to stop. */
  lemma OtherEvents(d: Deployment, p: Pod, holder: Option<nat>, i: nat, worker: Worker)
    requires ModeKept(p)
    ensures var (q, h) := PodAct(d, p, holder, i, Finish(worker));
            && h == holder && q.phase == p.phase && q.lease == p.lease
            && forall w :: w in q.running <==> w in p.running && w != worker
    ensures var (q, h) := PodAct(d, p, holder, i, Die);
            q.phase == Down && !q.lease && q.running == {} && h == if holder == Some(i) then None else holder
    ensures var (q, h) := PodAct(d, p, holder, i, Shutdown);
            && h == holder && q.lease == p.lease && q.running == p.running
            && q.phase !in {Serving, SafeServing, ApiServing, TestServing}
            && (p.phase in {SafeServing, ApiServing, TestServing} ==> q.phase == Exiting && q.running == {})
            && (p.phase !in {Serving, SafeServing, ApiServing, TestServing} ==> q == p)
  {}

  /** A startup past its initialisation: quarantine starts nothing whatever happens; otherwise a failing
      scheduler is fatal, and every other worker runs exactly if its own start worked. */
  lemma StartupOutcome(d: Deployment, p: Pod, holder: Option<nat>, i: nat, oks: seq<bool>)
    requires p.phase == StartScheduler && p.running == {} && |oks| == 6
    ensures var (q, h) := Steps(d, p, holder, i, oks);
            && h == holder && q.lease == p.lease && q.mode == p.mode
            && (p.mode == Quarantine ==> q.running == {} && q.phase == if oks[5] then Serving else Exiting)
            && (p.mode != Quarantine && !oks[0] ==> q.running == {} && q.phase == Exiting)
            && (p.mode != Quarantine && oks[0] ==>
                  && q.running == {Scheduler} + Only(oks[1] && d.bootstrap, Bootstrap) + Only(oks[2], Engine)
                                  + Only(oks[3], AlertMonitor) + Only(oks[4], GapReplay)
                  && q.phase == if oks[5] then Serving else Exiting)
  {
    if p.mode == Quarantine || oks[0] {
      StartAll(d, p, holder, i, 0, oks);
      hide Steps;
      StartedAre(d, p.mode, oks);
    } else {
      var q := p.(phase := Exiting);
      FirstStep(d, p, holder, i, oks, q, holder);
      ExitingStays(d, q, holder, i, oks[1..]);
    }
  }

  lemma StartedAre(d: Deployment, mode: Mode, oks: seq<bool>)
    requires |oks| == 6
    ensures StartedFrom(d, mode, 0, oks) ==
            if mode == Quarantine then {}
            else Only(oks[0], Scheduler) + Only(oks[1] && d.bootstrap, Bootstrap) + Only(oks[2], Engine)
                 + Only(oks[3], AlertMonitor) + Only(oks[4], GapReplay)
  {
    StartedNext(d, mode, 0, oks);
    StartedNext(d, mode, 1, oks[1..]);
    StartedNext(d, mode, 2, oks[2..]);
    StartedNext(d, mode, 3, oks[3..]);
    StartedNext(d, mode, 4, oks[4..]);
    StartedNext(d, mode, 5, oks[5..]);
    hide StartedFrom;
    assert oks[1..][1..] == oks[2..] && oks[2..][1..] == oks[3..] && oks[3..][1..] == oks[4..] && oks[4..][1..] == oks[5..];
  }

  /** A shutdown: a stop call counts if it worked, or if its swallowed failure stops the worker all the
      same; a failing scheduler stop ends it early with the lease kept; otherwise the lease is free
      exactly if its release worked. */
  lemma ShutdownOutcome(d: Deployment, p: Pod, i: nat, oks: seq<bool>)
    requires p.phase == StopTasks && p.lease && |oks| == 4
    ensures var (q, h) := Steps(d, p, Some(i), i, oks);
            var tasks := Only(oks[0] || d.tasksStop, AlertMonitor) + Only(oks[0] || d.tasksStop, GapReplay);
            var stuck := Scheduler in p.running && !oks[1];
            && q.phase == Exiting && q.lease == (stuck || !oks[3]) && h == (if q.lease then Some(i) else None)
            && q.running == p.running - tasks -
                 if stuck then {} else {Scheduler} + Only(oks[2] || d.engineStops, Engine)
  {
    var tasks := Only(oks[0] || d.tasksStop, AlertMonitor) + Only(oks[0] || d.tasksStop, GapReplay);
    var p1 := p.(phase := StopScheduler, running := p.running - tasks);
    StopsTasks(d, p, i, oks[0]);
    FirstStep(d, p, Some(i), i, oks, p1, Some(i));
    StopsScheduler(d, p1, i, oks[1..]);
    hide Steps, PodAct;
    assert oks[1..][1] == oks[2] && oks[1..][2] == oks[3];
  }

  lemma StopsTasks(d: Deployment, p: Pod, i: nat, ok: bool)
    requires p.phase == StopTasks
    ensures var tasks := Only(ok || d.tasksStop, AlertMonitor) + Only(ok || d.tasksStop, GapReplay);
            PodAct(d, p, Some(i), i, Proceed(ok)) == (p.(phase := StopScheduler, running := p.running - tasks), Some(i))
  {
    assert p.running - {} == p.running;
    assert Only(true, AlertMonitor) + Only(true, GapReplay) == {AlertMonitor, GapReplay};
    assert Only(false, AlertMonitor) + Only(false, GapReplay) == {};
  }

  lemma StopsScheduler(d: Deployment, p: Pod, i: nat, oks: seq<bool>)
    requires p.phase == StopScheduler && p.lease && |oks| == 3
    ensures var stuck := Scheduler in p.running && !oks[0];
            Steps(d, p, Some(i), i, oks) ==
            if stuck then (p.(phase := Exiting), Some(i))
            else (Pod(Exiting, p.mode, !oks[2], p.running - {Scheduler} - Only(oks[1] || d.engineStops, Engine)),
                  if oks[2] then None else Some(i))
  {
    if Scheduler in p.running && !oks[0] {
      FirstStep(d, p, Some(i), i, oks, p.(phase := Exiting), Some(i));
      ExitingStays(d, p.(phase := Exiting), Some(i), i, oks[1..]);
    } else {
      var q := p.(phase := StopEngine, running := p.running - {Scheduler});
      assert Scheduler !in p.running ==> q.running == p.running;
      FirstStep(d, p, Some(i), i, oks, q, Some(i));
      StopsAndReleases(d, q, i, oks[1..]);
    }
  }

  lemma StopsAndReleases(d: Deployment, p: Pod, i: nat, oks: seq<bool>)
    requires p.phase == StopEngine && p.lease && |oks| == 2
    ensures Steps(d, p, Some(i), i, oks) ==
            (Pod(Exiting, p.mode, !oks[1], p.running - Only(oks[0] || d.engineStops, Engine)), if oks[1] then None else Some(i))
  {
    assert p.running - {} == p.running;
    var p1 := p.(phase := ReleaseLease, running := p.running - Only(oks[0] || d.engineStops, Engine));
    FirstStep(d, p, Some(i), i, oks, p1, Some(i));
    var p2 := p1.(phase := Exiting, lease := !oks[1]);
    FirstStep(d, p1, Some(i), i, oks[1..], p2, if oks[1] then None else Some(i));
    assert oks[1..][1..] == [];
  }

  // ---------------------------------------------------------------- the lease is handed on

  /** A pod whose initialisation fails frees the lease, and another one comes up with all its workers. */
  lemma FatalHandsOver(d: Deployment)
    requires d.postgres
    ensures Reachable(d, 2, World([Pod(Exiting, Normal, false, {}), Pod(Serving, Normal, true, Workers(d))], Some(1)))
  {
    hide Reachable, Workers;
    var pods := Initial(2).pods;
    StartIsReachable(d, 2);
    var p1, p2 := Pod(AskLease, Normal, false, {}), Pod(Preflight, Normal, true, {});
    var p3, p4 := Pod(Initialise, Normal, true, {}), Pod(FatalCleanup, Normal, true, {});
    assert pods[0 := DOWN_POD] == pods;
    Move(d, 2, pods, 0, DOWN_POD, None, Launch(Normal), p1, None);
    Move(d, 2, pods, 0, p1, None, Proceed(true), p2, Some(0));
    Move(d, 2, pods, 0, p2, Some(0), Proceed(true), p3, Some(0));
    Move(d, 2, pods, 0, p3, Some(0), Proceed(false), p4, Some(0));
    var failed := Pod(Exiting, Normal, false, {});
    Move(d, 2, pods, 0, p4, Some(0), Proceed(true), failed, None);
    ComesUp(d, 2, pods[0 := failed], 1, None);
    assert pods[0 := failed][1 := Pod(Serving, Normal, true, Workers(d))] == [failed, Pod(Serving, Normal, true, Workers(d))];
  }

  /** While one pod holds the lease with all its workers, another serves the API alone. */
  lemma SecondPodServes(d: Deployment)
    requires d.postgres
    ensures Reachable(d, 2, World([Pod(Serving, Normal, true, Workers(d)), Pod(ApiServing, Normal, false, {})], Some(0)))
  {
    hide Reachable, Workers;
    var up := Pod(Serving, Normal, true, Workers(d));
    StartIsReachable(d, 2);
    ComesUp(d, 2, Initial(2).pods, 0, None);
    var pods := Initial(2).pods[0 := up];
    var p1, p2 := Pod(AskLease, Normal, false, {}), Pod(Preflight, Normal, false, {});
    var p3 := Pod(ApiStartup, Normal, false, {});
    assert pods[1 := DOWN_POD] == pods;
    Move(d, 2, pods, 1, DOWN_POD, Some(0), Launch(Normal), p1, Some(0));
    Move(d, 2, pods, 1, p1, Some(0), Proceed(true), p2, Some(0));
    Move(d, 2, pods, 1, p2, Some(0), Proceed(true), p3, Some(0));
    Move(d, 2, pods, 1, p3, Some(0), Proceed(true), p3.(phase := ApiServing), Some(0));
    assert pods[1 := p3.(phase := ApiServing)] == [up, p3.(phase := ApiServing)];
  }

  lemma StartIsReachable(d: Deployment, n: nat)
    ensures Reachable(d, n, Initial(n)) && Initial(n) == World(Initial(n).pods, None)
  {
    assert Run(d, Initial(n), []) == Initial(n);
  }
}
