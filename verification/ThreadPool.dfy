/**
 * The thread pool of src/concurrency/thread_pool.cpp as a step system. What a thread does while it
 * holds the mutex is one step; notifies are sent after unlocking, so they are steps of their own.
 */
module ThreadPool {
  import opened Entries

  /** A worker about to test the wait predicate, asleep in `wait`, running a task, or returned. */
  datatype Worker<T> = Looking | Parked | Running(task: T) | Exited

  /** The one call of `shutdown` that finds `stopping_` unset. */
  datatype Shutdown = NotCalled | Notifying | Joining(joined: nat) | Returned

  datatype Pool<T> = Pool(
    queue: seq<T>,
    stopping: bool,
    workers: seq<Worker<T>>,
    pendingNotifies: nat,      // enqueuers that have unlocked and not yet notified
    shutdown: Shutdown,
    accepted: seq<T>,          // history: tasks pushed, in order
    started: seq<T>,           // history: tasks popped, in order
    finished: multiset<T>)     // history: tasks that have run

  datatype Step<T> =
    | Push(task: T)                  // enqueue, accepted
    | Refuse(task: T)                // enqueue after stopping
    | NotifyOne(woken: Option<nat>)  // cv_.notify_one after a push
    | Check(worker: nat)             // wait predicate under the lock: park, exit, or pop
    | Wake(worker: nat)              // spurious wakeup
    | Finish(worker: nat)            // the task returns
    | SetStopping                    // shutdown, first section
    | NotifyAll
    | Join                           // the next worker is joined
    | Return                         // the joining shutdown returns

  function Initial<T>(workerCount: nat): Pool<T> {
    var n := if workerCount == 0 then 1 else workerCount;
    Pool([], false, seq(n, _ => Looking), 0, NotCalled, [], [], multiset{})
  }

  predicate NoneParked<T>(ws: seq<Worker<T>>) {
    forall i :: 0 <= i < |ws| ==> !ws[i].Parked?
  }

  predicate Enabled<T>(s: Pool<T>, step: Step<T>) {
    match step
    case Push(_) => !s.stopping
    case Refuse(_) => s.stopping
    case NotifyOne(woken) =>
      s.pendingNotifies > 0 &&
      (match woken case Some(w) => w < |s.workers| && s.workers[w].Parked? case None => NoneParked(s.workers))
    case Check(w) => w < |s.workers| && s.workers[w].Looking?
    case Wake(w) => w < |s.workers| && s.workers[w].Parked?
    case Finish(w) => w < |s.workers| && s.workers[w].Running?
    case SetStopping => !s.stopping
    case NotifyAll => s.shutdown.Notifying?
    case Join => s.shutdown.Joining? && s.shutdown.joined < |s.workers| && s.workers[s.shutdown.joined].Exited?
    case Return => s.shutdown.Joining? && s.shutdown.joined == |s.workers|
  }

  function WakeAll<T>(ws: seq<Worker<T>>): (r: seq<Worker<T>>)
    ensures |r| == |ws|
    ensures forall i :: 0 <= i < |ws| ==> r[i] == if ws[i].Parked? then Looking else ws[i]
  {
    if ws == [] then [] else WakeAll(ws[..|ws| - 1]) + [if ws[|ws| - 1].Parked? then Looking else ws[|ws| - 1]]
  }

  function Apply<T>(s: Pool<T>, step: Step<T>): Pool<T>
    requires Enabled(s, step)
  {
    match step
    case Push(t) =>
      s.(queue := s.queue + [t], accepted := s.accepted + [t], pendingNotifies := s.pendingNotifies + 1)
    case Refuse(_) => s
    case NotifyOne(woken) =>
      var ws := if woken.Some? then s.workers[woken.value := Looking] else s.workers;
      s.(workers := ws, pendingNotifies := s.pendingNotifies - 1)
    case Check(w) =>
      if s.queue == [] then s.(workers := s.workers[w := if s.stopping then Exited else Parked])
      else
        s.(queue := s.queue[1..], started := s.started + [s.queue[0]], workers := s.workers[w := Running(s.queue[0])])
    case Wake(w) => s.(workers := s.workers[w := Looking])
    case Finish(w) =>
      s.(workers := s.workers[w := Looking], finished := s.finished + multiset{s.workers[w].task})
    case SetStopping => s.(stopping := true, shutdown := Notifying)
    case NotifyAll => s.(workers := WakeAll(s.workers), shutdown := Joining(0))
    case Join => s.(shutdown := Joining(s.shutdown.joined + 1))
    case Return => s.(shutdown := Returned)
  }

  // ----- What every step keeps -----

  function LookingCount<T>(ws: seq<Worker<T>>): nat {
    if ws == [] then 0 else LookingCount(ws[..|ws| - 1]) + if ws[|ws| - 1].Looking? then 1 else 0
  }

  function Load<T>(w: Worker<T>): multiset<T> {
    if w.Running? then multiset{w.task} else multiset{}
  }

  function TasksRunning<T>(ws: seq<Worker<T>>): multiset<T> {
    if ws == [] then multiset{}
    else TasksRunning(ws[..|ws| - 1]) + Load(ws[|ws| - 1])
  }

  /** Tasks are taken in order, none is lost, and none is taken twice. */
  ghost predicate Conserved<T>(s: Pool<T>) {
    && s.accepted == s.started + s.queue
    && multiset(s.started) == s.finished + TasksRunning(s.workers)
  }

  /** While a worker sleeps, every queued task has a worker on its way to it or a notify to come. */
  ghost predicate NoLostWakeup<T>(s: Pool<T>) {
    && (!NoneParked(s.workers) ==> |s.queue| <= LookingCount(s.workers) + s.pendingNotifies)
    && (!NoneParked(s.workers) && s.stopping ==> s.shutdown.Notifying?)
  }

  ghost predicate ShutdownInOrder<T>(s: Pool<T>) {
    && |s.workers| > 0
    && (s.stopping <==> !s.shutdown.NotCalled?)
    && (forall i :: 0 <= i < |s.workers| && s.workers[i].Exited? ==> s.stopping && s.queue == [])
    && (s.shutdown.Joining? ==> s.shutdown.joined <= |s.workers|)
    && (forall i :: 0 <= i < |s.workers| && (s.shutdown.Returned? || (s.shutdown.Joining? && i < s.shutdown.joined)) ==>
          s.workers[i].Exited?)
  }

  ghost predicate Inv<T>(s: Pool<T>) {
    Conserved(s) && NoLostWakeup(s) && ShutdownInOrder(s)
  }

  lemma Swap<T>(a: multiset<T>, b: multiset<T>, c: multiset<T>)
    ensures (a + b) + c == (a + c) + b
  {
  }

  lemma {:induction false} UpdateLoads<T>(ws: seq<Worker<T>>, w: nat, x: Worker<T>)
    requires w < |ws|
    ensures LookingCount(ws[w := x]) ==
            LookingCount(ws) - (if ws[w].Looking? then 1 else 0) + if x.Looking? then 1 else 0
    ensures TasksRunning(ws[w := x]) + Load(ws[w]) == TasksRunning(ws) + Load(x)
  {
    var n := |ws| - 1;
    if w < n {
      var before, after := ws[..n], ws[..n][w := x];
      assert ws[w := x][..n] == after;
      UpdateLoads(before, w, x);
      Swap(TasksRunning(after), Load(ws[n]), Load(ws[w]));
      Swap(TasksRunning(before), Load(x), Load(ws[n]));
    } else {
      assert ws[w := x][..n] == ws[..n];
      Swap(TasksRunning(ws[..n]), Load(x), Load(ws[w]));
    }
  }

  lemma UpdateCounts<T>(ws: seq<Worker<T>>, w: nat, x: Worker<T>)
    requires w < |ws|
    ensures LookingCount(ws[w := x]) ==
            LookingCount(ws) - (if ws[w].Looking? then 1 else 0) + if x.Looking? then 1 else 0
    ensures !ws[w].Running? && !x.Running? ==> TasksRunning(ws[w := x]) == TasksRunning(ws)
    ensures !ws[w].Running? && x.Running? ==> TasksRunning(ws[w := x]) == TasksRunning(ws) + multiset{x.task}
    ensures ws[w].Running? && !x.Running? ==> TasksRunning(ws[w := x]) + multiset{ws[w].task} == TasksRunning(ws)
  {
    UpdateLoads(ws, w, x);
    assert TasksRunning(ws) + multiset{} == TasksRunning(ws);
    assert TasksRunning(ws[w := x]) + multiset{} == TasksRunning(ws[w := x]);
  }

  lemma {:induction false} WakeAllCounts<T>(ws: seq<Worker<T>>)
    ensures TasksRunning(WakeAll(ws)) == TasksRunning(ws)
    ensures NoneParked(WakeAll(ws))
  {
    if ws != [] {
      assert WakeAll(ws)[..|ws| - 1] == WakeAll(ws[..|ws| - 1]);
      WakeAllCounts(ws[..|ws| - 1]);
    }
  }

  lemma {:induction false} InitialCounts<T>(ws: seq<Worker<T>>)
    requires forall i :: 0 <= i < |ws| ==> ws[i].Looking?
    ensures TasksRunning(ws) == multiset{} && LookingCount(ws) == |ws|
  {
    if ws != [] {
      InitialCounts(ws[..|ws| - 1]);
    }
  }

  lemma InitialInv<T>(workerCount: nat)
    ensures Inv(Initial<T>(workerCount))
  {
    InitialCounts(Initial<T>(workerCount).workers);
  }

  lemma PopKeepsTasks<T>(started: seq<T>, queue: seq<T>, finished: multiset<T>, running: multiset<T>)
    requires queue != [] && multiset(started) == finished + running
    ensures started + queue == (started + [queue[0]]) + queue[1..]
    ensures multiset(started + [queue[0]]) == finished + (running + multiset{queue[0]})
  {
    assert queue == [queue[0]] + queue[1..];
  }

  lemma PopConserves<T>(s: Pool<T>, w: nat)
    requires Conserved(s) && Enabled(s, Check(w))
    ensures Conserved(Apply(s, Check(w)))
  {
    UpdateCounts(s.workers, w, Apply(s, Check(w)).workers[w]);
    if s.queue != [] {
      PopKeepsTasks(s.started, s.queue, s.finished, TasksRunning(s.workers));
    }
  }

  lemma FinishConserves<T>(s: Pool<T>, w: nat)
    requires Conserved(s) && Enabled(s, Finish(w))
    ensures Conserved(Apply(s, Finish(w)))
  {
    var r, t := Apply(s, Finish(w)), s.workers[w].task;
    UpdateCounts(s.workers, w, Looking);
    assert r.finished + TasksRunning(r.workers) == s.finished + (TasksRunning(r.workers) + multiset{t});
  }

  lemma StepConserves<T>(s: Pool<T>, step: Step<T>)
    requires Conserved(s) && Enabled(s, step)
    ensures Conserved(Apply(s, step))
  {
    match step
    case NotifyOne(woken) => if woken.Some? { UpdateCounts(s.workers, woken.value, Looking); }
    case Check(w) => PopConserves(s, w);
    case Wake(w) => UpdateCounts(s.workers, w, Looking);
    case Finish(w) => FinishConserves(s, w);
    case NotifyAll => WakeAllCounts(s.workers);
    case _ =>
  }

  lemma {:induction false} StepLosesNoWakeup<T>(s: Pool<T>, step: Step<T>)
    requires NoLostWakeup(s) && ShutdownInOrder(s) && Enabled(s, step)
    ensures NoLostWakeup(Apply(s, step))
  {
    var r := Apply(s, step);
    match step
    case NotifyOne(woken) => if woken.Some? { UpdateCounts(s.workers, woken.value, Looking); }
    case Check(w) => UpdateCounts(s.workers, w, r.workers[w]);
    case Wake(w) => UpdateCounts(s.workers, w, Looking);
    case Finish(w) => UpdateCounts(s.workers, w, Looking);
    case NotifyAll => WakeAllCounts(s.workers);
    case _ =>
  }

  lemma StepKeepsOrder<T>(s: Pool<T>, step: Step<T>)
    requires ShutdownInOrder(s) && Enabled(s, step)
    ensures ShutdownInOrder(Apply(s, step))
  {
  }

  lemma StepKeepsInv<T>(s: Pool<T>, step: Step<T>)
    requires Inv(s) && Enabled(s, step)
    ensures Inv(Apply(s, step))
  {
    StepConserves(s, step);
    StepLosesNoWakeup(s, step);
    StepKeepsOrder(s, step);
  }

  // ----- Every run -----

  ghost predicate CanRun<T>(s: Pool<T>, run: seq<Step<T>>)
    decreases |run|
  {
    run != [] ==> Enabled(s, run[0]) && CanRun(Apply(s, run[0]), run[1..])
  }

  ghost function After<T>(s: Pool<T>, run: seq<Step<T>>): Pool<T>
    requires CanRun(s, run)
    decreases |run|
  {
    if run == [] then s else After(Apply(s, run[0]), run[1..])
  }

  lemma {:induction false} RunKeepsInv<T>(s: Pool<T>, run: seq<Step<T>>)
    requires Inv(s) && CanRun(s, run)
    ensures Inv(After(s, run))
    decreases |run|
  {
    if run != [] {
      StepKeepsInv(s, run[0]);
      RunKeepsInv(Apply(s, run[0]), run[1..]);
    }
  }

  /** The tasks that the `enqueue` calls of a run hand in before it stops, in order. */
  function Pushed<T>(run: seq<Step<T>>): seq<T>
    decreases |run|
  {
    if run == [] then [] else (if run[0].Push? then [run[0].task] else []) + Pushed(run[1..])
  }

  function Notified<T>(run: seq<Step<T>>): nat
    decreases |run|
  {
    if run == [] then 0 else (if run[0].NotifyOne? then 1 else 0) + Notified(run[1..])
  }

  lemma {:induction false} RunAccounts<T>(s: Pool<T>, run: seq<Step<T>>)
    requires CanRun(s, run)
    ensures var r := After(s, run);
            && r.accepted == s.accepted + Pushed(run)
            && s.pendingNotifies + |Pushed(run)| == r.pendingNotifies + Notified(run)
            && (r.stopping <==> s.stopping || SetStopping in run)
            && |r.workers| == |s.workers|
    decreases |run|
  {
    if run != [] {
      var next, rest := Apply(s, run[0]), run[1..];
      RunAccounts(next, rest);
      assert run == [run[0]] + rest;
      if run[0].Push? {
        assert (s.accepted + [run[0].task]) + Pushed(rest) == s.accepted + ([run[0].task] + Pushed(rest));
      } else {
        assert [] + Pushed(rest) == Pushed(rest);
      }
    }
  }

  /**
   * In every interleaving the pool has at least one worker and never changes their number, has accepted
   * exactly the pushed tasks, owes one notify for each push not yet notified, and takes or refuses the
   * next task according to whether `shutdown` has been called.
   */
  lemma EveryRunAccepts<T>(workerCount: nat, run: seq<Step<T>>, task: T)
    requires CanRun(Initial<T>(workerCount), run)
    ensures var s := After(Initial<T>(workerCount), run);
            && |s.workers| == (if workerCount == 0 then 1 else workerCount)
            && s.accepted == Pushed(run)
            && |Pushed(run)| == s.pendingNotifies + Notified(run)
            && (Enabled(s, Push(task)) <==> SetStopping !in run)
            && (Enabled(s, Refuse(task)) <==> SetStopping in run)
  {
    RunAccounts(Initial<T>(workerCount), run);
    assert [] + Pushed(run) == Pushed(run);
  }

  /**
   * In every interleaving: tasks start in the order they were pushed, each at most once; a worker
   * exits only when nothing is left; and once the joining `shutdown` has returned, every pushed task
   * has run exactly once.
   */
  lemma EveryRunIsOrderly<T>(workerCount: nat, run: seq<Step<T>>)
    requires CanRun(Initial<T>(workerCount), run)
    ensures var s := After(Initial<T>(workerCount), run);
            && s.started <= Pushed(run)
            && Pushed(run) == s.started + s.queue
            && multiset(s.started) == s.finished + TasksRunning(s.workers)
            && (Exited in s.workers ==> SetStopping in run && s.started == Pushed(run))
            && (s.shutdown.Returned? ==> s.finished == multiset(Pushed(run)))
  {
    InitialInv<T>(workerCount);
    RunKeepsInv(Initial<T>(workerCount), run);
    RunAccounts(Initial<T>(workerCount), run);
    assert [] + Pushed(run) == Pushed(run);
    var s := After(Initial<T>(workerCount), run);
    if Exited in s.workers {
      assert s.started + [] == s.started;
    }
    if s.shutdown.Returned? {
      NoneRunning(s.workers);
      assert s.workers[0] in s.workers;
    }
  }

  /**
   * In every interleaving, although notifies are sent after unlocking: while a worker sleeps there are
   * at least as many awake workers about to look at the queue and notifies still to come as there are
   * queued tasks, and a worker asleep during shutdown still has the notify_all ahead of it. So a queued
   * task always has an awake worker or a notify coming.
   */
  lemma EveryRunKeepsWakeups<T>(workerCount: nat, run: seq<Step<T>>)
    requires CanRun(Initial<T>(workerCount), run)
    ensures var s := After(Initial<T>(workerCount), run);
            && (Parked in s.workers ==> |s.queue| <= LookingCount(s.workers) + s.pendingNotifies)
            && (Parked in s.workers && s.stopping ==> s.shutdown.Notifying?)
            && (s.queue != [] ==> s.pendingNotifies > 0 || exists w :: w in s.workers && (w.Looking? || w.Running?))
  {
    InitialInv<T>(workerCount);
    RunKeepsInv(Initial<T>(workerCount), run);
    var s := After(Initial<T>(workerCount), run);
    if s.queue != [] && s.pendingNotifies == 0 {
      if Parked in s.workers {
        var i := LookingExists(s.workers);
        assert s.workers[i] in s.workers;
      } else {
        assert s.workers[0] in s.workers;
      }
    }
  }

  lemma {:induction false} NoneRunning<T>(ws: seq<Worker<T>>)
    requires forall i :: 0 <= i < |ws| ==> !ws[i].Running?
    ensures TasksRunning(ws) == multiset{}
  {
    if ws != [] {
      NoneRunning(ws[..|ws| - 1]);
    }
  }

  /** Once a worker has exited, the queue is empty and stays so whatever happens next. */
  lemma {:induction false} ExitIsFinal<T>(s: Pool<T>, w: nat, run: seq<Step<T>>)
    requires Inv(s) && w < |s.workers| && s.workers[w].Exited? && CanRun(s, run)
    ensures var r := After(s, run);
            r.queue == [] && r.accepted == s.accepted && w < |r.workers| && r.workers[w].Exited?
    decreases |run|
  {
    if run != [] {
      StepKeepsInv(s, run[0]);
      ExitIsFinal(Apply(s, run[0]), w, run[1..]);
    }
  }

  // ----- Progress -----

  /** A step that moves the pool itself on, as opposed to a new request or a spurious wakeup. */
  predicate Internal<T>(step: Step<T>) {
    step.NotifyOne? || step.Check? || step.Finish? || step.NotifyAll? || step.Join? || step.Return?
  }

  lemma {:induction false} LookingExists<T>(ws: seq<Worker<T>>) returns (w: nat)
    requires LookingCount(ws) > 0
    ensures w < |ws| && ws[w].Looking?
  {
    if ws[|ws| - 1].Looking? {
      w := |ws| - 1;
    } else {
      w := LookingExists(ws[..|ws| - 1]);
    }
  }

  /** With a task queued, or a shutdown under way, some internal step can always be taken. */
  lemma NeverStuck<T>(s: Pool<T>) returns (step: Step<T>)
    requires Inv(s) && (s.queue != [] || (s.stopping && !s.shutdown.Returned?))
    ensures Enabled(s, step) && Internal(step)
  {
    if s.shutdown.Notifying? {
      step := NotifyAll;
    } else if w :| 0 <= w < |s.workers| && s.workers[w].Running? {
      step := Finish(w);
    } else if w :| 0 <= w < |s.workers| && s.workers[w].Looking? {
      step := Check(w);
    } else if w :| 0 <= w < |s.workers| && s.workers[w].Parked? {
      if LookingCount(s.workers) > 0 {
        var w := LookingExists(s.workers);
        step := Check(w);
      } else {
        step := NotifyOne(Some(w));
      }
    } else {
      assert s.workers[0].Exited?;
      step := if s.shutdown.joined < |s.workers| then Join else Return;
    }
  }

  function Weight<T>(w: Worker<T>): nat {
    match w case Looking => 2 case Parked => 3 case Running(_) => 3 case Exited => 0
  }

  function Weights<T>(ws: seq<Worker<T>>): nat {
    if ws == [] then 0 else Weights(ws[..|ws| - 1]) + Weight(ws[|ws| - 1])
  }

  /** Bounds the steps left in a pool that is stopping. */
  function Remaining<T>(s: Pool<T>): nat {
    var joins := match s.shutdown
      case NotCalled => |s.workers| + 3
      case Notifying => |s.workers| + 2
      case Joining(j) => if j <= |s.workers| then |s.workers| - j + 1 else 1
      case Returned => 0;
    3 * |s.queue| + Weights(s.workers) + s.pendingNotifies + joins
  }

  lemma {:induction false} UpdateWeights<T>(ws: seq<Worker<T>>, w: nat, x: Worker<T>)
    requires w < |ws|
    ensures Weights(ws[w := x]) == Weights(ws) - Weight(ws[w]) + Weight(x)
  {
    var n := |ws| - 1;
    assert ws[w := x][..n] == if w < n then ws[..n][w := x] else ws[..n];
    if w < n {
      UpdateWeights(ws[..n], w, x);
    }
  }

  lemma {:induction false} WakeAllWeights<T>(ws: seq<Worker<T>>)
    ensures Weights(WakeAll(ws)) <= Weights(ws)
  {
    if ws != [] {
      assert WakeAll(ws)[..|ws| - 1] == WakeAll(ws[..|ws| - 1]);
      WakeAllWeights(ws[..|ws| - 1]);
    }
  }

  lemma WorkerStepsDown<T>(s: Pool<T>, w: nat, step: Step<T>)
    requires s.stopping && Enabled(s, step) && (step == Check(w) || step == Wake(w) || step == Finish(w))
    ensures Remaining(Apply(s, step)) < Remaining(s)
  {
    UpdateWeights(s.workers, w, Apply(s, step).workers[w]);
  }

  lemma NotifyStepsDown<T>(s: Pool<T>, step: Step<T>)
    requires Enabled(s, step) && (step.NotifyOne? || step.NotifyAll?)
    ensures Remaining(Apply(s, step)) < Remaining(s)
  {
    if step.NotifyAll? {
      WakeAllWeights(s.workers);
    } else if step.woken.Some? {
      UpdateWeights(s.workers, step.woken.value, Looking);
    }
  }

  lemma StoppingStepsDown<T>(s: Pool<T>, step: Step<T>)
    requires s.stopping && Enabled(s, step) && !step.Refuse?
    ensures Remaining(Apply(s, step)) < Remaining(s)
  {
    match step
    case NotifyOne(_) => NotifyStepsDown(s, step);
    case Check(w) => WorkerStepsDown(s, w, step);
    case Wake(w) => WorkerStepsDown(s, w, step);
    case Finish(w) => WorkerStepsDown(s, w, step);
    case NotifyAll => NotifyStepsDown(s, step);
    case _ =>
  }

  lemma RestIsIdle<T>(s: Pool<T>)
    requires forall step :: Internal(step) ==> !Enabled(s, step)
    ensures forall i :: 0 <= i < |s.workers| ==> !s.workers[i].Running?
  {
    forall i | 0 <= i < |s.workers| ensures !s.workers[i].Running? {
      var step: Step<T> := Finish(i);
      assert Internal(step);
    }
  }

  lemma RestIsDone<T>(s: Pool<T>)
    requires Inv(s) && forall step :: Internal(step) ==> !Enabled(s, step)
    ensures s.queue == [] && (s.stopping ==> s.shutdown.Returned?)
  {
    if s.queue != [] || (s.stopping && !s.shutdown.Returned?) {
      var step := NeverStuck(s);
      assert false;
    }
  }

  lemma RestHasRunAll<T>(s: Pool<T>)
    requires Inv(s) && forall step :: Internal(step) ==> !Enabled(s, step)
    ensures s.finished == multiset(s.accepted) && (s.stopping ==> s.shutdown.Returned?)
  {
    RestIsDone(s);
    RestIsIdle(s);
    NoneRunning(s.workers);
    assert s.started + [] == s.started;
  }

  lemma {:induction false} StoppingRunIsShort<T>(s: Pool<T>, run: seq<Step<T>>)
    requires Inv(s) && s.stopping && CanRun(s, run)
    requires forall i :: 0 <= i < |run| ==> !run[i].Refuse?
    ensures var r := After(s, run);
            |run| + Remaining(r) <= Remaining(s) && Inv(r) && r.stopping && r.accepted == s.accepted
    decreases |run|
  {
    if run != [] {
      StepKeepsInv(s, run[0]);
      StoppingStepsDown(s, run[0]);
      StoppingRunIsShort(Apply(s, run[0]), run[1..]);
    }
  }

  /**
   * Shutdown ends: after any run that has called `shutdown`, no continuation is longer than `Remaining`,
   * apart from refused pushes, and one that can go no further has returned from `shutdown` with every
   * task pushed since the start run exactly once.
   */
  lemma ShutdownEnds<T>(workerCount: nat, run: seq<Step<T>>, more: seq<Step<T>>)
    requires CanRun(Initial<T>(workerCount), run) && SetStopping in run
    requires CanRun(After(Initial<T>(workerCount), run), more)
    requires forall i :: 0 <= i < |more| ==> !more[i].Refuse?
    ensures var s := After(Initial<T>(workerCount), run);
            var r := After(s, more);
            && |more| + Remaining(r) <= Remaining(s)
            && ((forall step :: Internal(step) ==> !Enabled(r, step)) ==>
                  r.shutdown.Returned? && r.finished == multiset(Pushed(run)))
  {
    var s := After(Initial<T>(workerCount), run);
    InitialInv<T>(workerCount);
    RunKeepsInv(Initial<T>(workerCount), run);
    RunAccounts(Initial<T>(workerCount), run);
    assert [] + Pushed(run) == Pushed(run);
    StoppingRunIsShort(s, more);
    if forall step :: Internal(step) ==> !Enabled(After(s, more), step) {
      RestHasRunAll(After(s, more));
    }
  }

  /** With or without a shutdown, a pool that has come to rest has run every pushed task exactly once. */
  lemma RestingPoolHasRunAll<T>(workerCount: nat, run: seq<Step<T>>)
    requires CanRun(Initial<T>(workerCount), run)
    requires forall step :: Internal(step) ==> !Enabled(After(Initial<T>(workerCount), run), step)
    ensures After(Initial<T>(workerCount), run).finished == multiset(Pushed(run))
  {
    InitialInv<T>(workerCount);
    RunKeepsInv(Initial<T>(workerCount), run);
    RunAccounts(Initial<T>(workerCount), run);
    assert [] + Pushed(run) == Pushed(run);
    RestHasRunAll(After(Initial<T>(workerCount), run));
  }
}
