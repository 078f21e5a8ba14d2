// The mutex and condition-variable protocol of ThreadPoolExecutor, as a state
// machine over the steps of its workers, of any number of submitting threads
// and of the destructor.

module ThreadPool {

  datatype Worker =
    | Locking // about to take the mutex: at the top of the loop, or woken
    | Holding // owns the mutex, about to look at m_stop and m_tasks
    | Asleep // inside wait, mutex released
    | Running(task: nat)
    | Exited

  datatype Holder = Nobody | HeldBy(worker: nat) | HeldBySubmitter | HeldByDestructor

  datatype Destructor =
    | NotStarted
    | Stopping // owns the mutex, about to set m_stop
    | Stopped // m_stop is set, notify_all not yet called
    | Joining(joined: nat) // notify_all has been called

  // Tasks are named by the order in which they were accepted: 0, 1, 2, ...
  datatype Pool = Pool(
    workers: seq<Worker>,
    tasks: seq<nat>, // m_tasks
    stop: bool, // m_stop
    holder: Holder, // m_mutex
    pending: nat, // submitters that have pushed and not yet called notify_one
    destructor: Destructor,
    accepted: nat, // tasks pushed so far
    taken: seq<nat>, // tasks taken from the queue, in that order
    finished: seq<nat>) // tasks that have run to the end, in that order

  datatype Step =
    | SubmitLock
    | SubmitBody // push, or throw when the pool is stopped
    | NotifyOne(woken: nat) // wakes this worker, if any worker is asleep
    | WorkerLock(i: nat)
    | WorkerSleep(i: nat)
    | WorkerTake(i: nat)
    | WorkerExit(i: nat)
    | WorkerFinish(i: nat)
    | SpuriousWake(i: nat)
    | DestructorLock
    | DestructorStop
    | DestructorNotify
    | DestructorJoin

  function Initial(n: nat): Pool {
    Pool(seq(n, _ => Locking), [], false, Nobody, 0, NotStarted, 0, [], [])
  }

  predicate At(p: Pool, i: nat, w: Worker) {
    i < |p.workers| && p.workers[i] == w
  }

  predicate Sleepers(p: Pool) {
    exists i :: 0 <= i < |p.workers| && p.workers[i] == Asleep
  }

  predicate Enabled(p: Pool, step: Step) {
    match step
    case SubmitLock => p.holder == Nobody
    case SubmitBody => p.holder == HeldBySubmitter
    case NotifyOne(i) => p.pending > 0 && (Sleepers(p) ==> At(p, i, Asleep))
    case WorkerLock(i) => At(p, i, Locking) && p.holder == Nobody
    case WorkerSleep(i) => At(p, i, Holding) && !p.stop && p.tasks == []
    case WorkerTake(i) => At(p, i, Holding) && p.tasks != []
    case WorkerExit(i) => At(p, i, Holding) && p.stop && p.tasks == []
    case WorkerFinish(i) => i < |p.workers| && p.workers[i].Running?
    case SpuriousWake(i) => At(p, i, Asleep)
    case DestructorLock => p.destructor == NotStarted && p.holder == Nobody
    case DestructorStop => p.destructor == Stopping
    case DestructorNotify => p.destructor == Stopped
    case DestructorJoin =>
      p.destructor.Joining? && At(p, p.destructor.joined, Exited)
  }

  function WakeAll(ws: seq<Worker>): (r: seq<Worker>)
    ensures |r| == |ws|
    ensures forall i :: 0 <= i < |ws| ==> r[i] == if ws[i] == Asleep then Locking else ws[i]
  {
    seq(|ws|, i requires 0 <= i < |ws| => if ws[i] == Asleep then Locking else ws[i])
  }

  function Next(p: Pool, step: Step): Pool
    requires Enabled(p, step)
  {
    match step
    case SubmitLock => p.(holder := HeldBySubmitter)
    case SubmitBody =>
      if p.stop then p.(holder := Nobody)
      else p.(tasks := p.tasks + [p.accepted], accepted := p.accepted + 1, pending := p.pending + 1,
              holder := Nobody)
    case NotifyOne(i) =>
      if Sleepers(p) then p.(pending := p.pending - 1, workers := p.workers[i := Locking])
      else p.(pending := p.pending - 1)
    case WorkerLock(i) => p.(workers := p.workers[i := Holding], holder := HeldBy(i))
    case WorkerSleep(i) => p.(workers := p.workers[i := Asleep], holder := Nobody)
    case WorkerTake(i) =>
      var t := p.tasks[0];
      p.(workers := p.workers[i := Running(t)], tasks := p.tasks[1..], taken := p.taken + [t], holder := Nobody)
    case WorkerExit(i) => p.(workers := p.workers[i := Exited], holder := Nobody)
    case WorkerFinish(i) =>
      p.(workers := p.workers[i := Locking], finished := p.finished + [p.workers[i].task])
    case SpuriousWake(i) => p.(workers := p.workers[i := Locking])
    case DestructorLock => p.(destructor := Stopping, holder := HeldByDestructor)
    case DestructorStop => p.(destructor := Stopped, stop := true, holder := Nobody)
    case DestructorNotify => p.(destructor := Joining(0), workers := WakeAll(p.workers))
    case DestructorJoin => p.(destructor := Joining(p.destructor.joined + 1))
  }

  // The destructor has joined every worker and returns.
  predicate Destroyed(p: Pool) {
    p.destructor == Joining(|p.workers|)
  }

  predicate CanRun(p: Pool, steps: seq<Step>)
    decreases |steps|
  {
    steps != [] ==> Enabled(p, steps[0]) && CanRun(Next(p, steps[0]), steps[1..])
  }

  function Run(p: Pool, steps: seq<Step>): Pool
    requires CanRun(p, steps)
    decreases |steps|
  {
    if steps == [] then p else Run(Next(p, steps[0]), steps[1..])
  }

  // ---------------------------------------------------------------------
  // Sums over the workers

  function Sum(ws: seq<Worker>, f: Worker -> nat): nat {
    if ws == [] then 0 else f(ws[0]) + Sum(ws[1..], f)
  }

  lemma {:induction false} SumUpdate(ws: seq<Worker>, i: nat, w: Worker, f: Worker -> nat)
    requires i < |ws|
    ensures Sum(ws[i := w], f) + f(ws[i]) == Sum(ws, f) + f(w)
  {
    if i == 0 {
      assert ws[0 := w][1..] == ws[1..];
    } else {
      assert ws[i := w][1..] == ws[1..][i - 1 := w];
      SumUpdate(ws[1..], i - 1, w, f);
    }
  }

  lemma {:induction false} SumZero(ws: seq<Worker>, f: Worker -> nat)
    requires Sum(ws, f) == 0
    ensures forall w :: w in ws ==> f(w) == 0
  {
    if ws != [] {
      SumZero(ws[1..], f);
    }
  }

  // Workers that will look at the queue before they next sleep or run a task.
  const HEADED := (w: Worker) => if w == Locking || w == Holding then 1 else 0

  function Headed(ws: seq<Worker>): nat {
    Sum(ws, HEADED)
  }

  function TaskOf(w: Worker): multiset<nat> {
    if w.Running? then multiset{w.task} else multiset{}
  }

  function TasksRunning(ws: seq<Worker>): multiset<nat> {
    if ws == [] then multiset{} else TaskOf(ws[0]) + TasksRunning(ws[1..])
  }

  lemma {:induction false} TasksRunningUpdate(ws: seq<Worker>, i: nat, w: Worker)
    requires i < |ws|
    ensures TasksRunning(ws[i := w]) + TaskOf(ws[i]) == TasksRunning(ws) + TaskOf(w)
  {
    if i == 0 {
      assert ws[0 := w][1..] == ws[1..];
    } else {
      var rest := ws[1..];
      TasksRunningUpdate(rest, i - 1, w);
      assert ws[i := w][1..] == rest[i - 1 := w];
      AddToBoth(TaskOf(ws[0]), TasksRunning(rest[i - 1 := w]), TaskOf(rest[i - 1]), TasksRunning(rest), TaskOf(w));
    }
  }

  lemma AddToBoth(a: multiset<nat>, b: multiset<nat>, c: multiset<nat>, d: multiset<nat>, e: multiset<nat>)
    requires b + c == d + e
    ensures a + b + c == a + d + e
  {
    assert a + b + c == a + (b + c);
    assert a + d + e == a + (d + e);
  }

  // A step between two states that run no task leaves the running tasks alone.
  lemma StillRunning(ws: seq<Worker>, i: nat, w: Worker)
    requires i < |ws| && !ws[i].Running? && !w.Running?
    ensures TasksRunning(ws[i := w]) == TasksRunning(ws)
  {
    TasksRunningUpdate(ws, i, w);
    assert TasksRunning(ws[i := w]) + multiset{} == TasksRunning(ws[i := w]);
    assert TasksRunning(ws) + multiset{} == TasksRunning(ws);
  }

  lemma {:induction false} TasksRunningNone(ws: seq<Worker>)
    requires forall w :: w in ws ==> !w.Running?
    ensures TasksRunning(ws) == multiset{}
  {
    if ws != [] {
      assert ws[0] in ws;
      TasksRunningNone(ws[1..]);
    }
  }

  lemma {:induction false} TasksRunningWakeAll(ws: seq<Worker>)
    ensures TasksRunning(WakeAll(ws)) == TasksRunning(ws)
  {
    if ws != [] {
      assert WakeAll(ws)[1..] == WakeAll(ws[1..]);
      TasksRunningWakeAll(ws[1..]);
    }
  }

  // ---------------------------------------------------------------------
  // The invariant

  function UpTo(n: nat): seq<nat> {
    seq(n, i => i)
  }

  // The mutex has the one owner that the program counters say it has.
  predicate MutexInv(p: Pool) {
    && (forall i :: 0 <= i < |p.workers| ==> (p.workers[i] == Holding <==> p.holder == HeldBy(i)))
    && (p.holder.HeldBy? ==> p.holder.worker < |p.workers|)
    && (p.destructor == Stopping <==> p.holder == HeldByDestructor)
  }

  // Tasks are taken in the order they were accepted, and each task taken is
  // running in one worker or finished, once.
  ghost predicate TaskInv(p: Pool) {
    && p.taken + p.tasks == UpTo(p.accepted)
    && multiset(p.finished) + TasksRunning(p.workers) == multiset(p.taken)
  }

  // While a worker sleeps, every queued task has a notification on its way
  // or a worker headed for the queue.
  predicate WakeupInv(p: Pool) {
    Sleepers(p) ==> |p.tasks| <= p.pending + Headed(p.workers)
  }

  predicate ShutdownInv(p: Pool) {
    && (p.stop <==> p.destructor == Stopped || p.destructor.Joining?)
    && (p.destructor.Joining? ==> !Sleepers(p) && p.destructor.joined <= |p.workers|)
    && (forall i :: 0 <= i < |p.workers| && p.workers[i] == Exited ==> p.stop && p.tasks == [])
    && (p.destructor.Joining? ==> forall i :: 0 <= i < p.destructor.joined ==> p.workers[i] == Exited)
  }

  ghost predicate Inv(p: Pool) {
    MutexInv(p) && TaskInv(p) && WakeupInv(p) && ShutdownInv(p)
  }

  lemma InitialInv(n: nat)
    ensures Inv(Initial(n))
  {
    TasksRunningNone(Initial(n).workers);
  }

  lemma SubmitKeepsTasks(p: Pool)
    requires TaskInv(p) && Enabled(p, SubmitBody)
    ensures TaskInv(Next(p, SubmitBody))
  {
    if !p.stop {
      assert p.taken + (p.tasks + [p.accepted]) == (p.taken + p.tasks) + [p.accepted];
      assert UpTo(p.accepted + 1) == UpTo(p.accepted) + [p.accepted];
    }
  }

  lemma TakeKeepsTasks(p: Pool, i: nat)
    requires TaskInv(p) && Enabled(p, WorkerTake(i))
    ensures TaskInv(Next(p, WorkerTake(i)))
  {
    var t := p.tasks[0];
    TasksRunningUpdate(p.workers, i, Running(t));
    MoveAcross(p.taken, p.tasks);
    assert TasksRunning(p.workers[i := Running(t)]) == TasksRunning(p.workers) + multiset{t};
  }

  lemma MoveAcross(taken: seq<nat>, tasks: seq<nat>)
    requires tasks != []
    ensures taken + [tasks[0]] + tasks[1..] == taken + tasks
    ensures multiset(taken + [tasks[0]]) == multiset(taken) + multiset{tasks[0]}
  {
  }

  lemma FinishKeepsTasks(p: Pool, i: nat)
    requires TaskInv(p) && Enabled(p, WorkerFinish(i))
    ensures TaskInv(Next(p, WorkerFinish(i)))
  {
    var t := p.workers[i].task;
    TasksRunningUpdate(p.workers, i, Locking);
    assert TasksRunning(p.workers[i := Locking]) + multiset{t} == TasksRunning(p.workers);
    assert multiset(p.finished + [t]) == multiset(p.finished) + multiset{t};
  }

  lemma StepKeepsTasks(p: Pool, step: Step)
    requires TaskInv(p) && Enabled(p, step)
    ensures TaskInv(Next(p, step))
  {
    match step
    case SubmitBody => SubmitKeepsTasks(p);
    case NotifyOne(i) => if Sleepers(p) { StillRunning(p.workers, i, Locking); }
    case WorkerLock(i) => StillRunning(p.workers, i, Holding);
    case WorkerSleep(i) => StillRunning(p.workers, i, Asleep);
    case WorkerTake(i) => TakeKeepsTasks(p, i);
    case WorkerExit(i) => StillRunning(p.workers, i, Exited);
    case WorkerFinish(i) => FinishKeepsTasks(p, i);
    case SpuriousWake(i) => StillRunning(p.workers, i, Locking);
    case DestructorNotify => TasksRunningWakeAll(p.workers);
    case _ =>
  }

  lemma StepKeepsMutex(p: Pool, step: Step)
    requires MutexInv(p) && Enabled(p, step)
    ensures MutexInv(Next(p, step))
  {
  }

  lemma StepKeepsShutdown(p: Pool, step: Step)
    requires MutexInv(p) && ShutdownInv(p) && Enabled(p, step)
    ensures ShutdownInv(Next(p, step))
  {
  }

  lemma StepKeepsWakeup(p: Pool, step: Step)
    requires WakeupInv(p) && Enabled(p, step)
    ensures WakeupInv(Next(p, step))
  {
    match step
    case NotifyOne(i) => if Sleepers(p) { SumUpdate(p.workers, i, Locking, HEADED); }
    case WorkerLock(i) => SumUpdate(p.workers, i, Holding, HEADED);
    case WorkerSleep(i) => SumUpdate(p.workers, i, Asleep, HEADED);
    case WorkerTake(i) => SumUpdate(p.workers, i, Running(p.tasks[0]), HEADED);
    case WorkerExit(i) => SumUpdate(p.workers, i, Exited, HEADED);
    case WorkerFinish(i) => SumUpdate(p.workers, i, Locking, HEADED);
    case SpuriousWake(i) => SumUpdate(p.workers, i, Locking, HEADED);
    case _ =>
  }

  lemma StepKeepsInv(p: Pool, step: Step)
    requires Inv(p) && Enabled(p, step)
    ensures Inv(Next(p, step))
  {
    StepKeepsMutex(p, step);
    StepKeepsTasks(p, step);
    StepKeepsWakeup(p, step);
    StepKeepsShutdown(p, step);
  }

  lemma FirstStep(p: Pool, steps: seq<Step>) returns (p1: Pool, rest: seq<Step>)
    requires Inv(p) && CanRun(p, steps) && steps != []
    ensures Inv(p1) && |p1.workers| == |p.workers| && |rest| < |steps|
    ensures CanRun(p1, rest) && Run(p1, rest) == Run(p, steps)
  {
    StepKeepsInv(p, steps[0]);
    p1, rest := Next(p, steps[0]), steps[1..];
  }

  lemma {:induction false} RunKeepsInv(p: Pool, steps: seq<Step>)
    requires Inv(p) && CanRun(p, steps)
    ensures Inv(Run(p, steps)) && |Run(p, steps).workers| == |p.workers|
    decreases |steps|
  {
    if steps != [] {
      var p1, rest := FirstStep(p, steps);
      RunKeepsInv(p1, rest);
    }
  }

  // ---------------------------------------------------------------------
  // What this means

  // The calls of submit that get as far as the queue before the pool is
  // stopped, as the schedule has them.
  function Submitted(steps: seq<Step>): nat {
    if steps == [] || steps[0] == DestructorStop then 0
    else (if steps[0] == SubmitBody then 1 else 0) + Submitted(steps[1..])
  }

  lemma {:induction false} AcceptedFrom(p: Pool, steps: seq<Step>)
    requires CanRun(p, steps)
    ensures Run(p, steps).accepted == p.accepted + if p.stop then 0 else Submitted(steps)
    decreases |steps|
  {
    if steps != [] {
      AcceptedFrom(Next(p, steps[0]), steps[1..]);
    }
  }

  // Every one of them is accepted, whatever the workers and the other
  // submitters are doing, and no other.
  lemma AcceptedExact(n: nat, steps: seq<Step>)
    requires CanRun(Initial(n), steps)
    ensures Run(Initial(n), steps).accepted == Submitted(steps)
  {
    AcceptedFrom(Initial(n), steps);
  }

  predicate Distinct(s: seq<nat>) {
    forall i, j :: 0 <= i < j < |s| ==> s[i] != s[j]
  }

  lemma CountedTwice(s: seq<nat>, i: nat, j: nat)
    requires i < j < |s| && s[i] == s[j]
    ensures multiset(s)[s[i]] >= 2
  {
    assert s == s[..j] + s[j..];
    assert s[i] in s[..j] && s[i] in s[j..];
  }

  lemma CountedOnce(s: seq<nat>)
    requires forall t :: multiset(s)[t] <= 1
    ensures Distinct(s)
  {
    forall i, j | 0 <= i < j < |s| ensures s[i] != s[j] {
      if s[i] == s[j] {
        CountedTwice(s, i, j);
      }
    }
  }

  lemma {:induction false} UpToCounts(n: nat)
    ensures forall t: nat :: multiset(UpTo(n))[t] == if t < n then 1 else 0
  {
    if n > 0 {
      UpToCounts(n - 1);
      assert UpTo(n) == UpTo(n - 1) + [n - 1];
    }
  }

  lemma CountsOf(p: Pool)
    requires TaskInv(p) && p.taken == UpTo(|p.taken|)
    ensures forall t: nat ::
              multiset(p.finished)[t] + TasksRunning(p.workers)[t] == if t < |p.taken| then 1 else 0
  {
    UpToCounts(|p.taken|);
    forall t: nat
      ensures multiset(p.finished)[t] + TasksRunning(p.workers)[t] == if t < |p.taken| then 1 else 0
    {
      assert (multiset(p.finished) + TasksRunning(p.workers))[t] == multiset(p.taken)[t];
    }
  }

  // In every reachable state, tasks have been taken from the queue in the
  // order of their submission, and no task has been run twice or is running
  // a second time.
  lemma TasksRunAtMostOnceInOrder(n: nat, steps: seq<Step>)
    requires CanRun(Initial(n), steps)
    ensures var p := Run(Initial(n), steps);
            && |p.taken| <= Submitted(steps) && p.taken == UpTo(|p.taken|)
            && |p.taken| + |p.tasks| == Submitted(steps)
            && (forall t: nat :: multiset(p.finished)[t] + TasksRunning(p.workers)[t] == if t < |p.taken| then 1 else 0)
            && Distinct(p.finished)
  {
    InitialInv(n);
    RunKeepsInv(Initial(n), steps);
    var p := Run(Initial(n), steps);
    assert p.taken == UpTo(p.accepted)[..|p.taken|] == UpTo(|p.taken|);
    AcceptedExact(n, steps);
    assert |p.taken + p.tasks| == p.accepted;
    CountsOf(p);
    CountedOnce(p.finished);
  }

  // No lost wakeup: a worker sleeps only while every queued task has a
  // notification or a waking worker of its own to come; and once the
  // destructor has notified, none sleeps at all.
  lemma NoLostWakeup(n: nat, steps: seq<Step>)
    requires CanRun(Initial(n), steps)
    ensures var p := Run(Initial(n), steps);
            && (Sleepers(p) ==> |p.tasks| <= p.pending + Headed(p.workers))
            && (p.destructor.Joining? ==> !Sleepers(p))
            && (p.stop && Sleepers(p) ==> p.destructor == Stopped)
  {
    InitialInv(n);
    RunKeepsInv(Initial(n), steps);
  }

  // When the destructor's joins have completed, every task submitted before the
  // pool was stopped has run to its end exactly once.
  lemma DestroyedMeansDone(n: nat, steps: seq<Step>)
    requires n >= 1 && CanRun(Initial(n), steps) && Destroyed(Run(Initial(n), steps))
    ensures var p := Run(Initial(n), steps);
            p.tasks == [] && multiset(p.finished) == multiset(UpTo(Submitted(steps)))
  {
    AcceptedExact(n, steps);
    InitialInv(n);
    RunKeepsInv(Initial(n), steps);
    var p := Run(Initial(n), steps);
    assert p.workers[0] == Exited;
    AllFinished(p);
  }

  // hardware_concurrency() may be 0. A pool of no workers accepts tasks and
  // is destroyed without running them; a pool of any other size is safe.
  lemma WorkersNeeded(n: nat)
    ensures (forall steps :: CanRun(Initial(n), steps) && Destroyed(Run(Initial(n), steps)) ==>
               multiset(Run(Initial(n), steps).finished) == multiset(UpTo(Submitted(steps))))
            <==> n >= 1
  {
    if n >= 1 {
      forall steps | CanRun(Initial(n), steps) && Destroyed(Run(Initial(n), steps))
        ensures multiset(Run(Initial(n), steps).finished) == multiset(UpTo(Submitted(steps)))
      {
        DestroyedMeansDone(n, steps);
      }
    } else {
      var steps, p := AbandonedTask();
      AcceptedExact(0, steps);
      assert UpTo(p.accepted)[0] == 0;
    }
  }

  lemma RunFirst(p: Pool, step: Step, rest: seq<Step>)
    requires Enabled(p, step) && CanRun(Next(p, step), rest)
    ensures CanRun(p, [step] + rest) && Run(p, [step] + rest) == Run(Next(p, step), rest)
  {
  }

  lemma AbandonedTask() returns (steps: seq<Step>, p: Pool)
    ensures CanRun(Initial(0), steps) && Run(Initial(0), steps) == p
    ensures Destroyed(p) && p.accepted == 1 && p.finished == []
  {
    var p1 := Next(Initial(0), SubmitLock);
    var p2 := Next(p1, SubmitBody);
    var p3 := Next(p2, DestructorLock);
    var p4 := Next(p3, DestructorStop);
    p := Next(p4, DestructorNotify);
    RunFirst(p4, DestructorNotify, []);
    steps := [DestructorNotify] + [];
    RunFirst(p3, DestructorStop, steps);
    steps := [DestructorStop] + steps;
    RunFirst(p2, DestructorLock, steps);
    steps := [DestructorLock] + steps;
    RunFirst(p1, SubmitBody, steps);
    steps := [SubmitBody] + steps;
    RunFirst(Initial(0), SubmitLock, steps);
    steps := [SubmitLock] + steps;
  }

  // ---------------------------------------------------------------------
  // Progress and shutdown

  // Steps the pool takes by itself: neither a new call of submit or of the
  // destructor, nor a spurious wakeup.
  predicate OwnStep(step: Step) {
    !step.SubmitLock? && !step.DestructorLock? && !step.SpuriousWake?
  }

  // The pool has nothing left to do on its own: it is idle, or destroyed.
  predicate Quiescent(p: Pool) {
    && p.holder == Nobody && p.pending == 0
    && (forall i :: 0 <= i < |p.workers| ==> p.workers[i] == Asleep || p.workers[i] == Exited)
    && (p.destructor == NotStarted || Destroyed(p))
  }

  // No deadlock: the pool can always take a step by itself until it is
  // quiescent, and it is never quiescent with a task in the queue.
  lemma NoDeadlock(p: Pool) returns (step: Step)
    requires Inv(p) && |p.workers| >= 1
    ensures Quiescent(p) ==> p.tasks == []
    ensures !Quiescent(p) ==> OwnStep(step) && Enabled(p, step)
  {
    step := SubmitBody;
    if p.pending > 0 {
      step := NotifyOne(0);
      if i :| 0 <= i < |p.workers| && p.workers[i] == Asleep {
        step := NotifyOne(i);
      }
    } else if p.holder == HeldBySubmitter {
    } else if p.holder == HeldByDestructor {
      step := DestructorStop;
    } else if p.holder.HeldBy? {
      var i := p.holder.worker;
      step := if p.tasks != [] then WorkerTake(i) else if p.stop then WorkerExit(i) else WorkerSleep(i);
    } else if p.destructor == Stopped {
      step := DestructorNotify;
    } else if i :| 0 <= i < |p.workers| && p.workers[i].Running? {
      step := WorkerFinish(i);
    } else if i :| 0 <= i < |p.workers| && p.workers[i] == Locking {
      step := WorkerLock(i);
    } else if p.destructor.Joining? && !Destroyed(p) {
      step := DestructorJoin;
    } else {
      HeadedNone(p.workers);
      assert p.workers[0] == Asleep || p.workers[0] == Exited;
    }
  }

  lemma {:induction false} HeadedNone(ws: seq<Worker>)
    requires forall i :: 0 <= i < |ws| ==> ws[i] != Locking && ws[i] != Holding
    ensures Headed(ws) == 0
  {
    if ws != [] {
      HeadedNone(ws[1..]);
    }
  }

  // How many steps are left once the destructor has notified.
  const STEPS_LEFT := (w: Worker) =>
    match w
    case Locking => 2
    case Holding => 1
    case Asleep => 0
    case Running(_) => 3
    case Exited => 0

  function Left(p: Pool): nat
    requires p.destructor.Joining? && p.destructor.joined <= |p.workers|
  {
    3 * |p.tasks| + Sum(p.workers, STEPS_LEFT) + p.pending
    + (|p.workers| - p.destructor.joined) + (if p.holder == HeldBySubmitter then 1 else 0)
  }

  lemma StepsRunOut(p: Pool, step: Step)
    requires Inv(p) && p.destructor.Joining? && Enabled(p, step)
    ensures Next(p, step).destructor.Joining? && Next(p, step).destructor.joined <= |p.workers|
    ensures step == SubmitLock ==> Left(Next(p, step)) == Left(p) + 1
    ensures step != SubmitLock ==> Left(Next(p, step)) < Left(p)
  {
    match step
    case WorkerLock(i) => WorkerMoves(p, i, Holding);
    case WorkerTake(i) => WorkerMoves(p, i, Running(p.tasks[0]));
    case WorkerExit(i) => WorkerMoves(p, i, Exited);
    case WorkerFinish(i) => WorkerMoves(p, i, Locking);
    case _ =>
  }

  lemma WorkerMoves(p: Pool, i: nat, w: Worker)
    requires i < |p.workers|
    ensures Sum(p.workers[i := w], STEPS_LEFT) == Sum(p.workers, STEPS_LEFT) - STEPS_LEFT(p.workers[i]) + STEPS_LEFT(w)
  {
    SumUpdate(p.workers, i, w, STEPS_LEFT);
  }

  function Submissions(steps: seq<Step>): nat {
    if steps == [] then 0 else (if steps[0] == SubmitLock then 1 else 0) + Submissions(steps[1..])
  }

  // Shutdown ends: after notify_all, every run is bounded by what was left to
  // do, plus two steps for each submit that is still attempted.
  lemma {:induction false} ShutdownEnds(p: Pool, steps: seq<Step>)
    requires Inv(p) && p.destructor.Joining? && CanRun(p, steps)
    ensures |steps| <= Left(p) + 2 * Submissions(steps)
    decreases |steps|
  {
    if steps != [] {
      StepsRunOut(p, steps[0]);
      StepKeepsInv(p, steps[0]);
      ShutdownEnds(Next(p, steps[0]), steps[1..]);
    }
  }

  lemma OneStepLess(p: Pool, step: Step) returns (next: Pool)
    requires Inv(p) && p.destructor.Joining? && Enabled(p, step) && OwnStep(step)
    ensures next == Next(p, step) && Inv(next) && next.destructor.Joining?
    ensures Left(next) < Left(p) && |next.workers| == |p.workers| && next.accepted == p.accepted
  {
    StepsRunOut(p, step);
    StepKeepsInv(p, step);
    next := Next(p, step);
  }

  // And it ends well: left to itself, the pool takes steps until it is
  // destroyed, with every accepted task finished.
  lemma {:induction false} ShutdownCompletes(p: Pool) returns (steps: seq<Step>)
    requires Inv(p) && p.destructor.Joining? && |p.workers| >= 1
    ensures CanRun(p, steps) && forall s :: s in steps ==> OwnStep(s)
    ensures Destroyed(Run(p, steps))
    ensures multiset(Run(p, steps).finished) == multiset(UpTo(p.accepted))
    decreases Left(p)
  {
    var step := NoDeadlock(p);
    if Quiescent(p) {
      steps := [];
      AllFinished(p);
    } else {
      var next := OneStepLess(p, step);
      var rest := ShutdownCompletes(next);
      RunFirst(p, step, rest);
      steps := [step] + rest;
    }
  }

  lemma AllFinished(p: Pool)
    requires Inv(p) && p.tasks == [] && forall w :: w in p.workers ==> !w.Running?
    ensures multiset(p.finished) == multiset(UpTo(p.accepted))
  {
    assert p.taken + [] == p.taken;
    TasksRunningNone(p.workers);
  }
}
