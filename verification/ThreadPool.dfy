/**
 The thread pool of include/tiny_threadpool.h as a machine of atomic steps: the thread that starts the
 pool, any number of producers that then enqueue, core and extended workers, and `stop`.  Everything a worker does under
 the lock after its timed wait is one step; a wait that times out with nothing to do is `Wake` with
 `timeout`.

 `enqueue` tests the stop flag (:247) outside the lock it later pushes under (:267), and `stop` may come
 at any moment, also between the two.  `LostExactly` says when a task is lost through that.
 */
module ThreadPools {
  import opened Common

  type Task = nat

  datatype Flag = Core | Extended

  datatype ThreadState = Init | Running | Stopped

  /** Where a worker stands: at the head of its loop, in the timed wait, running a task, out of the loop
      but still counted, or gone. */
  datatype Pc = Top | Waits | Runs(task: Task) | Exiting | Gone

  datatype Worker = Worker(flag: Flag, st: ThreadState, pc: Pc)

  /** `start`: not called; with `left` core threads still to create; having created a thread it has not counted
      yet; returned. */
  datatype Starter = NotStarted | Starting(left: nat) | StartRaise(left: nat) | Started

  /** A producer: idle, or in `enqueue` past the test of the stop flag, with or without a thread it has created
      and not counted yet. */
  datatype Producer = Idle | EnqRaise(task: Task) | EnqPush(task: Task)

  /** History: the tasks accepted and dequeued, in order; `ran`, those whose execution has ended; and
      `late`, those pushed when no core worker was left. */
  datatype Pool = Pool(
    core: int, max: int, workers: seq<Worker>, tasks: seq<Task>, waitNum: int, totalNum: int, stop: bool,
    starter: Starter, producers: seq<Producer>, accepted: seq<Task>, dequeued: seq<Task>, ran: multiset<Task>, late: seq<Task>)

  datatype Step =
    | Start | Create | RaiseCore | EndStart | Enqueue(j: nat, task: Task) | Raise(j: nat) | Push(j: nat) | Stop
    | AtTop(i: nat) | Wake(i: nat, timeout: bool) | Finish(i: nat) | Exit(i: nat)

  function New(core: int, max: int, n: nat): Pool {
    Pool(core, max, [], [], 0, 0, false, NotStarted, seq(n, _ => Idle), [], [], multiset{}, [])
  }

  /** Some producer is in `enqueue` past the test of the stop flag. */
  predicate InEnqueue(p: Pool) { exists j :: 0 <= j < |p.producers| && !p.producers[j].Idle? }

  predicate Ready(p: Pool, w: Worker) { p.tasks != [] || w.st == Stopped || p.stop }

  predicate HasLeft(w: Worker) { w.pc == Exiting || w.pc == Gone }

  predicate AllCoreLeft(p: Pool) {
    forall i | 0 <= i < |p.workers| && p.workers[i].flag == Core :: HasLeft(p.workers[i])
  }

  predicate Enabled(p: Pool, step: Step) {
    match step
    case Start => p.starter.NotStarted?
    case Create => p.starter.Starting? && p.starter.left > 0
    case RaiseCore => p.starter.StartRaise?
    case EndStart => p.starter == Starting(0)
    case Enqueue(j, _) => p.starter.Started? && j < |p.producers| && p.producers[j].Idle?
    case Raise(j) => j < |p.producers| && p.producers[j].EnqRaise?
    case Push(j) => j < |p.producers| && p.producers[j].EnqPush?
    case Stop => true
    case AtTop(i) => i < |p.workers| && p.workers[i].pc == Top
    case Wake(i, timeout) => i < |p.workers| && p.workers[i].pc == Waits && (Ready(p, p.workers[i]) || timeout)
    case Finish(i) => i < |p.workers| && p.workers[i].pc.Runs?
    case Exit(i) => i < |p.workers| && p.workers[i].pc == Exiting
  }

  /** The decision a worker takes when its wait is over. */
  function AfterWait(p: Pool, i: nat): Pool
    requires i < |p.workers|
  {
    var w := p.workers[i];
    var q := p.(waitNum := p.waitNum - 1);
    if w.flag == Core then
      if !Ready(p, w) then q.(workers := p.workers[i := w.(pc := Top)])
      else if w.st == Stopped then q.(workers := p.workers[i := w.(pc := Exiting)])
      else if p.stop && p.tasks == [] then q.(workers := p.workers[i := w.(st := Stopped, pc := Exiting)])
      else Take(q, i)
    else
      if !Ready(p, w) || p.stop || w.st == Stopped then q.(workers := p.workers[i := w.(st := Stopped, pc := Exiting)])
      else Take(q, i)
  }

  /** The front task, if there is one. */
  function Take(p: Pool, i: nat): Pool
    requires i < |p.workers|
  {
    var w := p.workers[i].(st := Running);
    if p.tasks == [] then p.(workers := p.workers[i := w.(pc := Top)])
    else p.(workers := p.workers[i := w.(pc := Runs(p.tasks[0]))], tasks := p.tasks[1..], dequeued := p.dequeued + [p.tasks[0]])
  }

  function Next(p: Pool, step: Step): Pool {
    if !Enabled(p, step) then p
    else
      match step
      case Start => p.(starter := Starting(AtLeastZero(p.core)))
      case Create => p.(workers := p.workers + [Worker(Core, Init, Top)], starter := StartRaise(p.starter.left - 1))
      case RaiseCore => p.(totalNum := p.totalNum + 1, starter := Starting(p.starter.left))
      case EndStart => p.(starter := Started)
      case Enqueue(j, task) =>
        if p.stop then p
        else if p.waitNum == 0 && p.totalNum < p.max then
          p.(workers := p.workers + [Worker(Extended, Init, Top)], producers := p.producers[j := EnqRaise(task)])
        else p.(producers := p.producers[j := EnqPush(task)])
      case Raise(j) => p.(totalNum := p.totalNum + 1, producers := p.producers[j := EnqPush(p.producers[j].task)])
      case Push(j) =>
        var task := p.producers[j].task;
        p.(tasks := p.tasks + [task], accepted := p.accepted + [task], producers := p.producers[j := Idle],
           late := if AllCoreLeft(p) then p.late + [task] else p.late)
      case Stop => p.(stop := true)
      case AtTop(i) =>
        var w := p.workers[i];
        if w.st == Stopped then p.(workers := p.workers[i := w.(pc := Exiting)])
        else p.(workers := p.workers[i := w.(pc := Waits)], waitNum := p.waitNum + 1)
      case Wake(i, _) => AfterWait(p, i)
      case Finish(i) =>
        p.(workers := p.workers[i := p.workers[i].(pc := Top)], ran := p.ran + multiset{p.workers[i].pc.task})
      case Exit(i) =>
        p.(workers := p.workers[i := p.workers[i].(pc := Gone)], totalNum := p.totalNum - 1)
  }

  function Run(p: Pool, steps: seq<Step>): Pool
    decreases |steps|
  {
    if steps == [] then p else Run(Next(p, steps[0]), steps[1..])
  }

  // ---- Counting ----

  predicate IsWaiting(w: Worker) { w.pc == Waits }

  predicate IsCounted(w: Worker) { w.pc != Gone }

  predicate IsBusy(q: Producer) { !q.Idle? }

  predicate IsRaising(q: Producer) { q.EnqRaise? }

  function Count<T>(xs: seq<T>, f: T -> bool): nat {
    if xs == [] then 0 else Count(xs[..|xs| - 1], f) + Tally(f(xs[|xs| - 1]))
  }

  function IsRunning(task: Task): Worker -> bool {
    (w: Worker) => w.pc == Runs(task)
  }

  lemma {:induction false} CountUpdate<T>(xs: seq<T>, i: nat, x: T, f: T -> bool)
    requires i < |xs|
    ensures Count(xs[i := x], f) + Tally(f(xs[i])) == Count(xs, f) + Tally(f(x))
  {
    var n := |xs| - 1;
    if i < n {
      CountUpdate(xs[..n], i, x, f);
      assert xs[i := x][..n] == xs[..n][i := x];
    } else {
      assert xs[i := x][..n] == xs[..n];
    }
  }

  lemma CountSnoc<T>(xs: seq<T>, x: T, f: T -> bool)
    ensures Count(xs + [x], f) == Count(xs, f) + Tally(f(x))
  {
    assert (xs + [x])[..|xs|] == xs;
  }

  lemma {:induction false} CountAtMost<T>(xs: seq<T>, f: T -> bool)
    ensures Count(xs, f) <= |xs|
  {
    if xs != [] {
      CountAtMost(xs[..|xs| - 1], f);
    }
  }

  lemma {:induction false} CountNone<T>(xs: seq<T>, f: T -> bool)
    requires forall i | 0 <= i < |xs| :: !f(xs[i])
    ensures Count(xs, f) == 0
  {
    if xs != [] {
      CountNone(xs[..|xs| - 1], f);
    }
  }

  // ---- Invariants ----

  /** How often a task has been dequeued is how often it has been run, or is being run by a worker. */
  ghost predicate RunOnce(p: Pool, task: Task) {
    multiset(p.dequeued)[task] == p.ran[task] + Count(p.workers, IsRunning(task))
  }

  /** Tasks are dequeued in the order they were accepted, each by one worker, which runs it once. */
  ghost predicate TasksOk(p: Pool) {
    p.accepted == p.dequeued + p.tasks && forall task :: RunOnce(p, task)
  }

  /** A worker is stopped exactly when it has left its loop, a core worker only in a stopped pool. */
  ghost predicate LeaveOk(p: Pool) {
    && (forall i | 0 <= i < |p.workers| :: p.workers[i].st == Stopped <==> HasLeft(p.workers[i]))
    && (forall i | 0 <= i < |p.workers| && p.workers[i].flag == Core && HasLeft(p.workers[i]) :: p.stop)
  }

  /** Once the core workers have left, exactly the late tasks are queued: at most one for every producer that
      is not in `enqueue` any more. */
  ghost predicate LateOk(p: Pool) {
    CoreFirst(p) ==>
      && (AllCoreLeft(p) ==> p.tasks == p.late)
      && (p.late != [] ==> p.stop && AllCoreLeft(p))
      && |p.late| + Count(p.producers, IsBusy) <= |p.producers|
  }

  /** The waiting counter counts the waiting workers, the total counter those that have not lowered it;
      a thread just created is counted a moment later.  Producers that have all seen room for one more thread
      may each create one. */
  ghost predicate CountersOk(p: Pool) {
    && p.waitNum == Count(p.workers, IsWaiting)
    && p.totalNum == Count(p.workers, IsCounted) - Tally(p.starter.StartRaise?) - Count(p.producers, IsRaising)
    && match p.starter
       case NotStarted => p.totalNum == 0 && p.workers == []
       case Starting(left) => p.totalNum + left <= AtLeastZero(p.core)
       case StartRaise(left) => p.totalNum + left < AtLeastZero(p.core)
       case Started => p.totalNum + Count(p.producers, IsRaising) <= MostThreads(p)
  }

  function MostThreads(p: Pool): int { Max(AtLeastZero(p.core), p.max - 1 + |p.producers|) }

  predicate CoreFirst(p: Pool) { p.workers != [] && p.workers[0].flag == Core }

  /** Nothing is enqueued before the pool is started; with core threads configured, the first worker is
      one. */
  ghost predicate StartOk(p: Pool) {
    && (!p.starter.Started? ==> p.tasks == p.late == [] && forall j | 0 <= j < |p.producers| :: p.producers[j].Idle?)
    && match p.starter
       case NotStarted => p.workers == []
       case Starting(left) =>
         left <= AtLeastZero(p.core) && (if left < AtLeastZero(p.core) then CoreFirst(p) else p.workers == [])
       case StartRaise(left) => left < AtLeastZero(p.core) && CoreFirst(p)
       case Started => p.core > 0 ==> CoreFirst(p)
  }

  ghost predicate Good(p: Pool) { TasksOk(p) && LeaveOk(p) && LateOk(p) && CountersOk(p) && StartOk(p) }

  lemma NextStart(p: Pool, step: Step)
    requires StartOk(p)
    ensures StartOk(Next(p, step))
  {
    if Enabled(p, step) {
      match step
      case AtTop(i) => WorkerStart(p, Next(p, step), i);
      case Wake(i, _) => WorkerStart(p, AfterWait(p, i), i);
      case Finish(i) => WorkerStart(p, Next(p, step), i);
      case Exit(i) => WorkerStart(p, Next(p, step), i);
      case _ =>
        hide AfterWait;
        ProducerStart(p, step);
    }
  }

  lemma ProducerStart(p: Pool, step: Step)
    requires StartOk(p) && !step.Wake? && !step.AtTop? && !step.Finish? && !step.Exit?
    ensures StartOk(Next(p, step))
  {
  }

  lemma WorkerStart(p: Pool, q: Pool, i: nat)
    requires StartOk(p) && i < |p.workers| == |q.workers| && q.workers == p.workers[i := q.workers[i]]
    requires q.workers[i].flag == p.workers[i].flag && q.starter == p.starter && q.producers == p.producers && q.core == p.core && q.late == p.late
    requires p.tasks == [] ==> q.tasks == []
    ensures StartOk(q)
  {
  }

  lemma NextFifo(p: Pool, step: Step)
    requires p.accepted == p.dequeued + p.tasks
    ensures Next(p, step).accepted == Next(p, step).dequeued + Next(p, step).tasks
  {
  }

  lemma WakeRunOnce(p: Pool, i: nat, task: Task)
    requires RunOnce(p, task) && i < |p.workers| && p.workers[i].pc == Waits
    ensures RunOnce(AfterWait(p, i), task)
  {
    hide Count;
    CountUpdate(p.workers, i, AfterWait(p, i).workers[i], IsRunning(task));
  }

  lemma FinishRunOnce(p: Pool, i: nat, task: Task)
    requires RunOnce(p, task) && Enabled(p, Finish(i))
    ensures RunOnce(Next(p, Finish(i)), task)
  {
    CountUpdate(p.workers, i, Next(p, Finish(i)).workers[i], IsRunning(task));
  }

  /** A worker that neither takes nor finishes a task. */
  lemma IdleRunOnce(p: Pool, i: nat, w: Worker, task: Task)
    requires RunOnce(p, task) && i < |p.workers| && !p.workers[i].pc.Runs? && !w.pc.Runs?
    ensures RunOnce(p.(workers := p.workers[i := w]), task)
  {
    CountUpdate(p.workers, i, w, IsRunning(task));
  }

  /** A new worker runs nothing. */
  lemma CreateRunOnce(p: Pool, w: Worker, task: Task)
    requires RunOnce(p, task) && !w.pc.Runs?
    ensures RunOnce(p.(workers := p.workers + [w]), task)
  {
    hide Count;
    CountSnoc(p.workers, w, IsRunning(task));
  }

  lemma SameRunOnce(p: Pool, q: Pool, task: Task)
    requires RunOnce(p, task) && q.workers == p.workers && q.dequeued == p.dequeued && q.ran == p.ran
    ensures RunOnce(q, task)
  {
  }

  lemma EnqueueRunOnce(p: Pool, j: nat, added: Task, task: Task)
    requires RunOnce(p, task) && Enabled(p, Enqueue(j, added))
    ensures RunOnce(Next(p, Enqueue(j, added)), task)
  {
    hide RunOnce;
    var w := Worker(Extended, Init, Top);
    CreateRunOnce(p, w, task);
    SameRunOnce(p, p.(producers := p.producers[j := EnqPush(added)]), task);
    SameRunOnce(p.(workers := p.workers + [w]),
                p.(workers := p.workers + [w], producers := p.producers[j := EnqRaise(added)]), task);
  }

  lemma StartRunOnce(p: Pool, step: Step, task: Task)
    requires RunOnce(p, task) && (step.Start? || step.Create? || step.RaiseCore? || step.EndStart? || step.Raise?)
    ensures RunOnce(Next(p, step), task)
  {
    hide RunOnce;
    if step.Create? && Enabled(p, step) {
      var w := Worker(Core, Init, Top);
      CreateRunOnce(p, w, task);
      SameRunOnce(p.(workers := p.workers + [w]), Next(p, step), task);
    } else {
      SameRunOnce(p, Next(p, step), task);
    }
  }

  /** The head of a worker's loop and its end. */
  lemma EdgeRunOnce(p: Pool, step: Step, i: nat, task: Task)
    requires RunOnce(p, task) && (step == AtTop(i) || step == Exit(i)) && Enabled(p, step)
    ensures RunOnce(Next(p, step), task)
  {
    hide RunOnce;
    var w := Next(p, step).workers[i];
    IdleRunOnce(p, i, w, task);
    SameRunOnce(p.(workers := p.workers[i := w]), Next(p, step), task);
  }

  lemma NextRunOnce(p: Pool, step: Step, task: Task)
    requires RunOnce(p, task)
    ensures RunOnce(Next(p, step), task)
  {
    hide RunOnce, AfterWait;
    match step
    case Enqueue(j, added) => if Enabled(p, step) { EnqueueRunOnce(p, j, added, task); }
    case AtTop(i) => if Enabled(p, step) { EdgeRunOnce(p, step, i, task); }
    case Wake(i, _) => if Enabled(p, step) { WakeRunOnce(p, i, task); }
    case Finish(i) => if Enabled(p, step) { FinishRunOnce(p, i, task); }
    case Exit(i) => if Enabled(p, step) { EdgeRunOnce(p, step, i, task); }
    case Push(_) => SameRunOnce(p, Next(p, step), task);
    case Stop => SameRunOnce(p, Next(p, step), task);
    case _ => StartRunOnce(p, step, task);
  }

  lemma NextTasks(p: Pool, step: Step)
    requires TasksOk(p)
    ensures TasksOk(Next(p, step))
  {
    hide Next, RunOnce;
    NextFifo(p, step);
    forall task
      ensures RunOnce(Next(p, step), task)
    {
      NextRunOnce(p, step, task);
    }
  }

  lemma NextLeave(p: Pool, step: Step)
    requires LeaveOk(p)
    ensures LeaveOk(Next(p, step))
  {
    if Enabled(p, step) {
      match step
      case Wake(i, _) => WakeLeave(p, i);
      case _ =>
        hide AfterWait;
        OtherLeave(p, step);
    }
  }

  lemma WakeLeave(p: Pool, i: nat)
    requires LeaveOk(p) && i < |p.workers| && p.workers[i].pc == Waits
    ensures LeaveOk(AfterWait(p, i))
  {
  }

  lemma OtherLeave(p: Pool, step: Step)
    requires LeaveOk(p) && !step.Wake?
    ensures LeaveOk(Next(p, step))
  {
  }

  lemma NextLate(p: Pool, step: Step)
    requires LeaveOk(p) && LateOk(p) && StartOk(p)
    ensures LateOk(Next(p, step))
  {
    if Enabled(p, step) {
      match step
      case Wake(i, _) => WorkerLate(p, step, i);
      case AtTop(i) => WorkerLate(p, step, i);
      case Finish(i) => WorkerLate(p, step, i);
      case Exit(i) => WorkerLate(p, step, i);
      case _ => ProducerLate(p, step);
    }
  }

  lemma ProducerLate(p: Pool, step: Step)
    requires LeaveOk(p) && LateOk(p) && StartOk(p) && Enabled(p, step)
    requires !step.Wake? && !step.AtTop? && !step.Finish? && !step.Exit?
    ensures LateOk(Next(p, step))
  {
    hide Count;
    var q := Next(p, step);
    assert forall i | 0 <= i < |p.workers| :: q.workers[i] == p.workers[i];
    match step
    case Create =>
      assert q.workers[|p.workers|].flag == Core;
      CountNone(p.producers, IsBusy);
    case Enqueue(j, _) =>
      CountUpdate(p.producers, j, q.producers[j], IsBusy);
      CountAtMost(q.producers, IsBusy);
    case Raise(j) => CountUpdate(p.producers, j, q.producers[j], IsBusy);
    case Push(j) => CountUpdate(p.producers, j, Idle, IsBusy);
    case _ =>
  }

  lemma WorkerLate(p: Pool, step: Step, i: nat)
    requires LeaveOk(p) && LateOk(p) && Enabled(p, step)
    requires step == AtTop(i) || step == Finish(i) || step == Exit(i) || (step.Wake? && step.i == i)
    ensures LateOk(Next(p, step))
  {
    hide Count;
    var q := Next(p, step);
    assert forall j | 0 <= j < |p.workers| && j != i :: q.workers[j] == p.workers[j];
    assert q.workers[i].flag == p.workers[i].flag;
  }

  lemma NextCounters(p: Pool, step: Step)
    requires StartOk(p) && CountersOk(p)
    ensures CountersOk(Next(p, step))
  {
    hide AfterWait;
    if Enabled(p, step) {
      match step
      case AtTop(i) => WorkerStep(p, step, i);
      case Wake(i, _) => WorkerStep(p, step, i);
      case Finish(i) => WorkerStep(p, step, i);
      case Exit(i) => WorkerStep(p, step, i);
      case Enqueue(j, task) => EnqueueCounters(p, j, task);
      case Raise(j) => ProducerCounters(p, step, j);
      case Push(j) => ProducerCounters(p, step, j);
      case _ => StarterCounters(p, step);
    }
  }

  lemma StarterCounters(p: Pool, step: Step)
    requires StartOk(p) && CountersOk(p) && Enabled(p, step)
    requires step.Start? || step.Create? || step.RaiseCore? || step.EndStart? || step.Stop?
    ensures CountersOk(Next(p, step))
  {
    hide Count;
    CountersSnoc(p.workers, Worker(Core, Init, Top));
    if !step.Stop? {
      CountNone(p.producers, IsRaising);
    }
  }

  lemma EnqueueCounters(p: Pool, j: nat, task: Task)
    requires CountersOk(p) && Enabled(p, Enqueue(j, task))
    ensures CountersOk(Next(p, Enqueue(j, task)))
  {
    hide Count;
    CountersSnoc(p.workers, Worker(Extended, Init, Top));
    CountUpdate(p.producers, j, EnqRaise(task), IsRaising);
    CountAtMost(p.producers[j := EnqRaise(task)], IsRaising);
    CountUpdate(p.producers, j, EnqPush(task), IsRaising);
  }

  lemma ProducerCounters(p: Pool, step: Step, j: nat)
    requires StartOk(p) && CountersOk(p) && Enabled(p, step) && (step == Raise(j) || step == Push(j))
    ensures CountersOk(Next(p, step))
  {
    hide Count;
    CountUpdate(p.producers, j, Next(p, step).producers[j], IsRaising);
  }

  lemma WorkerStep(p: Pool, step: Step, i: nat)
    requires CountersOk(p) && Enabled(p, step)
    requires step == AtTop(i) || step == Finish(i) || step == Exit(i) || (step.Wake? && step.i == i)
    ensures CountersOk(Next(p, step))
  {
    hide CountersOk, Count;
    NotStartedEmpty(p);
    WorkerCounters(p, Next(p, step), i);
  }

  lemma NotStartedEmpty(p: Pool)
    requires CountersOk(p)
    ensures p.starter.NotStarted? ==> p.workers == []
  {
  }

  /** A worker's step that keeps its own part of the counters. */
  lemma WorkerCounters(p: Pool, q: Pool, i: nat)
    requires CountersOk(p) && i < |p.workers| && |q.workers| == |p.workers| && q.workers == p.workers[i := q.workers[i]]
    requires q.starter == p.starter && q.producers == p.producers && q.core == p.core && q.max == p.max
    requires q.waitNum - Tally(IsWaiting(q.workers[i])) == p.waitNum - Tally(IsWaiting(p.workers[i]))
    requires q.totalNum - Tally(IsCounted(q.workers[i])) == p.totalNum - Tally(IsCounted(p.workers[i]))
    requires q.totalNum <= p.totalNum && (p.starter.NotStarted? ==> p.workers == [])
    ensures CountersOk(q)
  {
    CountersUpdate(p.workers, i, q.workers[i]);
  }

  lemma CountersUpdate(ws: seq<Worker>, i: nat, w: Worker)
    requires i < |ws|
    ensures Count(ws[i := w], IsWaiting) + Tally(IsWaiting(ws[i])) == Count(ws, IsWaiting) + Tally(IsWaiting(w))
    ensures Count(ws[i := w], IsCounted) + Tally(IsCounted(ws[i])) == Count(ws, IsCounted) + Tally(IsCounted(w))
  {
    CountUpdate(ws, i, w, IsWaiting);
    CountUpdate(ws, i, w, IsCounted);
  }

  lemma CountersSnoc(ws: seq<Worker>, w: Worker)
    ensures Count(ws + [w], IsWaiting) == Count(ws, IsWaiting) + Tally(IsWaiting(w))
    ensures Count(ws + [w], IsCounted) == Count(ws, IsCounted) + Tally(IsCounted(w))
  {
    CountSnoc(ws, w, IsWaiting);
    CountSnoc(ws, w, IsCounted);
  }

  lemma NextKeepsConfig(p: Pool, step: Step)
    ensures Next(p, step).core == p.core && Next(p, step).max == p.max && |Next(p, step).producers| == |p.producers|
  {
  }

  // ---- Every run ----

  lemma {:induction false} RunGood(p: Pool, steps: seq<Step>)
    requires Good(p)
    ensures Good(Run(p, steps)) && Run(p, steps).core == p.core && Run(p, steps).max == p.max
    ensures |Run(p, steps).producers| == |p.producers|
    decreases |steps|
  {
    hide TasksOk, LeaveOk, LateOk, CountersOk, StartOk, Next;
    if steps != [] {
      NextStart(p, steps[0]);
      NextTasks(p, steps[0]);
      NextLeave(p, steps[0]);
      NextLate(p, steps[0]);
      NextCounters(p, steps[0]);
      NextKeepsConfig(p, steps[0]);
      RunGood(Next(p, steps[0]), steps[1..]);
    }
  }

  lemma NewGood(core: int, max: int, n: nat)
    ensures Good(New(core, max, n))
  {
    CountNone(New(core, max, n).producers, IsBusy);
    CountNone(New(core, max, n).producers, IsRaising);
  }

  /** In every run, whenever `stop` comes: tasks leave the queue in the order of acceptance, each once; and
      while a task is queued that was not pushed late, a core worker has not left. */
  lemma NoTaskIsLost(core: int, max: int, n: nat, steps: seq<Step>)
    ensures var p := Run(New(core, max, n), steps);
            && p.accepted == p.dequeued + p.tasks
            && (forall task :: multiset(p.accepted)[task] == multiset(p.tasks)[task] + p.ran[task] + Count(p.workers, IsRunning(task)))
            && (core > 0 && p.tasks != p.late ==> !AllCoreLeft(p))
  {
    NewGood(core, max, n);
    RunGood(New(core, max, n), steps);
    var p := Run(New(core, max, n), steps);
    forall task
      ensures multiset(p.accepted)[task] == multiset(p.tasks)[task] + p.ran[task] + Count(p.workers, IsRunning(task))
    {
      assert RunOnce(p, task);
    }
  }

  /** With core threads configured, once all workers have left every accepted task has been dequeued
      exactly if none was pushed after the last core worker had left; and at most one task is lost for every
      producer. */
  lemma LostExactly(core: int, max: int, n: nat, steps: seq<Step>)
    requires core > 0
    requires forall w | w in Run(New(core, max, n), steps).workers :: HasLeft(w)
    ensures var p := Run(New(core, max, n), steps);
            && (p.accepted == p.dequeued <==> p.late == [])
            && p.accepted == p.dequeued + p.late && |p.late| <= n
  {
    NewGood(core, max, n);
    RunGood(New(core, max, n), steps);
    var p := Run(New(core, max, n), steps);
    EveryoneLeft(p);
    if p.accepted == p.dequeued {
      assert |p.late| == |p.dequeued + p.late| - |p.dequeued|;
    }
  }

  lemma EveryoneLeft(p: Pool)
    requires Good(p) && p.core > 0 && forall w | w in p.workers :: HasLeft(w)
    ensures p.tasks == p.late && |p.late| <= |p.producers|
  {
    forall i | 0 <= i < |p.workers|
      ensures HasLeft(p.workers[i])
    {
      assert p.workers[i] in p.workers;
    }
  }

  // ---- A late task is never run ----

  /** The pool is started and its core workers have left. */
  predicate Abandoned(p: Pool) { p.starter.Started? && CoreFirst(p) && AllCoreLeft(p) }

  lemma NextFrozen(p: Pool, step: Step)
    requires LeaveOk(p) && LateOk(p) && Abandoned(p)
    ensures var q := Next(p, step);
            && Abandoned(q) && q.dequeued == p.dequeued && p.late <= q.late
            && |q.accepted| - |p.accepted| == |q.late| - |p.late|
            && |q.late| + Count(q.producers, IsBusy) <= |p.late| + Count(p.producers, IsBusy)
  {
    hide Count;
    assert p.stop by {
      assert p.workers[0].flag == Core;
    }
    var q := Next(p, step);
    assert forall i | 0 <= i < |p.workers| && p.workers[i].flag == Core :: q.workers[i].flag == Core && HasLeft(q.workers[i]);
    if Enabled(p, step) {
      match step
      case Raise(j) => CountUpdate(p.producers, j, q.producers[j], IsBusy);
      case Push(j) => CountUpdate(p.producers, j, Idle, IsBusy);
      case _ =>
    }
  }

  /** Once the core workers have left nothing is dequeued any more, and accepted are only late tasks, at most one
      from every producer in `enqueue` at that moment. */
  lemma {:induction false} RunFrozen(p: Pool, steps: seq<Step>)
    requires Good(p) && Abandoned(p)
    ensures var q := Run(p, steps);
            && q.dequeued == p.dequeued && p.late <= q.late && |q.accepted| - |p.accepted| == |q.late| - |p.late|
            && |q.late| + Count(q.producers, IsBusy) <= |p.late| + Count(p.producers, IsBusy)
    decreases |steps|
  {
    hide Good, Abandoned, Next, Count;
    if steps != [] {
      GoodParts(p);
      NextFrozen(p, steps[0]);
      RunGood(p, [steps[0]]);
      RunOne(p, steps[0]);
      RunFrozen(Next(p, steps[0]), steps[1..]);
    }
  }

  lemma GoodParts(p: Pool)
    requires Good(p)
    ensures LeaveOk(p) && LateOk(p) && StartOk(p) && p.accepted == p.dequeued + p.tasks
  {
  }

  lemma RunOne(p: Pool, step: Step)
    ensures Run(p, [step]) == Next(p, step)
  {
    hide Next;
    assert [step][1..] == [];
  }

  /** Late tasks are among those accepted in the meantime. */
  lemma {:induction false} RunCounts(p: Pool, steps: seq<Step>)
    ensures |Run(p, steps).accepted| - |Run(p, steps).late| >= |p.accepted| - |p.late|
    decreases |steps|
  {
    if steps != [] {
      NextCounts(p, steps[0]);
      hide Next;
      RunCounts(Next(p, steps[0]), steps[1..]);
    }
  }

  lemma NextCounts(p: Pool, step: Step)
    ensures |Next(p, step).accepted| - |Next(p, step).late| >= |p.accepted| - |p.late|
  {
  }

  /** The exact condition for one push: whatever happens afterwards, once all workers have left the task has
      been dequeued if and only if a core worker had not left when it was pushed. */
  lemma PushExact(p: Pool, j: nat, steps: seq<Step>)
    requires Good(p) && p.core > 0 && j < |p.producers| && p.producers[j].EnqPush?
    requires forall w | w in Run(Next(p, Push(j)), steps).workers :: HasLeft(w)
    ensures |Run(Next(p, Push(j)), steps).dequeued| > |p.accepted| <==> !AllCoreLeft(p)
  {
    hide Good, Run;
    var s := Next(p, Push(j));
    RunGood(p, [Push(j)]);
    RunOne(p, Push(j));
    GoodParts(p);
    RunGood(s, steps);
    var q := Run(s, steps);
    EveryoneLeft(q);
    GoodParts(q);
    if AllCoreLeft(p) {
      RunFrozen(s, steps);
    } else {
      RunCounts(s, steps);
    }
  }

  // ---- What a worker takes ----

  /** The end of a worker's wait, in any reachable state.  It dequeues and runs the front task exactly if there is
      one and the pool is not stopped, or the worker is a core one; it leaves exactly if the pool is stopped and
      leaves it nothing to do, or it is an extended one that has nothing to do; otherwise it goes round again. */
  lemma WakeExact(p: Pool, i: nat, timeout: bool)
    requires LeaveOk(p) && Enabled(p, Wake(i, timeout))
    ensures var q, core := Next(p, Wake(i, timeout)), p.workers[i].flag == Core;
            && |q.workers| == |p.workers|
            && (if p.tasks != [] && (core || !p.stop)
                then q.dequeued == p.dequeued + [p.tasks[0]] && q.tasks == p.tasks[1..] && q.workers[i].pc == Runs(p.tasks[0])
                else q.dequeued == p.dequeued && q.tasks == p.tasks && !q.workers[i].pc.Runs?)
            && (HasLeft(q.workers[i]) <==> if core then p.stop && p.tasks == [] else p.stop || p.tasks == [])
            && (forall j | 0 <= j < |p.workers| && j != i :: q.workers[j] == p.workers[j])
  {
  }

  /** One round of a worker that nothing disturbs. */
  function Round(i: nat): seq<Step> { [AtTop(i), Wake(i, false), Finish(i)] }

  function RoundsOf(i: nat, n: nat): seq<Step> {
    if n == 0 then [] else Round(i) + RoundsOf(i, n - 1)
  }

  /** The worker can begin a round, and takes tasks. */
  predicate CanWork(p: Pool, i: nat) {
    i < |p.workers| && p.workers[i].pc == Top && p.workers[i].st != Stopped && (p.stop ==> p.workers[i].flag == Core)
  }

  lemma RunThree(p: Pool, a: Step, b: Step, c: Step)
    ensures Run(p, [a, b, c]) == Next(Next(Next(p, a), b), c)
  {
    hide Next;
    assert [a, b, c][1..] == [b, c] && [b, c][1..] == [c] && [c][1..] == [];
    assert Run(Next(p, a), [b, c]) == Run(Next(Next(p, a), b), [c]);
    assert Run(Next(Next(p, a), b), [c]) == Run(Next(Next(Next(p, a), b), c), []);
  }

  /** A round of a worker that finds a task. */
  lemma RoundRunsFront(p: Pool, i: nat)
    requires CanWork(p, i) && p.tasks != []
    ensures var q := Run(p, Round(i));
            && q.dequeued == p.dequeued + [p.tasks[0]] && q.tasks == p.tasks[1..]
            && q.ran == p.ran + multiset{p.tasks[0]} && q.stop == p.stop && CanWork(q, i)
  {
    hide Run;
    RunThree(p, AtTop(i), Wake(i, false), Finish(i));
    var w := p.workers[i];
    var waiting := Next(p, AtTop(i));
    assert waiting.workers[i] == w.(pc := Waits) && waiting.tasks == p.tasks && waiting.stop == p.stop;
    var taken := Next(waiting, Wake(i, false));
    assert taken.workers[i] == w.(st := Running, pc := Runs(p.tasks[0]));
  }

  /** A worker left alone runs all that is queued, in its order: a core worker also once the pool is stopped. */
  lemma {:induction false} WorkerRunsAll(p: Pool, i: nat)
    requires CanWork(p, i)
    ensures var q := Run(p, RoundsOf(i, |p.tasks|));
            && q.tasks == [] && q.dequeued == p.dequeued + p.tasks && q.ran == p.ran + multiset(p.tasks) && CanWork(q, i)
    decreases |p.tasks|
  {
    hide Next, CanWork, Run;
    if p.tasks == [] {
      RunNone(p);
      assert p.dequeued + [] == p.dequeued;
    } else {
      RoundRunsFront(p, i);
      var q := Run(p, Round(i));
      RunAppend(p, Round(i), RoundsOf(i, |p.tasks| - 1));
      WorkerRunsAll(q, i);
      assert p.tasks == [p.tasks[0]] + p.tasks[1..];
      assert p.dequeued + [p.tasks[0]] + p.tasks[1..] == p.dequeued + p.tasks;
    }
  }

  lemma RunNone(p: Pool)
    ensures Run(p, []) == p
  {
  }

  // ---- Which workers there are ----

  predicate IsCore(w: Worker) { w.flag == Core }

  /** As many core workers have been created as the start has got to. */
  ghost predicate CoresOk(p: Pool) {
    Count(p.workers, IsCore)
    == match p.starter
       case NotStarted => 0
       case Starting(left) => AtLeastZero(p.core) - left
       case StartRaise(left) => AtLeastZero(p.core) - left
       case Started => AtLeastZero(p.core)
  }

  lemma NextCores(p: Pool, step: Step)
    requires CoresOk(p) && (p.starter.NotStarted? ==> p.workers == [])
    ensures CoresOk(Next(p, step)) && (Next(p, step).starter.NotStarted? ==> Next(p, step).workers == [])
  {
    hide Count, AfterWait;
    CountSnoc(p.workers, Worker(Core, Init, Top), IsCore);
    CountSnoc(p.workers, Worker(Extended, Init, Top), IsCore);
    if Enabled(p, step) && (step.AtTop? || step.Wake? || step.Finish? || step.Exit?) {
      if step.Wake? {
        WakeKeepsFlags(p, step.i);
      }
      CountUpdate(p.workers, step.i, Next(p, step).workers[step.i], IsCore);
    }
  }

  lemma WakeKeepsFlags(p: Pool, i: nat)
    requires i < |p.workers|
    ensures var q := AfterWait(p, i);
            && |q.workers| == |p.workers| && q.workers == p.workers[i := q.workers[i]]
            && q.workers[i].flag == p.workers[i].flag && q.starter == p.starter && q.core == p.core
  {
  }

  /** In every run, once `start` has returned there are exactly as many core workers as configured. */
  lemma {:induction false} RunCores(p: Pool, steps: seq<Step>)
    requires CoresOk(p) && (p.starter.NotStarted? ==> p.workers == [])
    ensures CoresOk(Run(p, steps)) && Run(p, steps).core == p.core
    decreases |steps|
  {
    hide Next, CoresOk;
    if steps != [] {
      NextCores(p, steps[0]);
      NextKeepsConfig(p, steps[0]);
      RunCores(Next(p, steps[0]), steps[1..]);
    }
  }

  lemma CoreWorkersAreThere(core: int, max: int, n: nat, steps: seq<Step>)
    requires Run(New(core, max, n), steps).starter.Started?
    ensures Count(Run(New(core, max, n), steps).workers, IsCore) == AtLeastZero(core)
  {
    RunCores(New(core, max, n), steps);
  }

  /** `enqueue` adds an extended worker exactly if no worker is waiting and those counted are fewer than the limit;
      in a stopped pool it does nothing. */
  lemma EnqueueExact(p: Pool, j: nat, task: Task)
    requires CountersOk(p) && Enabled(p, Enqueue(j, task))
    ensures var q := Next(p, Enqueue(j, task));
            var grows := !p.stop && Count(p.workers, IsWaiting) == 0
                         && Count(p.workers, IsCounted) - Count(p.producers, IsRaising) < p.max;
            && q.workers == (if grows then p.workers + [Worker(Extended, Init, Top)] else p.workers)
            && q.producers[j] == (if p.stop then Idle else if grows then EnqRaise(task) else EnqPush(task))
            && q.tasks == p.tasks && q.accepted == p.accepted
  {
    hide Count;
  }

  // ---- Stop outside enqueue ----

  /** `stop` at no moment between the test and the push of `enqueue`. */
  predicate StopsOutside(p: Pool, steps: seq<Step>)
    decreases |steps|
  {
    steps != [] ==> (steps[0].Stop? ==> !InEnqueue(p)) && StopsOutside(Next(p, steps[0]), steps[1..])
  }

  ghost predicate DrainOk(p: Pool) {
    && (p.stop ==> !InEnqueue(p))
    && (forall i | 0 <= i < |p.workers| && p.workers[i].flag == Core && HasLeft(p.workers[i]) :: p.tasks == [])
  }

  lemma NextDrain(p: Pool, step: Step)
    requires LeaveOk(p) && DrainOk(p) && (step.Stop? ==> !InEnqueue(p))
    ensures DrainOk(Next(p, step))
  {
    if Enabled(p, step) {
      match step
      case Wake(i, _) => WakeDrain(p, i);
      case _ =>
    }
  }

  lemma WakeDrain(p: Pool, i: nat)
    requires LeaveOk(p) && DrainOk(p) && i < |p.workers| && p.workers[i].pc == Waits
    ensures DrainOk(AfterWait(p, i))
  {
  }

  lemma {:induction false} RunDrain(p: Pool, steps: seq<Step>)
    requires LeaveOk(p) && DrainOk(p) && StopsOutside(p, steps)
    ensures DrainOk(Run(p, steps))
    decreases |steps|
  {
    hide LeaveOk, DrainOk, Next;
    if steps != [] {
      NextLeave(p, steps[0]);
      NextDrain(p, steps[0]);
      RunDrain(Next(p, steps[0]), steps[1..]);
    }
  }

  /** With core threads configured and `stop` outside `enqueue`: a core worker leaves only an empty queue, and
      in every reachable state in which all workers have left every accepted task has been dequeued. */
  lemma AllLeftMeansDrained(core: int, max: int, n: nat, steps: seq<Step>)
    requires core > 0 && StopsOutside(New(core, max, n), steps)
    ensures var p := Run(New(core, max, n), steps);
            && (p.tasks != [] ==> forall i | 0 <= i < |p.workers| && p.workers[i].flag == Core :: !HasLeft(p.workers[i]))
            && ((forall w | w in p.workers :: HasLeft(w)) ==> p.tasks == [] && p.accepted == p.dequeued)
  {
    NewGood(core, max, n);
    RunGood(New(core, max, n), steps);
    RunDrain(New(core, max, n), steps);
    var p := Run(New(core, max, n), steps);
    if CoreFirst(p) {
      assert p.workers[0] in p.workers;
    }
  }

  // ---- The counters ----

  /** In every run the waiting counter counts the waiting workers, and the total counter stays within the
      larger of the configured sizes, but for one thread more for every producer after the first. */
  lemma CountersAreRight(core: int, max: int, n: nat, steps: seq<Step>)
    ensures var p := Run(New(core, max, n), steps);
            && p.waitNum == Count(p.workers, IsWaiting) >= 0
            && p.totalNum <= Max(AtLeastZero(core), max - 1 + n)
            && p.totalNum == Count(p.workers, IsCounted) - Tally(p.starter.StartRaise?) - Count(p.producers, IsRaising)
  {
    NewGood(core, max, n);
    RunGood(New(core, max, n), steps);
  }

  // ---- Stop between the test and the push ----

  /** A run in which `stop` falls between the test and the push: the task is accepted, and nobody is left. */
  lemma PushAfterStopLosesTask()
    ensures var p := Run(New(1, 1, 1), [Start, Create, RaiseCore, EndStart, Enqueue(0, 7), Stop, AtTop(0), Wake(0, false), Exit(0), Push(0)]);
            p.accepted == p.late == p.tasks == [7] && |p.workers| == 1 && p.workers[0].pc == Gone
  {
    hide Run, Next;
    var tested := New(1, 1, 1).(workers := [Worker(Core, Init, Top)], totalNum := 1, starter := Started, producers := [EnqPush(7)]);
    var p, stopped := New(1, 1, 1), tested.(stop := true);
    var steps := [Start, Create, RaiseCore, EndStart, Enqueue(0, 7)];
    var rest := [Stop, AtTop(0), Wake(0, false), Exit(0), Push(0)];
    RunFive(p, Start, Create, RaiseCore, EndStart, Enqueue(0, 7));
    OneThread(p);
    Tested(p.(workers := [Worker(Core, Init, Top)], totalNum := 1, starter := Started));
    RunFive(tested, Stop, AtTop(0), Wake(0, false), Exit(0), Push(0));
    Stops(tested);
    AllGone(stopped);
    LatePush(stopped.(workers := [Worker(Core, Stopped, Gone)], totalNum := 0));
    RunAppend(p, steps, rest);
    assert steps + rest == [Start, Create, RaiseCore, EndStart, Enqueue(0, 7), Stop, AtTop(0), Wake(0, false), Exit(0), Push(0)];
  }

  lemma {:induction false} RunAppend(p: Pool, xs: seq<Step>, ys: seq<Step>)
    ensures Run(p, xs + ys) == Run(Run(p, xs), ys)
    decreases |xs|
  {
    hide Next;
    if xs == [] {
      assert xs + ys == ys;
    } else {
      RunAppend(Next(p, xs[0]), xs[1..], ys);
      assert (xs + ys)[1..] == xs[1..] + ys;
    }
  }

  lemma Stops(p: Pool)
    ensures Next(p, Stop) == p.(stop := true)
  {
  }

  lemma LatePush(p: Pool)
    requires p.producers == [EnqPush(7)] && p.workers == [Worker(Core, Stopped, Gone)] && p.tasks == p.accepted == p.late == []
    ensures Next(p, Push(0)) == p.(tasks := [7], accepted := [7], late := [7], producers := [Idle])
  {
    assert AllCoreLeft(p);
  }

  lemma Tested(p: Pool)
    requires p.starter.Started? && p.producers == [Idle] && !p.stop && p.totalNum >= p.max
    ensures Next(p, Enqueue(0, 7)) == p.(producers := [EnqPush(7)])
  {
  }

  lemma OneThread(p: Pool)
    requires p == New(1, 1, 1)
    ensures Next(Next(Next(Next(p, Start), Create), RaiseCore), EndStart)
            == p.(workers := [Worker(Core, Init, Top)], totalNum := 1, starter := Started)
  {
    var created := p.(workers := [Worker(Core, Init, Top)], starter := StartRaise(0));
    assert Next(Next(p, Start), Create) == created;
    assert Next(created, RaiseCore) == created.(totalNum := 1, starter := Starting(0));
  }

  lemma AllGone(p: Pool)
    requires p.workers == [Worker(Core, Init, Top)] && p.stop && p.tasks == []
    ensures Next(Next(Next(p, AtTop(0)), Wake(0, false)), Exit(0))
            == p.(workers := [Worker(Core, Stopped, Gone)], totalNum := p.totalNum - 1)
  {
    var waiting := p.(workers := [Worker(Core, Init, Waits)], waitNum := p.waitNum + 1);
    assert Next(p, AtTop(0)) == waiting;
    assert Next(waiting, Wake(0, false)) == p.(workers := [Worker(Core, Stopped, Exiting)]);
  }

  lemma RunFour(p: Pool, a: Step, b: Step, c: Step, d: Step)
    ensures Run(p, [a, b, c, d]) == Next(Next(Next(Next(p, a), b), c), d)
  {
    hide Next;
    assert [a, b, c, d][1..] == [b, c, d] && [b, c, d][1..] == [c, d] && [c, d][1..] == [d];
    assert Run(Next(p, a), [b, c, d]) == Run(Next(Next(p, a), b), [c, d]);
    assert Run(Next(Next(Next(p, a), b), c), [d]) == Run(Next(Next(Next(Next(p, a), b), c), d), []);
  }

  lemma RunFive(p: Pool, a: Step, b: Step, c: Step, d: Step, e: Step)
    ensures Run(p, [a, b, c, d, e]) == Next(Next(Next(Next(Next(p, a), b), c), d), e)
  {
    hide Next;
    assert [a, b, c, d, e][1..] == [b, c, d, e];
    RunFour(Next(p, a), b, c, d, e);
  }
}
