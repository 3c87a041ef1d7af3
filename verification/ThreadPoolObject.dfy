/** The thread pool as an object: its queue, counters and flag, and the records of its threads, updated
    in place and proved against `ThreadPools`. */
module ThreadPoolObject {
  import opened Common
  import opened ThreadPools

  class ThreadPool {
    const coreThreads: int
    const maxThreads: int
    var threads: seq<Worker>
    var tasks: seq<Task>
    var waitThreadsNum: int
    var totalThreadsNum: int
    var stop: bool

    /** The abstract state, with the positions of `start` and of the producers, and the history. */
    ghost var state: Pool

    ghost predicate Valid()
      reads this
    {
      && coreThreads == state.core && maxThreads == state.max && threads == state.workers && tasks == state.tasks
      && waitThreadsNum == state.waitNum && totalThreadsNum == state.totalNum && stop == state.stop
    }

    constructor (coreThreads: int, maxThreads: int, ghost producers: nat)
      ensures Valid() && state == New(coreThreads, maxThreads, producers)
    {
      this.coreThreads, this.maxThreads := coreThreads, maxThreads;
      threads, tasks, waitThreadsNum, totalThreadsNum, stop := [], [], 0, 0, false;
      state := New(coreThreads, maxThreads, producers);
    }

    /** `addThreadByFlag`: the thread is running before it is counted; `count` is the step that counts it. */
    method AddThread(flag: Flag, ghost created: Pool, ghost count: Step)
      requires Valid()
      requires created == state.(workers := state.workers + [Worker(flag, Init, Top)], starter := created.starter,
                                 producers := created.producers)
      requires (count.RaiseCore? || count.Raise?) && Enabled(created, count)
      modifies this
      ensures Valid() && state == Next(created, count)
    {
      threads := threads + [Worker(flag, Init, Top)];
      totalThreadsNum := totalThreadsNum + 1;
      state := Next(created, count);
    }

    /** `start`, undisturbed: one core thread after the other. */
    method StartPool()
      requires Valid() && state.starter.NotStarted?
      modifies this
      ensures Valid() && state.starter.Started?
      ensures state == Next(Run(Next(old(state), Start), CreateAll(AtLeastZero(coreThreads))), EndStart)
      ensures totalThreadsNum == old(totalThreadsNum) + AtLeastZero(coreThreads)
    {
      state := Next(state, Start);
      var left := coreThreads;
      ghost var n := AtLeastZero(coreThreads);
      ghost var begun := state;
      while left > 0
        invariant Valid() && state.starter == Starting(AtLeastZero(left)) && AtLeastZero(left) <= n
        invariant Run(state, CreateAll(AtLeastZero(left))) == Run(begun, CreateAll(n))
        invariant totalThreadsNum == old(totalThreadsNum) + n - AtLeastZero(left)
      {
        left := left - 1;
        AddThread(Core, Next(state, Create), RaiseCore);
      }
      state := Next(state, EndStart);
    }

    /** `enqueue` by producer `j`, undisturbed: refused once the pool is stopped; an extended thread is added when
        no thread waits and there is room for one. */
    method Enqueue(task: Task, ghost j: nat) returns (accepted: bool)
      requires Valid() && state.starter.Started? && j < |state.producers| && state.producers[j].Idle?
      modifies this
      ensures Valid() && state.producers == old(state).producers && accepted == !old(stop)
      ensures state == Next(Next(Next(old(state), ThreadPools.Enqueue(j, task)), Raise(j)), Push(j))
    {
      if stop {
        return false;
      }
      if waitThreadsNum == 0 && totalThreadsNum < maxThreads {
        AddThread(Extended, Next(state, ThreadPools.Enqueue(j, task)), Raise(j));
      } else {
        state := Next(state, ThreadPools.Enqueue(j, task));
      }
      tasks := tasks + [task];
      state := Next(state, Push(j));
      return true;
    }

    method StopPool()
      requires Valid()
      modifies this
      ensures Valid() && state == Next(old(state), Stop)
    {
      stop := true;
      state := Next(state, Stop);
    }

    /** The head of a worker's loop, up to the wait. */
    method BeginRound(i: nat)
      requires Valid() && Enabled(state, AtTop(i))
      modifies this
      ensures Valid() && state == Next(old(state), AtTop(i))
    {
      if threads[i].st == Stopped {
        threads := threads[i := threads[i].(pc := Exiting)];
      } else {
        waitThreadsNum := waitThreadsNum + 1;
        threads := threads[i := threads[i].(pc := Waits)];
      }
      state := Next(state, AtTop(i));
    }

    /** What a worker does under the lock when its wait is over. */
    method EndWait(i: nat, timeout: bool)
      requires Valid() && Enabled(state, Wake(i, timeout))
      modifies this
      ensures Valid() && state == Next(old(state), Wake(i, timeout))
      ensures old(threads[i]).st != Stopped && old(tasks) != [] && (old(threads[i]).flag == Core || !old(stop)) ==>
                tasks == old(tasks)[1..] && threads[i].pc == Runs(old(tasks)[0])
      ensures old(tasks) == [] ==>
                tasks == [] && (threads[i].pc == Exiting <==> old(stop) || old(threads[i]).flag == Extended || old(threads[i]).st == Stopped)
    {
      var w := threads[i];
      var ret := tasks != [] || w.st == Stopped || stop;
      waitThreadsNum := waitThreadsNum - 1;
      if w.flag == Core {
        if !ret {
          w := w.(pc := Top);
        } else if w.st == Stopped {
          w := w.(pc := Exiting);
        } else if stop && tasks == [] {
          w := w.(st := Stopped, pc := Exiting);
        } else {
          w := TakeTask(w);
        }
      } else {
        if !ret {
          w := w.(st := Stopped);
        }
        if stop {
          w := w.(st := Stopped);
        }
        if w.st == Stopped {
          w := w.(pc := Exiting);
        } else {
          w := TakeTask(w);
        }
      }
      threads := threads[i := w];
      state := Next(state, Wake(i, timeout));
    }

    method TakeTask(w: Worker) returns (w': Worker)
      modifies this`tasks
      ensures tasks == if old(tasks) == [] then [] else old(tasks)[1..]
      ensures w' == w.(st := Running, pc := if old(tasks) == [] then Top else Runs(old(tasks)[0]))
    {
      w' := w.(st := Running, pc := Top);
      if tasks != [] {
        w' := w'.(pc := Runs(tasks[0]));
        tasks := tasks[1..];
      }
    }

    /** A task has been run. */
    method EndTask(i: nat)
      requires Valid() && Enabled(state, Finish(i))
      modifies this
      ensures Valid() && state == Next(old(state), Finish(i))
    {
      threads := threads[i := threads[i].(pc := Top)];
      state := Next(state, Finish(i));
    }

    /** The end of a worker. */
    method EndThread(i: nat)
      requires Valid() && Enabled(state, ThreadPools.Exit(i))
      modifies this
      ensures Valid() && state == Next(old(state), ThreadPools.Exit(i))
    {
      totalThreadsNum := totalThreadsNum - 1;
      threads := threads[i := threads[i].(pc := Gone)];
      state := Next(state, ThreadPools.Exit(i));
    }

    /** Any step of a worker, and `stop`: each member above makes the step its name says. */
    method Perform(step: Step)
      requires Valid() && Enabled(state, step)
      requires step.AtTop? || step.Wake? || step.Finish? || step.Exit? || step.Stop?
      modifies this
      ensures Valid() && state == Next(old(state), step)
    {
      if step.AtTop? {
        BeginRound(step.i);
      } else if step.Wake? {
        EndWait(step.i, step.timeout);
      } else if step.Finish? {
        EndTask(step.i);
      } else if step.Exit? {
        EndThread(step.i);
      } else {
        StopPool();
      }
    }
  }

  /** `n` core threads created and counted. */
  function CreateAll(n: nat): seq<Step> {
    if n == 0 then [] else [Create, RaiseCore] + CreateAll(n - 1)
  }
}
