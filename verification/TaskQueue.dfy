/**
 The task queue of the event loop: producers on any thread push a task and then write a byte into the
 wakeup pipe (net/tiny_eventbase.cxx:84-88, 188-195); the loop reads one byte and drains the queue
 (:158-175).  The queue itself is include/tiny_safequeue.h.
 */
module TaskQueues {

  type Task = nat

  /** A queue with an optional bound (0: none) and an exit flag; its members run under its lock. */
  class SafeQueue<T> {
    const capacity: nat
    var exit: bool
    var items: seq<T>

    constructor (capacity: nat)
      ensures this.capacity == capacity && !exit && items == []
    {
      this.capacity := capacity;
      exit, items := false, [];
    }

    method Push(t: T) returns (ok: bool)
      modifies this`items
      ensures ok <==> !exit && (capacity == 0 || |old(items)| < capacity)
      ensures items == if ok then old(items) + [t] else old(items)
    {
      if exit || (capacity != 0 && |items| >= capacity) {
        return false;
      }
      items := items + [t];
      return true;
    }

    /** `popWait` once its wait is over, or at once when it is not to wait: an exited queue still yields
        the items it holds. */
    method PopReady(default: T) returns (found: bool, t: T)
      modifies this`items
      ensures found <==> old(items) != []
      ensures found ==> old(items) == [t] + items
      ensures !found ==> items == [] && t == default
    {
      if items == [] {
        return false, default;
      }
      found, t := true, items[0];
      items := items[1..];
    }

    method ExitQueue()
      modifies this`exit
      ensures exit
    {
      exit := true;
    }
  }

  // ---- Producers and the loop, interleaved ----

  datatype Consumer = Polling | Draining

  /** `pipe`: unread bytes; `inFlight`: producers between their push and their write.  History: the tasks
      accepted and the tasks run, in order. */
  datatype State = State(
    queue: seq<Task>, pipe: nat, inFlight: nat, consumer: Consumer, accepted: seq<Task>, ran: seq<Task>)

  const START := State([], 0, 0, Polling, [], [])

  /** `ExitWrite` is the wakeup byte of `exit`, which comes without a task. */
  datatype Step = Push(task: Task) | Write | ExitWrite | ReadByte | Pop | EndDrain

  predicate Enabled(s: State, step: Step) {
    match step
    case Push(_) => true
    case Write => s.inFlight > 0
    case ExitWrite => true
    case ReadByte => s.consumer.Polling? && s.pipe > 0
    case Pop => s.consumer.Draining? && s.queue != []
    case EndDrain => s.consumer.Draining? && s.queue == []
  }

  function Next(s: State, step: Step): State {
    if !Enabled(s, step) then s
    else
      match step
      case Push(task) => s.(queue := s.queue + [task], inFlight := s.inFlight + 1, accepted := s.accepted + [task])
      case Write => s.(pipe := s.pipe + 1, inFlight := s.inFlight - 1)
      case ExitWrite => s.(pipe := s.pipe + 1)
      case ReadByte => s.(pipe := s.pipe - 1, consumer := Draining)
      case Pop => s.(queue := s.queue[1..], ran := s.ran + [s.queue[0]])
      case EndDrain => s.(consumer := Polling)
  }

  function Run(s: State, steps: seq<Step>): State
    decreases |steps|
  {
    if steps == [] then s else Run(Next(s, steps[0]), steps[1..])
  }

  /** A queued task is never forgotten, and tasks run once each in the order they were accepted. */
  ghost predicate Good(s: State) {
    && (s.queue != [] ==> s.pipe > 0 || s.inFlight > 0 || s.consumer.Draining?)
    && s.accepted == s.ran + s.queue
  }

  lemma {:induction false} RunGood(s: State, steps: seq<Step>)
    requires Good(s)
    ensures Good(Run(s, steps))
    decreases |steps|
  {
    if steps != [] {
      RunGood(Next(s, steps[0]), steps[1..]);
    }
  }

  /** When the loop waits, no byte is unread and no producer is about to write, everything accepted has
      run. */
  lemma NoLostTask(steps: seq<Step>)
    ensures var s := Run(START, steps);
            && s.ran <= s.accepted
            && (s.queue != [] ==> s.pipe > 0 || s.inFlight > 0 || s.consumer.Draining?)
            && (s.consumer.Polling? && s.pipe == 0 && s.inFlight == 0 ==> s.ran == s.accepted)
  {
    RunGood(START, steps);
  }

  predicate Legal(s: State, steps: seq<Step>)
    decreases |steps|
  {
    steps != [] ==> Enabled(s, steps[0]) && Legal(Next(s, steps[0]), steps[1..])
  }

  function CountOf(steps: seq<Step>, f: Step -> bool): nat {
    if steps == [] then 0 else (if f(steps[0]) then 1 else 0) + CountOf(steps[1..], f)
  }

  /** Over any run: every producer's write and every `exit` leaves a byte, every wakeup takes one; every push leads to
      a write and every task to a pop. */
  lemma {:induction false} RunConserves(s: State, steps: seq<Step>)
    requires Legal(s, steps)
    ensures var t := Run(s, steps);
            var pushes, writes := CountOf(steps, (a: Step) => a.Push?), CountOf(steps, (a: Step) => a.Write?);
            && t.pipe + CountOf(steps, (a: Step) => a.ReadByte?)
               == s.pipe + writes + CountOf(steps, (a: Step) => a.ExitWrite?)
            && t.inFlight + writes == s.inFlight + pushes
            && |t.queue| + CountOf(steps, (a: Step) => a.Pop?) == |s.queue| + pushes
    decreases |steps|
  {
    if steps != [] {
      RunConserves(Next(s, steps[0]), steps[1..]);
    }
  }

  // ---- The members of the event loop ----

  /** The tasks that one drain runs, in order: the i-th of them pushes `pushes[i]` while it runs (and those past
      the end push nothing). */
  function Drained(queue: seq<Task>, pushes: seq<seq<Task>>): seq<Task>
    decreases |pushes|, |queue|
  {
    if queue == [] then []
    else if pushes == [] then queue
    else [queue[0]] + Drained(queue[1..] + pushes[0], pushes[1..])
  }

  lemma DrainedUnfold(queue: seq<Task>, pushes: seq<seq<Task>>)
    requires queue != []
    ensures Drained(queue, pushes)
            == [queue[0]] + (if pushes == [] then Drained(queue[1..], []) else Drained(queue[1..] + pushes[0], pushes[1..]))
  {
    assert queue == [queue[0]] + queue[1..];
  }

  /** Everything queued when the drain begins is run first, in its order. */
  lemma {:induction false} DrainedKeepsOrder(queue: seq<Task>, pushes: seq<seq<Task>>)
    ensures queue <= Drained(queue, pushes)
    decreases |pushes|, |queue|
  {
    if queue != [] && pushes != [] {
      DrainedKeepsOrder(queue[1..] + pushes[0], pushes[1..]);
      DrainedUnfold(queue, pushes);
    }
  }

  /** The state after `added` has been pushed, each task with its wakeup byte. */
  function After(s: State, added: seq<Task>): State {
    s.(queue := s.queue + added, pipe := s.pipe + |added|, accepted := s.accepted + added)
  }

  lemma AfterMore(s: State, added: seq<Task>, i: nat)
    requires i < |added|
    ensures Next(Next(After(s, added[..i]), Push(added[i])), Write) == After(s, added[..i + 1])
  {
    assert added[..i + 1] == added[..i] + [added[i]];
    assert s.queue + added[..i] + [added[i]] == s.queue + added[..i + 1];
    assert s.accepted + added[..i] + [added[i]] == s.accepted + added[..i + 1];
  }

  lemma AfterEnds(s: State, added: seq<Task>)
    ensures After(s, added[..0]) == s && After(s, added[..|added|]) == After(s, added)
  {
    assert added[..0] == [] && added[..|added|] == added;
    assert s.queue + [] == s.queue && s.accepted + [] == s.accepted;
  }

  /** Popping a task and running it. */
  lemma PopGood(s: State, added: seq<Task>)
    requires Good(s) && s.consumer.Draining? && s.queue != []
    ensures var t := After(Next(s, Pop), added);
            && Good(t) && t.consumer.Draining? && t.queue == s.queue[1..] + added && t.ran == s.ran + [s.queue[0]]
            && t.pipe - |t.accepted| == s.pipe - |s.accepted|
  {
    var t := After(Next(s, Pop), added);
    assert s.ran + s.queue == (s.ran + [s.queue[0]]) + s.queue[1..];
    assert t.accepted == t.ran + t.queue;
  }

  class TaskLoop {
    const tasks: SafeQueue<Task>
    var pipe: nat
    ghost var state: State

    ghost predicate Valid()
      reads this, tasks
    {
      && tasks.capacity == 0 && !tasks.exit && tasks.items == state.queue && pipe == state.pipe
    }

    constructor ()
      ensures Valid() && state == START && fresh(tasks)
    {
      tasks := new SafeQueue<Task>(0);
      pipe := 0;
      state := START;
    }

    /** `addTask`, undisturbed: the push, then the wakeup byte. */
    method AddTask(task: Task)
      requires Valid()
      modifies this, tasks
      ensures Valid() && state == Next(Next(old(state), Push(task)), Write)
    {
      var ok := tasks.Push(task);
      pipe := pipe + 1;
      state := Next(Next(state, Push(task)), Write);
    }

    /** A task that runs and pushes others. */
    method RunTask(added: seq<Task>)
      requires Valid()
      modifies this, tasks
      ensures Valid() && state == After(old(state), added)
    {
      hide Next, After;
      ghost var before := state;
      var i := 0;
      AfterEnds(before, added);
      while i < |added|
        invariant i <= |added| && Valid() && state == After(before, added[..i])
      {
        AfterMore(before, added, i);
        AddTask(added[i]);
        i := i + 1;
      }
    }

    /** The pipe callback: one byte, then tasks until the queue is empty, those pushed by running tasks
        included.  Nothing accepted is left. */
    method OnWakeup(pushes: seq<seq<Task>>) returns (ran: seq<Task>)
      requires Valid() && Good(state) && pipe > 0 && state.consumer.Polling?
      modifies this, tasks
      ensures Valid() && Good(state) && state.consumer.Polling?
      ensures ran == Drained(old(state).queue, pushes)
      ensures state.queue == [] && state.ran == old(state).ran + ran == state.accepted
      ensures pipe - (old(pipe) - 1) == |state.accepted| - |old(state).accepted|
    {
      pipe := pipe - 1;
      state := Next(state, ReadByte);
      ran := Drain(pushes);
      assert state.queue == [] && state.accepted == state.ran + state.queue;
      state := Next(state, EndDrain);
    }

    method Drain(pushes: seq<seq<Task>>) returns (ran: seq<Task>)
      requires Valid() && Good(state) && state.consumer.Draining?
      modifies this, tasks
      ensures Valid() && Good(state) && state.consumer.Draining? && state.queue == []
      ensures ran == Drained(old(state).queue, pushes) && state.ran == old(state).ran + ran
      ensures pipe - |state.accepted| == old(pipe) - |old(state).accepted|
    {
      hide Next, After, Good, Drained;
      ghost var before := state;
      ran := [];
      var left := pushes;
      while tasks.items != []
        invariant Valid() && Good(state) && state.consumer.Draining?
        invariant Drained(before.queue, pushes) == ran + Drained(state.queue, left)
        invariant state.ran == before.ran + ran
        invariant pipe - |state.accepted| == before.pipe - |before.accepted|
        decreases |left|, |state.queue|
      {
        ghost var at := state;
        DrainedUnfold(at.queue, left);
        var _, task := tasks.PopReady(0);
        assert [task] + tasks.items == at.queue;
        var added := if left == [] then [] else left[0];
        left := if left == [] then [] else left[1..];
        PopGood(at, added);
        PopNext(at);
        state := Next(state, Pop);
        RunTask(added);
        ran := ran + [task];
        assert left == [] && added == [] ==> at.queue[1..] + added == at.queue[1..];
      }
      DrainedNone(left);
    }
  }

  lemma PopNext(s: State)
    requires s.consumer.Draining? && s.queue != []
    ensures Next(s, Pop).queue == s.queue[1..] && Next(s, Pop).pipe == s.pipe
  {
  }

  lemma DrainedNone(pushes: seq<seq<Task>>)
    ensures Drained([], pushes) == []
  {
  }
}
