/** The timer members of net/tiny_eventbase.cxx as an object that updates its tables in place, proved
    against the functions of `Timers`. */
module EventLoop {
  import opened Common
  import opened Timers
  import opened TimerRuns
  import opened TimerPass

  class EventBase {
    var timers: map<Id, Entry>
    var reps: map<Id, Rep>
    var timerSeq: int
    var exit: bool
    var nextTimeOut: int

    // The environment: the clock, what the user callbacks do, and how much of both has been used.
    const env: Env
    var ticks: nat
    var calls: nat

    /** The abstract state, with its history; `Valid` ties it to the fields. */
    ghost var state: State

    ghost predicate Valid()
      reads this
    {
      && timers == state.book.timers && reps == state.book.reps && timerSeq == state.book.timerSeq
      && exit == state.exited && nextTimeOut == state.nextTimeout
      && ticks == state.ticks && calls == state.calls
    }

    /** `Valid` while the table of pending entries is `pending`. */
    ghost predicate Valid'(pending: map<Id, Entry>)
      reads this
    {
      && timers == pending && reps == state.book.reps && timerSeq == state.book.timerSeq
      && exit == state.exited && nextTimeOut == state.nextTimeout
      && ticks == state.ticks && calls == state.calls
    }

    constructor (env: Env)
      ensures Valid() && state == START && this.env == env
    {
      timers, reps, timerSeq, exit, nextTimeOut := map[], map[], 0, false, FAR;
      this.env := env;
      ticks, calls := 0, 0;
      state := START;
    }

    /** The beginning of the ordered map. */
    method Begin() returns (key: Id)
      requires timers != map[]
      ensures key == First(timers.Keys)
    {
      assert timers.Keys != {};
      FirstExists(timers.Keys);
      var first :| first in timers.Keys && forall j | j in timers.Keys :: j == first || Less(first, j);
      FirstIsUnique(first, timers.Keys);
      key := first;
    }

    method RefreshNearestTimeout()
      requires Valid()
      modifies this
      ensures Valid() && state == Refresh(env, old(state))
      ensures timers == map[] ==> nextTimeOut == 0x4000_0000
      ensures timers != map[] ==>
                var d := First(timers.Keys).at - env.clock(old(ticks));
                -0x8000_0000 <= d < 0x8000_0000 ==> nextTimeOut == AtLeastZero(d)
    {
      RefreshExact(env, state);
      if timers == map[] {
        nextTimeOut := FAR;
      } else {
        var first := Begin();
        var now := env.clock(ticks);
        ticks := ticks + 1;
        nextTimeOut := ToInt32(first.at - now);
        nextTimeOut := if nextTimeOut < 0 then 0 else nextTimeOut;
      }
      state := Refresh(env, state);
    }

    method RunAt(at: int, interval: int, task: Task) returns (id: Id)
      requires Valid()
      modifies this
      ensures Valid() && (state, id) == DoRunAt(env, old(state), at, interval, task)
    {
      if exit {
        return Id(0, 0);
      }
      if interval != 0 {
        timerSeq := timerSeq + 1;
        id := Id(-at, timerSeq);
        timerSeq := timerSeq + 1;
        reps := reps[id := Rep(at, interval, Id(at, timerSeq), task)];
        timers := timers[Id(at, timerSeq) := Again(id)];
        state := state.(book := AddRep(state.book, at, interval, task));
      } else {
        timerSeq := timerSeq + 1;
        id := Id(at, timerSeq);
        if id !in timers {
          timers := timers[id := Once(task)];
        }
        state := state.(book := AddOnce(state.book, at, task));
      }
      RefreshNearestTimeout();
    }

    method Cancel(id: Id) returns (found: bool)
      requires Valid()
      modifies this
      ensures Valid() && (state, found) == DoCancel(old(state), id)
    {
      if id.at < 0 {
        if id in reps {   // otherwise the code dereferences the end of the map
          timers := timers - {reps[id].timerId};
          reps := reps - {id};
        }
        found := true;
      } else {
        found := id in timers;
        if found {
          timers := timers - {id};
        }
      }
      state := DoCancel(state, id).0;
    }

    /** A user callback: the actions the environment has chosen for this call. */
    method Callback(acts: seq<Act>)
      requires Valid()
      modifies this
      ensures Valid() && state == DoAll(env, old(state), acts)
    {
      var i := 0;
      while i < |acts|
        invariant 0 <= i <= |acts| && Valid()
        invariant DoAll(env, state, acts[i..]) == DoAll(env, old(state), acts)
      {
        match acts[i] {
          case RunAt(at, interval, task) => var _ := RunAt(at, interval, task);
          case Cancel(id) => var _ := Cancel(id);
          case Exit => exit := true; state := state.(exited := true);
        }
        assert acts[i..][1..] == acts[i + 1..];
        i := i + 1;
      }
    }

    /** A persistent timer whose entry `key` has just been taken out of the table. */
    method RepeatableTimeout(ghost key: Id, rid: Id)
      requires rid in reps
      requires timers == state.book.timers - {key} && Valid'(timers)
      modifies this
      ensures Valid() && state == DoAll(env, Refresh(env, old(state).(calls := old(calls) + 1, book := ExpireRep(old(state.book), key, rid))),
                                        env.script(old(reps[rid].task), old(calls)))
    {
      var tr := reps[rid];
      var acts := env.script(tr.task, calls);
      calls := calls + 1;
      tr := tr.(at := tr.at + tr.interval);
      timerSeq := timerSeq + 1;
      tr := tr.(timerId := Id(tr.at, timerSeq));
      reps := reps[rid := tr];
      timers := timers[tr.timerId := Again(rid)];
      state := state.(calls := state.calls + 1, book := ExpireRep(state.book, key, rid));
      RefreshNearestTimeout();
      Callback(acts);
    }

    /** A one-shot whose entry `key` has just been taken out of the table. */
    method RunTask(ghost key: Id, task: Task)
      requires timers == state.book.timers - {key} && Valid'(timers)
      modifies this
      ensures Valid() && state == DoAll(env, old(state).(calls := old(calls) + 1, book := ExpireOnce(old(state.book), key)),
                                        env.script(task, old(calls)))
    {
      var acts := env.script(task, calls);
      calls := calls + 1;
      state := state.(calls := state.calls + 1, book := ExpireOnce(state.book, key));
      Callback(acts);
    }

    /** Takes the earliest entry out of the table and runs it. */
    method RunFirst()
      requires Valid() && timers != map[] && Entries(state.book)
      modifies this
      ensures Valid() && state == Fire(env, old(state))
    {
      hide Entries, Refresh, DoAll, Fire;
      var key := Begin();
      var entry := timers[key];
      FireUnfold(env, state);
      timers := timers - {key};
      match entry {
        case Once(task) => RunTask(key, task);
        case Again(rid) => RepeatableTimeout(key, rid);
      }
    }

    /** The expiry loop.  It ends because the callbacks still to come ask only for timers after the snapshot;
        what it does are the rounds of one pass, after which nothing is due, and a refresh. */
    method HandleTimeouts()
      requires Valid() && PassReady(env, state)
      modifies this
      ensures Valid() && state == Refresh(env, PassRounds(env, old(state)))
      ensures !Due(PassRounds(env, old(state)).book, env.clock(old(ticks)))
    {
      hide Entries, DuePositive, AllLater, Work, Due, Rounds, Refresh;
      var now := env.clock(ticks);
      ticks := ticks + 1;
      state := state.(ticks := state.ticks + 1);
      Expire(now, Work(state.book, now));
      RefreshNearestTimeout();
    }

    method Expire(now: int, ghost rounds: nat)
      requires Valid() && Entries(state.book) && DuePositive(state.book, now)
      requires Due(state.book, now) ==> AllLater(env, calls, now)
      requires rounds >= Work(state.book, now)
      modifies this
      ensures Valid() && state == Rounds(env, old(state), now, rounds) && !Due(state.book, now)
    {
      hide Entries, DuePositive, AllLater, Fire, Work, Due, Rounds;
      ghost var left := rounds;
      var due := IsDue(now);
      while due
        invariant Valid() && Entries(state.book) && DuePositive(state.book, now) && due == Due(state.book, now)
        invariant due ==> timers != map[] && AllLater(env, calls, now)
        invariant left >= Work(state.book, now)
        invariant Rounds(env, state, now, left) == Rounds(env, old(state), now, rounds)
        decreases Work(state.book, now)
      {
        FireLowersWork(env, state, now);
        FireCalls(env, state, now);
        RoundsUnfold(env, state, now, left);
        RunFirst();
        left := left - 1;
        due := IsDue(now);
      }
      RoundsUnfold(env, state, now, left);
    }

    method IsDue(now: int) returns (due: bool)
      requires Valid()
      ensures due == Due(state.book, now) && (due ==> timers != map[])
    {
      if timers == map[] {
        return false;
      }
      var first := Begin();
      due := Less(first, Id(now, LAST_NUM));
    }

    /** `loopOnce`: a poll of at most `waitMs`, in which channel callbacks make the calls `acts`, and a pass. */
    method LoopOnce(waitMs: int, acts: seq<Act>) returns (wait: int)
      requires Valid() && PassReady(env, DoAll(env, state, acts))
      modifies this
      ensures wait == PollWait(waitMs, old(nextTimeOut))
      ensures Valid() && state == Refresh(env, PassRounds(env, DoAll(env, old(state), acts)))
    {
      hide PassReady, PassRounds, DoAll, Refresh;
      wait := PollWait(waitMs, nextTimeOut);
      Callback(acts);
      HandleTimeouts();
    }

    /** Leaving the loop: both tables are emptied, and one more round is made without waiting.  Whatever its
        callbacks call, nothing is registered any more. */
    method LeaveLoop(acts: seq<Act>)
      requires Valid() && exit
      modifies this
      ensures Valid() && timers == map[] && reps == map[]
      ensures var e := DoAll(env, old(state).(book := ClearBook(old(state.book))), acts);
              state == Refresh(env, e.(ticks := e.ticks + 1))
    {
      hide PassReady, PassRounds, DoAll;
      timers := map[];
      reps := map[];
      state := state.(book := ClearBook(state.book));
      ExitedStaysEmpty(env, state, acts);
      NothingToExpire(env, DoAll(env, state, acts));
      var _ := LoopOnce(0, acts);
    }
  }
}
