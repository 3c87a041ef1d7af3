/** Whole runs of the timer engine: what every step keeps, and what one expiry pass achieves. */
module TimerRuns {
  import opened Common
  import opened Timers

  // ---- Every operation keeps the tables good unless cancel is misused ----

  lemma DoEntries(env: Env, s: State, act: Act)
    requires Entries(s.book)
    ensures Entries(Do(env, s, act).book)
  {
    match act
    case RunAt(at, interval, task) =>
      AddOnceEntries(s.book, at, task);
      if interval != 0 {
        AddRepEntries(s.book, at, interval, task);
      }
    case Cancel(id) => DropEntries(s.book, id);
    case Exit =>
  }

  lemma RunAtGood(env: Env, s: State, at: int, interval: int, task: Task)
    requires Good(s.book)
    ensures Good(DoRunAt(env, s, at, interval, task).0.book)
  {
    if interval != 0 {
      AddRepGood(s.book, at, interval, task);
    } else {
      AddOnceGood(s.book, at, task);
    }
  }

  lemma CancelGood(s: State, id: Id)
    requires Good(s.book) && !Misuse(s.book, id)
    ensures Good(DoCancel(s, id).0.book)
  {
    if id.at < 0 {
      DropRepGood(s.book, id);
    } else if id in s.book.timers {
      DropOnceGood(s.book, id);
    }
  }

  lemma DoGood(env: Env, s: State, act: Act)
    requires Good(s.book) && !Do(env, s, act).misused
    ensures Good(Do(env, s, act).book) && !s.misused
  {
    match act
    case RunAt(at, interval, task) => RunAtGood(env, s, at, interval, task);
    case Cancel(id) => CancelGood(s, id);
    case Exit =>
  }

  lemma {:induction false} MisuseIsRemembered(env: Env, s: State, acts: seq<Act>)
    ensures s.misused ==> DoAll(env, s, acts).misused
    decreases |acts|
  {
    if acts != [] {
      MisuseIsRemembered(env, Do(env, s, acts[0]), acts[1..]);
    }
  }

  lemma {:induction false} DoAllGood(env: Env, s: State, acts: seq<Act>)
    requires Good(s.book) && !DoAll(env, s, acts).misused
    ensures Good(DoAll(env, s, acts).book) && !s.misused
    decreases |acts|
  {
    if acts != [] {
      MisuseIsRemembered(env, Do(env, s, acts[0]), acts[1..]);
      DoGood(env, s, acts[0]);
      DoAllGood(env, Do(env, s, acts[0]), acts[1..]);
    }
  }

  /** When a user callback starts, the tables are good, so the callback may register and cancel timers,
      its own included. */
  lemma CallbackStartsGood(env: Env, s: State)
    requires Good(s.book) && s.book.timers != map[]
    ensures Good(CallbackStart(env, s).book) && CallbackStart(env, s).misused == s.misused
  {
    hide Records, Numbers, Fates, Unspent;
    var key := First(s.book.timers.Keys);
    match s.book.timers[key]
    case Once(_) =>
      ExpireOnceGood(s.book, key);
      assert CallbackStart(env, s).book == ExpireOnce(s.book, key);
    case Again(rid) =>
      ExpireRepGood(s.book, key);
      assert CallbackStart(env, s).book == ExpireRep(s.book, key, rid);
  }

  lemma FireGood(env: Env, s: State)
    requires Good(s.book) && s.book.timers != map[] && !Fire(env, s).misused
    ensures Good(Fire(env, s).book) && !s.misused
  {
    CallbackStartsGood(env, s);
    DoAllGood(env, CallbackStart(env, s), Script(env, s));
  }

  /** For an id that is not negative, `cancel` keeps the tables good exactly when the id is not the
      internal key of a persistent timer. */
  lemma CancelGoodExact(s: State, id: Id)
    requires Good(s.book) && id.at >= 0
    ensures Good(DoCancel(s, id).0.book) <==> !Misuse(s.book, id)
  {
    if Misuse(s.book, id) {
      var r := s.book.timers[id].rid;
      assert s.book.reps[r].timerId == id;
      assert r in DoCancel(s, id).0.book.reps;
    } else {
      CancelGood(s, id);
    }
  }

  /** No id that was handed out is the internal key of a persistent timer; to cancel one is a misuse exactly
      if its first part is negative and it is not a registered persistent timer. */
  lemma IssuedIdsAreNotInternal(b: Book, id: Id)
    requires Good(b) && (TakenFor(b, OneShot(id)) || TakenFor(b, Persistent(id)))
    ensures !(id in b.timers && b.timers[id].Again?)
    ensures Misuse(b, id) <==> id.at < 0 && id !in b.reps
  {
    PersistentKeysAreInternal(b);
  }

  lemma PersistentKeysAreInternal(b: Book)
    requires Good(b)
    ensures forall k | k in b.timers && b.timers[k].Again? :: TakenFor(b, Internal(k))
  {
    forall k | k in b.timers && b.timers[k].Again?
      ensures TakenFor(b, Internal(k))
    {
      assert TakenFor(b, Internal(b.reps[b.timers[k].rid].timerId));
    }
  }

  lemma OneShotParts(b: Book, id: Id)
    requires Good(b) && TakenFor(b, OneShot(id))
    ensures id in b.timers <==> b.fired[id] == 0 && b.cancelled[id] == 0 && id !in b.cleared
    ensures id !in b.reps && (id in b.timers ==> b.timers[id].Once?)
  {
    hide Records, Unspent, Entries;
    assert Fate(b, b.taken[id.num - 1]);
    PersistentKeysAreInternal(b);
    assert id in b.reps ==> TakenFor(b, Persistent(id));
  }

  /** A one-shot is pending exactly when it has not fired, been cancelled or been cleared.  With a deadline
      that is not negative, `cancel` answers true exactly then, and it is cancelled once; with a negative
      one, `cancel` takes its id for that of a persistent timer, is misused, and leaves it pending. */
  lemma CancelAnswersPending(s: State, id: Id)
    requires Good(s.book) && TakenFor(s.book, OneShot(id))
    ensures var (t, answer) := DoCancel(s, id);
            && (id in s.book.timers <==> s.book.fired[id] == 0 && s.book.cancelled[id] == 0 && id !in s.book.cleared)
            && (if id.at >= 0 then (answer <==> id in s.book.timers) && (answer ==> t.book.cancelled[id] == 1)
                else answer && t.misused && t.book == s.book)
  {
    hide Good, TakenFor;
    OneShotParts(s.book, id);
  }

  /** Cancelling a registered persistent timer by its id stops it exactly if its deadline was positive
      when it was registered; otherwise `cancel` answers false and changes nothing. */
  lemma CancelStopsPersistentExact(s: State, rid: Id)
    requires Good(s.book) && rid in s.book.reps
    ensures DoCancel(s, rid).1 <==> rid.at < 0
    ensures if rid.at < 0 then rid !in DoCancel(s, rid).0.book.reps else DoCancel(s, rid).0 == s
  {
    assert TakenFor(s.book, Persistent(rid));
    PersistentKeysAreInternal(s.book);
    assert rid in s.book.timers ==> TakenFor(s.book, OneShot(rid)) || TakenFor(s.book, Internal(rid));
  }

  /** The timer registered under `id` is pending with the deadline, interval and task it was given. */
  ghost predicate PendingAs(b: Book, id: Id, at: int, interval: int, task: Task) {
    if interval == 0 then id.at == at && id in b.timers && b.timers[id] == Once(task)
    else
      && id in b.reps && b.reps[id] == Rep(at, interval, b.reps[id].timerId, task) && b.reps[id].timerId.at == at
      && b.reps[id].timerId in b.timers && b.timers[b.reps[id].timerId] == Again(id)
  }

  ghost predicate KeepsTimers(b: Book, c: Book) {
    && (forall k | k in b.timers :: k in c.timers && c.timers[k] == b.timers[k])
    && (forall r | r in b.reps :: r in c.reps && c.reps[r] == b.reps[r])
  }

  lemma RunAtBook(env: Env, s: State, at: int, interval: int, task: Task)
    requires !s.exited
    ensures var (t, id) := DoRunAt(env, s, at, interval, task);
            && t.book == (if interval == 0 then AddOnce(s.book, at, task) else AddRep(s.book, at, interval, task))
            && id == Id(if interval == 0 then at else -at, s.book.timerSeq + 1)
  {
  }

  lemma AddIsPending(b: Book, at: int, interval: int, task: Task)
    requires Entries(b)
    ensures interval == 0 ==> var c := AddOnce(b, at, task);
              PendingAs(c, Id(at, b.timerSeq + 1), at, interval, task) && KeepsTimers(b, c)
    ensures interval != 0 ==> var c := AddRep(b, at, interval, task);
              PendingAs(c, Id(-at, b.timerSeq + 1), at, interval, task) && KeepsTimers(b, c)
  {
  }

  /** `runAt` outside an exited loop leaves the new timer pending with the deadline, interval and task it was
      given, under a number never handed out before, and every other timer as it was. */
  lemma RunAtIsPending(env: Env, s: State, at: int, interval: int, task: Task)
    requires Good(s.book) && !s.exited
    ensures var (t, id) := DoRunAt(env, s, at, interval, task);
            && (forall u | TakenFor(s.book, u) :: u.id.num != id.num)
            && PendingAs(t.book, id, at, interval, task) && KeepsTimers(s.book, t.book)
  {
    hide Entries, Records, Fates, Unspent, PendingAs, KeepsTimers, DoRunAt;
    RunAtBook(env, s, at, interval, task);
    AddIsPending(s.book, at, interval, task);
  }

  lemma AddThenDrop(b: Book, at: int, interval: int, task: Task)
    requires Entries(b)
    ensures AddOnce(b, at, task).timers - {Id(at, b.timerSeq + 1)} == b.timers != AddOnce(b, at, task).timers
    ensures AddRep(b, at, interval, task).timers - {Id(at, b.timerSeq + 2)} == b.timers
    ensures AddRep(b, at, interval, task).reps - {Id(-at, b.timerSeq + 1)} == b.reps
    ensures Id(at, b.timerSeq + 1) !in b.reps && Id(-at, b.timerSeq + 1) !in AddRep(b, at, interval, task).timers
  {
    var once := Id(at, b.timerSeq + 1);
    assert once in AddOnce(b, at, task).timers && once !in b.timers;
  }

  /** Cancelling a timer at once undoes its registration exactly if a one-shot's deadline is not negative, a
      persistent timer's positive. */
  lemma CancelUndoesRunAt(env: Env, s: State, at: int, interval: int, task: Task)
    requires Good(s.book) && !s.exited
    ensures var (t, id) := DoRunAt(env, s, at, interval, task);
            var (u, found) := DoCancel(t, id);
            found && u.book.timers == s.book.timers && u.book.reps == s.book.reps
            <==> if interval == 0 then at >= 0 else at > 0
  {
    hide Entries, Records, Numbers, Fates, Unspent, DoRunAt;
    RunAtBook(env, s, at, interval, task);
    AddThenDrop(s.book, at, interval, task);
  }

  /** Cancelling an id that was handed out is a misuse exactly if it is negative and not a registered persistent
      timer: in particular, never for a pending timer with a deadline above 0. */
  lemma IssuedCancelExact(s: State, id: Id)
    requires Good(s.book) && (TakenFor(s.book, OneShot(id)) || TakenFor(s.book, Persistent(id)))
    ensures DoCancel(s, id).0.misused <==> s.misused || (id.at < 0 && id !in s.book.reps)
  {
    IssuedIdsAreNotInternal(s.book, id);
  }

  /** After `exit` callbacks register nothing any more; what they cancel is gone all the same. */
  lemma {:induction false} ExitedRegistersNothing(env: Env, s: State, acts: seq<Act>)
    requires s.exited || Exit in acts
    ensures var t := DoAll(env, s, acts); t.exited && (s.exited ==> t.book.taken == s.book.taken && t.book.timers.Keys <= s.book.timers.Keys)
    decreases |acts|
  {
    if acts != [] {
      ExitedRegistersNothing(env, Do(env, s, acts[0]), acts[1..]);
    }
  }

  /** No two ids or keys share a sequence number. */
  lemma NumbersAreUsedOnce(b: Book, s: Ticket, t: Ticket)
    requires Good(b) && TakenFor(b, s) && TakenFor(b, t) && s.id.num == t.id.num
    ensures s == t
  {
  }

  /** A callback's calls are made one after the other, each on the state the calls before it have left. */
  lemma {:induction false} DoAllDoesEach(env: Env, s: State, acts: seq<Act>, act: Act)
    ensures var t := DoAll(env, s, acts);
            DoAll(env, s, acts + [act])
            == match act
               case RunAt(at, interval, task) => DoRunAt(env, t, at, interval, task).0
               case Cancel(id) => DoCancel(t, id).0
               case Exit => t.(exited := true)
    decreases |acts|
  {
    hide DoRunAt, DoCancel;
    if acts == [] {
      assert [] + [act] == [act] && [act][1..] == [];
    } else {
      assert (acts + [act])[1..] == acts[1..] + [act];
      DoAllDoesEach(env, Do(env, s, acts[0]), acts[1..], act);
    }
  }

  // ---- The event loop as a machine ----

  datatype Pass = Idle | Expiring(now: int)

  datatype Loop = Loop(s: State, pass: Pass)

  /** `Api`: a call between passes; `Begin`, `Pop`, `End`: one expiry pass; `Clear`: leaving the loop. */
  datatype Step = Api(act: Act) | Begin | Pop | End | Clear

  ghost predicate Enabled(l: Loop, step: Step) {
    match step
    case Api(_) => l.pass.Idle?
    case Begin => l.pass.Idle?
    case Pop => l.pass.Expiring? && Due(l.s.book, l.pass.now)
    case End => l.pass.Expiring? && !Due(l.s.book, l.pass.now)
    case Clear => l.pass.Idle? && l.s.exited
  }

  ghost function Next(env: Env, l: Loop, step: Step): Loop {
    if !Enabled(l, step) then l
    else
      match step
      case Api(act) => l.(s := Do(env, l.s, act))
      case Begin => Loop(l.s.(ticks := l.s.ticks + 1), Expiring(env.clock(l.s.ticks)))
      case Pop => l.(s := Fire(env, l.s))
      case End => Loop(Refresh(env, l.s), Idle)
      case Clear => l.(s := l.s.(book := ClearBook(l.s.book)))
  }

  ghost function Run(env: Env, l: Loop, steps: seq<Step>): Loop
    decreases |steps|
  {
    if steps == [] then l else Run(env, Next(env, l, steps[0]), steps[1..])
  }

  lemma NextMisuse(env: Env, l: Loop, step: Step)
    ensures l.s.misused ==> Next(env, l, step).s.misused
  {
    if step == Pop && Enabled(l, step) {
      MisuseIsRemembered(env, CallbackStart(env, l.s), Script(env, l.s));
    }
  }

  lemma {:induction false} RunMisuse(env: Env, l: Loop, steps: seq<Step>)
    ensures l.s.misused ==> Run(env, l, steps).s.misused
    decreases |steps|
  {
    if steps != [] {
      NextMisuse(env, l, steps[0]);
      RunMisuse(env, Next(env, l, steps[0]), steps[1..]);
    }
  }

  lemma NextGood(env: Env, l: Loop, step: Step)
    requires Good(l.s.book) && !Next(env, l, step).s.misused
    ensures Good(Next(env, l, step).s.book)
  {
    if Enabled(l, step) {
      match step
      case Api(act) => DoGood(env, l.s, act);
      case Pop => FireGood(env, l.s);
      case Clear => ClearGood(l.s.book);
      case _ =>
    }
  }

  /** In every run, with any callbacks: the two tables are in bijection, no sequence number is used
      twice, and every timer ever accepted has exactly one fate. */
  lemma {:induction false} RunGood(env: Env, l: Loop, steps: seq<Step>)
    requires Good(l.s.book) && !Run(env, l, steps).s.misused
    ensures Good(Run(env, l, steps).s.book)
    decreases |steps|
  {
    if steps != [] {
      RunMisuse(env, Next(env, l, steps[0]), steps[1..]);
      NextGood(env, l, steps[0]);
      RunGood(env, Next(env, l, steps[0]), steps[1..]);
    }
  }

  lemma AllRunsGood(env: Env, steps: seq<Step>)
    requires !Run(env, Loop(START, Idle), steps).s.misused
    ensures Good(Run(env, Loop(START, Idle), steps).s.book)
  {
    RunGood(env, Loop(START, Idle), steps);
  }

  // ---- A pending one-shot keeps its task ----

  /** The number of `id` has been handed out, and if it is pending it holds `entry`. */
  ghost predicate Holds(b: Book, id: Id, entry: Entry) {
    id.num <= b.timerSeq && (id in b.timers ==> b.timers[id] == entry)
  }

  lemma DoHolds(env: Env, s: State, act: Act, id: Id, entry: Entry)
    requires Holds(s.book, id, entry)
    ensures Holds(Do(env, s, act).book, id, entry)
  {
  }

  lemma {:induction false} DoAllHolds(env: Env, s: State, acts: seq<Act>, id: Id, entry: Entry)
    requires Holds(s.book, id, entry)
    ensures Holds(DoAll(env, s, acts).book, id, entry)
    decreases |acts|
  {
    hide Holds, Do;
    if acts != [] {
      DoHolds(env, s, acts[0], id, entry);
      DoAllHolds(env, Do(env, s, acts[0]), acts[1..], id, entry);
    }
  }

  lemma CallbackHolds(env: Env, s: State, id: Id, entry: Entry)
    requires Holds(s.book, id, entry) && s.book.timers != map[]
    ensures Holds(CallbackStart(env, s).book, id, entry)
  {
  }

  lemma NextHolds(env: Env, l: Loop, step: Step, id: Id, entry: Entry)
    requires Holds(l.s.book, id, entry)
    ensures Holds(Next(env, l, step).s.book, id, entry)
  {
    hide CallbackStart, DoAll, Do;
    if Enabled(l, step) {
      match step
      case Api(act) => DoHolds(env, l.s, act, id, entry);
      case Pop =>
        CallbackHolds(env, l.s, id, entry);
        DoAllHolds(env, CallbackStart(env, l.s), Script(env, l.s), id, entry);
      case _ =>
    }
  }

  lemma {:induction false} RunHolds(env: Env, l: Loop, steps: seq<Step>, id: Id, entry: Entry)
    requires Holds(l.s.book, id, entry)
    ensures Holds(Run(env, l, steps).s.book, id, entry)
    decreases |steps|
  {
    hide Holds, Next;
    if steps != [] {
      NextHolds(env, l, steps[0], id, entry);
      RunHolds(env, Next(env, l, steps[0]), steps[1..], id, entry);
    }
  }

  /** Whatever else is registered, cancelled or expires, a one-shot that is still pending runs the task it was
      registered with, and as the next callback if it is the first and the pass is in progress. */
  lemma OneShotRunsItsTask(env: Env, s: State, at: int, task: Task, pass: Pass, steps: seq<Step>)
    requires Good(s.book) && !s.exited
    ensures var (t, id) := DoRunAt(env, s, at, 0, task);
            var l := Run(env, Loop(t, pass), steps);
            && (id in l.s.book.timers ==> l.s.book.timers[id] == Once(task))
            && (l.pass.Expiring? && Due(l.s.book, l.pass.now) && First(l.s.book.timers.Keys) == id ==>
                  var u := Next(env, l, Pop).s;
                  && u == DoAll(env, l.s.(calls := l.s.calls + 1, book := ExpireOnce(l.s.book, id)), env.script(task, l.s.calls)))
  {
    hide DoRunAt, Run, ExpireOnce, DoAll;
    RunAtBook(env, s, at, 0, task);
    var (t, id) := DoRunAt(env, s, at, 0, task);
    AddHolds(s.book, at, task);
    RunHolds(env, Loop(t, pass), steps, id, Once(task));
  }

  lemma AddHolds(b: Book, at: int, task: Task)
    requires Good(b)
    ensures Holds(AddOnce(b, at, task), Id(at, b.timerSeq + 1), Once(task))
  {
  }

  // ---- A persistent timer never fires again after its cancel ----

  /** `rid` belonged to a persistent timer that is registered no longer. */
  ghost predicate Dead(b: Book, rid: Id) {
    TakenFor(b, Persistent(rid)) && rid !in b.reps
  }

  lemma AddStaysDead(b: Book, at: int, interval: int, task: Task, rid: Id)
    requires Numbers(b) && Dead(b, rid)
    ensures Dead(AddOnce(b, at, task), rid) && Dead(AddRep(b, at, interval, task), rid)
  {
  }

  lemma DropStaysDead(b: Book, id: Id, rid: Id)
    requires Dead(b, rid)
    ensures Dead(DropOnce(b, id), rid)
    ensures id in b.reps ==> Dead(DropRep(b, id), rid)
  {
  }

  lemma DoStaysDead(env: Env, s: State, act: Act, rid: Id)
    requires Numbers(s.book) && Dead(s.book, rid)
    ensures Dead(Do(env, s, act).book, rid) && Do(env, s, act).book.fired == s.book.fired
  {
    hide Numbers, Dead;
    match act
    case RunAt(at, interval, task) => AddStaysDead(s.book, at, interval, task, rid);
    case Cancel(id) => DropStaysDead(s.book, id, rid);
    case Exit =>
  }

  lemma {:induction false} DoAllStaysDead(env: Env, s: State, acts: seq<Act>, rid: Id)
    requires Good(s.book) && Dead(s.book, rid) && !DoAll(env, s, acts).misused
    ensures Dead(DoAll(env, s, acts).book, rid) && DoAll(env, s, acts).book.fired == s.book.fired
    decreases |acts|
  {
    if acts != [] {
      MisuseIsRemembered(env, Do(env, s, acts[0]), acts[1..]);
      DoGood(env, s, acts[0]);
      DoStaysDead(env, s, acts[0], rid);
      DoAllStaysDead(env, Do(env, s, acts[0]), acts[1..], rid);
    }
  }

  lemma ExpireStaysDead(b: Book, key: Id, rid: Id)
    requires Entries(b) && Numbers(b) && Dead(b, rid) && key in b.timers
    ensures b.timers[key].Once? ==> Dead(ExpireOnce(b, key), rid) && ExpireOnce(b, key).fired[rid] == b.fired[rid]
    ensures b.timers[key].Again? ==>
              var c := ExpireRep(b, key, b.timers[key].rid);
              Dead(c, rid) && c.fired[rid] == b.fired[rid]
  {
    if b.timers[key].Once? {
      assert TakenFor(b, OneShot(key));
    } else {
      assert b.timers[key].rid in b.reps && b.timers[key].rid != rid;
    }
  }

  lemma ExpiryStaysDead(env: Env, s: State, rid: Id)
    requires Entries(s.book) && Numbers(s.book) && Dead(s.book, rid) && s.book.timers != map[]
    ensures Dead(CallbackStart(env, s).book, rid) && CallbackStart(env, s).book.fired[rid] == s.book.fired[rid]
  {
    hide Numbers, Dead;
    var key := First(s.book.timers.Keys);
    ExpireStaysDead(s.book, key, rid);
    match s.book.timers[key]
    case Once(_) => assert CallbackStart(env, s).book == ExpireOnce(s.book, key);
    case Again(r) => assert CallbackStart(env, s).book == ExpireRep(s.book, key, r);
  }

  lemma FireStaysDead(env: Env, s: State, rid: Id)
    requires Good(s.book) && Dead(s.book, rid) && s.book.timers != map[] && !Fire(env, s).misused
    ensures Dead(Fire(env, s).book, rid) && Fire(env, s).book.fired[rid] == s.book.fired[rid]
  {
    CallbackStartsGood(env, s);
    ExpiryStaysDead(env, s, rid);
    DoAllStaysDead(env, CallbackStart(env, s), Script(env, s), rid);
  }

  lemma {:induction false} RunStaysDead(env: Env, l: Loop, steps: seq<Step>, rid: Id)
    requires Good(l.s.book) && Dead(l.s.book, rid) && !Run(env, l, steps).s.misused
    ensures Run(env, l, steps).s.book.fired[rid] == l.s.book.fired[rid] && rid !in Run(env, l, steps).s.book.reps
    decreases |steps|
  {
    if steps != [] {
      var next := Next(env, l, steps[0]);
      RunMisuse(env, next, steps[1..]);
      NextGood(env, l, steps[0]);
      assert Dead(next.s.book, rid) && next.s.book.fired[rid] == l.s.book.fired[rid] by {
        if Enabled(l, steps[0]) {
          match steps[0]
          case Api(act) => DoStaysDead(env, l.s, act, rid);
          case Pop => FireStaysDead(env, l.s, rid);
          case _ =>
        }
      }
      RunStaysDead(env, next, steps[1..], rid);
    }
  }

  /** From its cancel on (or the end of the loop), in every run, a persistent timer's callback never
      starts again. */
  lemma NeverFiresAfterCancel(env: Env, l: Loop, steps: seq<Step>, rid: Id)
    requires Good(l.s.book) && TakenFor(l.s.book, Persistent(rid))
    requires l.s.book.cancelled[rid] > 0 || rid in l.s.book.cleared
    requires !Run(env, l, steps).s.misused
    ensures Run(env, l, steps).s.book.fired[rid] == l.s.book.fired[rid]
  {
    assert Fate(l.s.book, l.s.book.taken[rid.num - 1]);
    RunStaysDead(env, l, steps, rid);
  }

  // ---- The poll timeout is never later than the nearest timer ----

  /** Truncation to `int` makes a timeout later exactly for a deadline overdue by more than 2^31 ms whose
      distance, modulo 2^32, exceeds 2^31. */
  lemma TruncationExact(d: int)
    ensures AtLeastZero(ToInt32(d)) <= AtLeastZero(d) <==> d >= -0x8000_0000 || (-d) % 0x1_0000_0000 <= 0x8000_0000
  {
    var wrap := 0x1_0000_0000;
    var q, p := (d + 0x8000_0000) / wrap, (-d) / wrap;
    assert ToInt32(d) == d - wrap * q && (-d) % wrap == -d - wrap * p;
    assert q + p == 0 || q + p == -1;
    assert ToInt32(d) == if q + p == 0 then -((-d) % wrap) else wrap - (-d) % wrap;
  }

  ghost predicate TimeoutOk(s: State) {
    && s.nextTimeout >= 0
    && (s.book.timers != map[] && !s.wraps ==>
          s.nextTimeout <= AtLeastZero(First(s.book.timers.Keys).at - s.refreshed))
  }

  lemma RefreshTimeout(env: Env, s: State)
    ensures TimeoutOk(Refresh(env, s))
  {
    RefreshTimeoutExact(env, s);
  }

  /** Right after a refresh the timeout is not late, except where the truncation wraps. */
  lemma RefreshTimeoutExact(env: Env, s: State)
    ensures var t := Refresh(env, s);
            && t.nextTimeout >= 0
            && (t.book.timers != map[] ==>
                  (t.nextTimeout <= AtLeastZero(First(t.book.timers.Keys).at - t.refreshed) <==> !t.wraps))
  {
    if s.book.timers != map[] {
      TruncationExact(First(s.book.timers.Keys).at - env.clock(s.ticks));
    }
  }

  /** What a refresh sets: 2^30 without timers; otherwise the distance of the nearest deadline, or 0 if that has
      passed, as far as the distance fits an `int`; and in general a distance modulo 2^32. */
  lemma RefreshExact(env: Env, s: State)
    ensures var t := Refresh(env, s);
            && t.book == s.book
            && (s.book.timers == map[] ==> t.nextTimeout == 0x4000_0000)
            && (s.book.timers != map[] ==>
                  var d := First(s.book.timers.Keys).at - t.refreshed;
                  && t.refreshed == env.clock(s.ticks)
                  && (-0x8000_0000 <= d < 0x8000_0000 ==> t.nextTimeout == AtLeastZero(d))
                  && (t.nextTimeout == 0 || (t.nextTimeout - d) % 0x1_0000_0000 == 0))
  {
    if s.book.timers != map[] {
      WrapsAround(First(s.book.timers.Keys).at - env.clock(s.ticks));
    }
  }

  lemma WrapsAround(d: int)
    ensures (ToInt32(d) - d) % 0x1_0000_0000 == 0
    ensures -0x8000_0000 <= d < 0x8000_0000 ==> ToInt32(d) == d
  {
    var wrap := 0x1_0000_0000;
    assert ToInt32(d) - d == wrap * (-((d + 0x8000_0000) / wrap));
  }

  /** Fewer timers: the same bound still holds although nothing refreshes it. */
  lemma FewerTimersTimeout(s: State, t: State)
    requires TimeoutOk(s) && t.book.timers.Keys <= s.book.timers.Keys
    requires t.nextTimeout == s.nextTimeout && t.refreshed == s.refreshed && t.wraps == s.wraps
    ensures TimeoutOk(t)
  {
    if t.book.timers != map[] {
      assert First(t.book.timers.Keys) in s.book.timers.Keys;
    }
  }

  lemma DoTimeout(env: Env, s: State, act: Act)
    requires TimeoutOk(s)
    ensures TimeoutOk(Do(env, s, act))
  {
    match act
    case RunAt(at, interval, task) =>
      RefreshTimeout(env, s.(book := AddRep(s.book, at, interval, task)));
      RefreshTimeout(env, s.(book := AddOnce(s.book, at, task)));
    case Cancel(id) => FewerTimersTimeout(s, DoCancel(s, id).0);
    case Exit =>
  }

  lemma {:induction false} DoAllTimeout(env: Env, s: State, acts: seq<Act>)
    requires TimeoutOk(s)
    ensures TimeoutOk(DoAll(env, s, acts))
    decreases |acts|
  {
    if acts != [] {
      DoTimeout(env, s, acts[0]);
      DoAllTimeout(env, Do(env, s, acts[0]), acts[1..]);
    }
  }

  lemma CallbackTimeout(env: Env, s: State)
    requires TimeoutOk(s) && s.book.timers != map[]
    ensures TimeoutOk(CallbackStart(env, s))
  {
    var key := First(s.book.timers.Keys);
    if s.book.timers[key].Again? && s.book.timers[key].rid in s.book.reps {
      RefreshTimeout(env, s.(calls := s.calls + 1, book := ExpireRep(s.book, key, s.book.timers[key].rid)));
    } else {
      FewerTimersTimeout(s, CallbackStart(env, s));
    }
  }

  lemma {:induction false} RunTimeout(env: Env, l: Loop, steps: seq<Step>)
    requires TimeoutOk(l.s)
    ensures TimeoutOk(Run(env, l, steps).s)
    decreases |steps|
  {
    if steps != [] {
      if Enabled(l, steps[0]) {
        match steps[0]
        case Api(act) => DoTimeout(env, l.s, act);
        case Pop =>
          CallbackTimeout(env, l.s);
          DoAllTimeout(env, CallbackStart(env, l.s), Script(env, l.s));
        case End => RefreshTimeout(env, l.s);
        case Clear => FewerTimersTimeout(l.s, Next(env, l, Clear).s);
        case Begin =>
      }
      RunTimeout(env, Next(env, l, steps[0]), steps[1..]);
    }
  }

  function PollWait(waitMs: int, nextTimeout: int): int { if waitMs < nextTimeout then waitMs else nextTimeout }

  /** After a refresh a poll that nothing wakes lasts neither shorter nor longer than to the nearest deadline, if
      that is less than 2^31 ms away, and than it was asked to last. */
  lemma PollLastsExactly(env: Env, s: State, waitMs: int)
    requires s.book.timers != map[] ==> -0x8000_0000 <= First(s.book.timers.Keys).at - env.clock(s.ticks) < 0x8000_0000
    ensures var t := Refresh(env, s);
            PollWait(waitMs, t.nextTimeout)
            == Min(waitMs, if s.book.timers == map[] then 0x4000_0000
                           else AtLeastZero(First(s.book.timers.Keys).at - t.refreshed))
  {
    RefreshExact(env, s);
  }

  /** A poll that starts at instant `t` ends no later than the nearest deadline (or at once if that has
      passed), but for the time since the last refresh. */
  lemma PollEndsInTime(env: Env, steps: seq<Step>, t: int, waitMs: int)
    requires waitMs >= 0
    ensures var s := Run(env, Loop(START, Idle), steps).s;
            && PollWait(waitMs, s.nextTimeout) >= 0
            && (s.book.timers != map[] && !s.wraps && s.refreshed <= t ==>
                  var first := First(s.book.timers.Keys).at;
                  t + PollWait(waitMs, s.nextTimeout) <= (if first < t then t else first) + (t - s.refreshed))
  {
    RunTimeout(env, Loop(START, Idle), steps);
  }
}
