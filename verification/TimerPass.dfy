/** One expiry pass: it ends, it fires in order, and a persistent timer catches up exactly. */
module TimerPass {
  import opened Timers
  import opened TimerRuns

  // ---- Totals over finite maps ----

  ghost function Total(m: map<Id, nat>): nat
    decreases |m|
  {
    if m == map[] then 0 else var k := First(m.Keys); m[k] + Total(m - {k})
  }

  lemma {:induction false} TotalSplit(m: map<Id, nat>, k: Id)
    requires k in m
    ensures Total(m) == m[k] + Total(m - {k})
    decreases |m|
  {
    var f := First(m.Keys);
    if f != k {
      TotalSplit(m - {f}, k);
      TotalSplit(m - {k}, f);
      assert m - {f} - {k} == m - {k} - {f};
    }
  }

  lemma {:induction false} TotalAtMost(a: map<Id, nat>, b: map<Id, nat>)
    requires forall k | k in a :: k in b && a[k] <= b[k]
    ensures Total(a) <= Total(b)
    decreases |a|
  {
    if a != map[] {
      var k := First(a.Keys);
      TotalSplit(b, k);
      TotalAtMost(a - {k}, b - {k});
    }
  }

  /** A key of weight `w` replaces nothing, all others weigh no more than before. */
  lemma TotalWithNew(a: map<Id, nat>, b: map<Id, nat>, key: Id)
    requires key in a && forall k | k in a && k != key :: k in b && a[k] <= b[k]
    ensures Total(a) <= a[key] + Total(b)
  {
    TotalSplit(a, key);
    TotalAtMost(a - {key}, b);
  }

  // ---- The measure of the expiry loop ----

  /** How often an entry can still expire in a pass with snapshot `now`. */
  ghost function Weight(b: Book, now: int, k: Id): nat
    requires k in b.timers
  {
    if !Less(k, Id(now, LAST_NUM)) then 0
    else if b.timers[k].Again? && b.timers[k].rid in b.reps && b.reps[b.timers[k].rid].interval > 0 then
      (now - k.at) / b.reps[b.timers[k].rid].interval + 1
    else 1
  }

  ghost function Weights(b: Book, now: int): map<Id, nat> {
    map k | k in b.timers :: Weight(b, now, k)
  }

  ghost function Work(b: Book, now: int): nat { Total(Weights(b, now)) }

  /** Every persistent timer that is due has a positive interval. */
  ghost predicate DuePositive(b: Book, now: int) {
    forall k | k in b.timers && b.timers[k].Again? && Less(k, Id(now, LAST_NUM)) && b.timers[k].rid in b.reps ::
      b.reps[b.timers[k].rid].interval > 0
  }

  /** A callback that asks only for timers after `now`. */
  predicate Later(acts: seq<Act>, now: int) {
    forall i | 0 <= i < |acts| && acts[i].RunAt? :: acts[i].at > now
  }

  /** From the call numbered `calls` on, callbacks ask only for timers after `now`. */
  ghost predicate AllLater(env: Env, calls: nat, now: int) {
    forall task: Task, n: nat :: n >= calls ==> Later(env.script(task, n), now)
  }

  /** A callback that asks for no timer before `now`, and at `now` for none with a negative interval. */
  predicate Asks(acts: seq<Act>, now: int) {
    forall i | 0 <= i < |acts| && acts[i].RunAt? :: acts[i].at > now || (acts[i].at == now && acts[i].interval >= 0)
  }

  ghost predicate AllAsk(env: Env, calls: nat, now: int) {
    forall task: Task, n: nat :: n >= calls ==> Asks(env.script(task, n), now)
  }

  lemma {:induction false} DoAllCalls(env: Env, s: State, acts: seq<Act>)
    ensures DoAll(env, s, acts).calls == s.calls
    decreases |acts|
  {
    if acts != [] {
      DoAllCalls(env, Do(env, s, acts[0]), acts[1..]);
    }
  }

  /** A round is one more call. */
  lemma FireCalls(env: Env, s: State, now: int)
    requires s.book.timers != map[]
    ensures Fire(env, s).calls == s.calls + 1
    ensures AllLater(env, s.calls, now) ==> AllLater(env, Fire(env, s).calls, now)
    ensures AllAsk(env, s.calls, now) ==> AllAsk(env, Fire(env, s).calls, now)
  {
    DoAllCalls(env, CallbackStart(env, s), Script(env, s));
  }

  lemma AddOnceWork(b: Book, now: int, at: int, task: Task)
    requires Entries(b) && at > now
    ensures Work(AddOnce(b, at, task), now) <= Work(b, now)
  {
    var c := AddOnce(b, at, task);
    TotalWithNew(Weights(c, now), Weights(b, now), Id(at, b.timerSeq + 1));
  }

  lemma AddRepWork(b: Book, now: int, at: int, interval: int, task: Task)
    requires Entries(b) && at > now
    ensures Work(AddRep(b, at, interval, task), now) <= Work(b, now)
  {
    var c := AddRep(b, at, interval, task);
    TotalWithNew(Weights(c, now), Weights(b, now), Id(at, b.timerSeq + 2));
  }

  lemma DropOnceWork(b: Book, now: int, id: Id)
    ensures Work(DropOnce(b, id), now) <= Work(b, now)
  {
    TotalAtMost(Weights(DropOnce(b, id), now), Weights(b, now));
  }

  lemma DropRepWork(b: Book, now: int, id: Id)
    requires Entries(b) && id in b.reps
    ensures Work(DropRep(b, id), now) <= Work(b, now)
  {
    TotalAtMost(Weights(DropRep(b, id), now), Weights(b, now));
  }

  lemma ExpireOnceWork(b: Book, now: int, key: Id)
    requires Entries(b) && key in b.timers && b.timers[key].Once? && Less(key, Id(now, LAST_NUM))
    ensures Work(ExpireOnce(b, key), now) < Work(b, now)
  {
    TotalSplit(Weights(b, now), key);
    TotalAtMost(Weights(ExpireOnce(b, key), now), Weights(b, now) - {key});
  }

  lemma TimesAtLeast(x: int, k: int)
    requires x > 0 && k >= 1
    ensures x * k >= x
  {
    assert x * k == x + x * (k - 1);
  }

  lemma DivideUnique(d: int, interval: int, q: int, r: int)
    requires interval > 0 && d == interval * q + r && 0 <= r < interval
    ensures q == d / interval
  {
    var p := d / interval;
    assert interval * p + d % interval == d;
    assert interval * (p - q) == interval * p - interval * q;
    assert interval * (q - p) == interval * q - interval * p;
    if q < p {
      TimesAtLeast(interval, p - q);
    } else if p < q {
      TimesAtLeast(interval, q - p);
    }
  }

  /** One interval later, a due timer can expire once less. */
  lemma OneIntervalLess(d: int, interval: int)
    requires d >= 0 && interval > 0
    ensures d >= interval ==> (d - interval) / interval + 1 == d / interval
    ensures d / interval >= 0
  {
    if d >= interval {
      DivideUnique(d - interval, interval, d / interval - 1, d % interval);
    }
  }

  lemma ExpireRepWork(b: Book, now: int, key: Id)
    requires Entries(b) && DuePositive(b, now)
    requires key in b.timers && b.timers[key].Again? && Less(key, Id(now, LAST_NUM))
    ensures Work(ExpireRep(b, key, b.timers[key].rid), now) < Work(b, now)
  {
    var rid := b.timers[key].rid;
    var c := ExpireRep(b, key, rid);
    var interval := b.reps[rid].interval;
    var next := Id(key.at + interval, b.timerSeq + 1);
    hide DuePositive, Weight;
    TotalSplit(Weights(b, now), key);
    NextWeighsLess(b, now, key);
    forall k | k in c.timers && k != next
      ensures k in b.timers && k != key && Weight(c, now, k) <= Weight(b, now, k)
    {
      OthersWeighTheSame(b, now, key, k);
    }
    TotalWithNew(Weights(c, now), Weights(b, now) - {key}, next);
  }

  lemma NextWeighsLess(b: Book, now: int, key: Id)
    requires Entries(b) && DuePositive(b, now)
    requires key in b.timers && b.timers[key].Again? && Less(key, Id(now, LAST_NUM))
    ensures var rid := b.timers[key].rid;
            var c, next := ExpireRep(b, key, rid), Id(key.at + b.reps[rid].interval, b.timerSeq + 1);
            next in c.timers && Weight(c, now, next) < Weight(b, now, key)
  {
    OneIntervalLess(now - key.at, b.reps[b.timers[key].rid].interval);
  }

  lemma OthersWeighTheSame(b: Book, now: int, key: Id, k: Id)
    requires Entries(b) && key in b.timers && b.timers[key].Again?
    requires var rid := b.timers[key].rid;
             k in ExpireRep(b, key, rid).timers && k != Id(key.at + b.reps[rid].interval, b.timerSeq + 1)
    ensures k in b.timers && k != key && Weight(ExpireRep(b, key, b.timers[key].rid), now, k) == Weight(b, now, k)
  {
  }

  // ---- The pass ends ----

  lemma AddDuePositive(b: Book, at: int, interval: int, task: Task, now: int)
    requires Entries(b) && DuePositive(b, now) && (at > now || interval >= 0)
    ensures DuePositive(AddOnce(b, at, task), now)
    ensures interval != 0 ==> DuePositive(AddRep(b, at, interval, task), now)
  {
  }

  lemma DropDuePositive(b: Book, id: Id, now: int)
    requires Entries(b) && DuePositive(b, now)
    ensures DuePositive(DropOnce(b, id), now)
    ensures id in b.reps ==> DuePositive(DropRep(b, id), now)
  {
  }

  lemma DoDuePositive(env: Env, s: State, act: Act, now: int)
    requires Entries(s.book) && DuePositive(s.book, now) && Asks([act], now)
    ensures DuePositive(Do(env, s, act).book, now)
  {
    hide Entries, DuePositive;
    match act
    case RunAt(at, interval, task) =>
      assert [act][0].RunAt?;
      AddDuePositive(s.book, at, interval, task, now);
    case Cancel(id) => DropDuePositive(s.book, id, now);
    case Exit =>
  }

  lemma DoWork(env: Env, s: State, act: Act, now: int)
    requires Entries(s.book) && Later([act], now)
    ensures Work(Do(env, s, act).book, now) <= Work(s.book, now)
  {
    hide Work, Entries;
    match act
    case RunAt(at, interval, task) =>
      assert [act][0].RunAt?;
      if interval != 0 {
        AddRepWork(s.book, now, at, interval, task);
      } else {
        AddOnceWork(s.book, now, at, task);
      }
    case Cancel(id) =>
      DropOnceWork(s.book, now, id);
      if id in s.book.reps {
        DropRepWork(s.book, now, id);
      }
    case Exit =>
  }

  lemma {:induction false} DoAllWork(env: Env, s: State, acts: seq<Act>, now: int)
    requires Entries(s.book) && DuePositive(s.book, now) && Later(acts, now)
    ensures var t := DoAll(env, s, acts);
            Entries(t.book) && DuePositive(t.book, now) && Work(t.book, now) <= Work(s.book, now)
    decreases |acts|
  {
    hide Entries, DuePositive, Work, Do;
    if acts != [] {
      DoEntries(env, s, acts[0]);
      DoDuePositive(env, s, acts[0], now);
      DoWork(env, s, acts[0], now);
      DoAllWork(env, Do(env, s, acts[0]), acts[1..], now);
    }
  }

  lemma ExpiryDuePositive(b: Book, key: Id, now: int)
    requires Entries(b) && DuePositive(b, now) && key in b.timers && Less(key, Id(now, LAST_NUM))
    ensures DuePositive(ExpireOnce(b, key), now)
    ensures b.timers[key].Again? ==>
              b.timers[key].rid in b.reps && DuePositive(ExpireRep(b, key, b.timers[key].rid), now)
  {
  }

  lemma CallbackWork(env: Env, s: State, now: int)
    requires Entries(s.book) && DuePositive(s.book, now) && Due(s.book, now)
    ensures var t := CallbackStart(env, s);
            Entries(t.book) && DuePositive(t.book, now) && Work(t.book, now) < Work(s.book, now)
  {
    hide Entries, DuePositive, Work;
    var key := First(s.book.timers.Keys);
    ExpireEntries(s.book, key);
    ExpiryDuePositive(s.book, key, now);
    match s.book.timers[key]
    case Once(_) =>
      ExpireOnceWork(s.book, now, key);
      assert CallbackStart(env, s).book == ExpireOnce(s.book, key);
    case Again(rid) =>
      ExpireRepWork(s.book, now, key);
      assert CallbackStart(env, s).book == ExpireRep(s.book, key, rid);
  }

  /** Every round of the loop lowers the measure although persistent timers put themselves back. */
  lemma FireLowersWork(env: Env, s: State, now: int)
    requires Entries(s.book) && DuePositive(s.book, now) && AllLater(env, s.calls, now) && Due(s.book, now)
    ensures Entries(Fire(env, s).book) && DuePositive(Fire(env, s).book, now)
    ensures Work(Fire(env, s).book, now) < Work(s.book, now)
  {
    CallbackWork(env, s, now);
    DoAllWork(env, CallbackStart(env, s), Script(env, s), now);
  }

  /** The pass ends within `Work` rounds and leaves nothing due, provided callbacks ask only for later
      timers. */
  lemma {:induction false} PassEnds(env: Env, s: State, now: int, n: nat)
    requires Entries(s.book) && DuePositive(s.book, now) && AllLater(env, s.calls, now) && n >= Work(s.book, now)
    ensures !Due(Rounds(env, s, now, n).book, now)
    decreases n
  {
    hide Entries, DuePositive, AllLater, Work, Fire;
    RoundsUnfold(env, s, now, n);
    if Due(s.book, now) {
      FireLowersWork(env, s, now);
      FireCalls(env, s, now);
      PassEnds(env, Fire(env, s), now, n - 1);
    }
  }

  /** A due persistent timer with a negative interval is put back as due, whatever expires. */
  lemma ExpiryStaysNegative(b: Book, key: Id, now: int)
    requires Entries(b) && !DuePositive(b, now) && key in b.timers
    ensures b.timers[key].Once? ==> !DuePositive(ExpireOnce(b, key), now)
    ensures b.timers[key].Again? ==> !DuePositive(ExpireRep(b, key, b.timers[key].rid), now)
  {
    var k :| k in b.timers && b.timers[k].Again? && Less(k, Id(now, LAST_NUM)) && b.timers[k].rid in b.reps
             && b.reps[b.timers[k].rid].interval <= 0;
    var rid := b.timers[k].rid;
    if b.timers[key].Once? {
      assert k in ExpireOnce(b, key).timers;
    } else if k == key {
      assert ExpireRep(b, key, rid).timers[Id(b.reps[rid].at + b.reps[rid].interval, b.timerSeq + 1)] == Again(rid);
    } else {
      assert ExpireRep(b, key, b.timers[key].rid).timers[k] == Again(rid);
    }
  }

  /** From the call numbered `calls` on, callbacks cancel nothing. */
  ghost predicate NoCancels(env: Env, calls: nat) {
    forall task: Task, n: nat :: n >= calls ==> forall act | act in env.script(task, n) :: !act.Cancel?
  }

  lemma DoStaysNegative(env: Env, s: State, act: Act, now: int)
    requires Entries(s.book) && !DuePositive(s.book, now) && !act.Cancel?
    ensures !DuePositive(Do(env, s, act).book, now)
  {
    var k :| k in s.book.timers && s.book.timers[k].Again? && Less(k, Id(now, LAST_NUM)) && s.book.timers[k].rid in s.book.reps
             && s.book.reps[s.book.timers[k].rid].interval <= 0;
    assert k in Do(env, s, act).book.timers;
  }

  lemma {:induction false} DoAllStaysNegative(env: Env, s: State, acts: seq<Act>, now: int)
    requires Entries(s.book) && !DuePositive(s.book, now) && forall act | act in acts :: !act.Cancel?
    ensures Entries(DoAll(env, s, acts).book) && !DuePositive(DoAll(env, s, acts).book, now)
    decreases |acts|
  {
    hide Entries, DuePositive, Do;
    if acts != [] {
      DoEntries(env, s, acts[0]);
      DoStaysNegative(env, s, acts[0], now);
      DoAllStaysNegative(env, Do(env, s, acts[0]), acts[1..], now);
    }
  }

  lemma CallbackStaysNegative(env: Env, s: State, now: int)
    requires Entries(s.book) && !DuePositive(s.book, now)
    ensures Due(s.book, now)
    ensures Entries(CallbackStart(env, s).book) && !DuePositive(CallbackStart(env, s).book, now)
  {
    hide Entries;
    NegativeIsDue(s.book, now);
    hide DuePositive;
    var key := First(s.book.timers.Keys);
    ExpireEntries(s.book, key);
    ExpiryStaysNegative(s.book, key, now);
    EntryHasRecord(s.book, key);
  }

  lemma NegativeIsDue(b: Book, now: int)
    requires !DuePositive(b, now)
    ensures Due(b, now)
  {
  }

  lemma EntryHasRecord(b: Book, key: Id)
    requires Entries(b) && key in b.timers
    ensures b.timers[key].Again? ==> b.timers[key].rid in b.reps
  {
  }

  lemma NoCancelsInScript(env: Env, s: State)
    requires NoCancels(env, s.calls) && s.book.timers != map[]
    ensures forall act | act in Script(env, s) :: !act.Cancel?
    ensures NoCancels(env, s.calls + 1)
  {
  }

  lemma {:induction false} NegativeNeverEnds(env: Env, s: State, now: int, n: nat)
    requires Entries(s.book) && !DuePositive(s.book, now) && NoCancels(env, s.calls)
    ensures Due(Rounds(env, s, now, n).book, now)
    decreases n
  {
    hide Entries, DuePositive, NoCancels, CallbackStart, Script, DoAll, Due;
    CallbackStaysNegative(env, s, now);
    if n > 0 {
      DueHasTimers(s.book, now);
      NoCancelsInScript(env, s);
      FireCalls(env, s, now);
      DoAllStaysNegative(env, CallbackStart(env, s), Script(env, s), now);
      RoundsUnfold(env, s, now, n);
      NegativeNeverEnds(env, Fire(env, s), now, n - 1);
    }
  }

  lemma DueHasTimers(b: Book, now: int)
    requires Due(b, now)
    ensures b.timers != map[]
  {
  }

  /** `runAt` accepts a negative interval.  With callbacks that ask only for later timers and cancel nothing,
      the pass ends exactly if every persistent timer that is due has a positive one. */
  lemma PassEndsExact(env: Env, s: State, now: int)
    requires Entries(s.book) && AllLater(env, s.calls, now) && NoCancels(env, s.calls)
    ensures (exists n: nat :: !Due(Rounds(env, s, now, n).book, now)) <==> DuePositive(s.book, now)
  {
    hide Entries, DuePositive, AllLater, NoCancels, Work, Rounds, Due;
    if DuePositive(s.book, now) {
      PassEnds(env, s, now, Work(s.book, now));
    } else {
      forall n: nat
        ensures Due(Rounds(env, s, now, n).book, now)
      {
        NegativeNeverEnds(env, s, now, n);
      }
    }
  }

  lemma {:induction false} DoAllEntries(env: Env, s: State, acts: seq<Act>)
    requires Entries(s.book)
    ensures Entries(DoAll(env, s, acts).book)
    decreases |acts|
  {
    hide Entries, Do;
    if acts != [] {
      DoEntries(env, s, acts[0]);
      DoAllEntries(env, Do(env, s, acts[0]), acts[1..]);
    }
  }

  lemma FireEntries(env: Env, s: State)
    requires Entries(s.book) && s.book.timers != map[]
    ensures Entries(Fire(env, s).book)
  {
    hide Entries, Script, DoAll;
    var key := First(s.book.timers.Keys);
    ExpireEntries(s.book, key);
    EntryHasRecord(s.book, key);
    DoAllEntries(env, CallbackStart(env, s), Script(env, s));
  }

  /** After `n` rounds the pass goes on as from a new state. */
  lemma {:induction false} RoundsCompose(env: Env, s: State, now: int, n: nat, m: nat)
    requires Entries(s.book) && AllLater(env, s.calls, now)
    ensures var t := Rounds(env, s, now, n);
            Entries(t.book) && AllLater(env, t.calls, now) && Rounds(env, t, now, m) == Rounds(env, s, now, n + m)
    decreases n
  {
    hide Entries, AllLater, Fire, Due;
    RoundsUnfold(env, s, now, n);
    RoundsUnfold(env, s, now, m);
    RoundsUnfold(env, s, now, n + m);
    if n > 0 && Due(s.book, now) {
      DueHasTimers(s.book, now);
      FireEntries(env, s);
      FireCalls(env, s, now);
      RoundsCompose(env, Fire(env, s), now, n - 1, m);
    }
  }

  /** With callbacks that ask only for later timers, whatever they cancel, the pass ends exactly if after some
      round no due timer with a negative interval is left. */
  lemma PassEndsOncePositive(env: Env, s: State, now: int)
    requires Entries(s.book) && AllLater(env, s.calls, now)
    ensures (exists n: nat :: !Due(Rounds(env, s, now, n).book, now))
            <==> exists n: nat :: DuePositive(Rounds(env, s, now, n).book, now)
  {
    hide Entries, DuePositive, AllLater, Work, Rounds, Due;
    if n: nat :| DuePositive(Rounds(env, s, now, n).book, now) {
      var t := Rounds(env, s, now, n);
      var m := Work(t.book, now);
      RoundsCompose(env, s, now, n, m);
      PassEnds(env, t, now, m);
    }
    forall n: nat | !Due(Rounds(env, s, now, n).book, now)
      ensures DuePositive(Rounds(env, s, now, n).book, now)
    {
      if !DuePositive(Rounds(env, s, now, n).book, now) {
        NegativeIsDue(Rounds(env, s, now, n).book, now);
      }
    }
  }

  lemma FireUnfold(env: Env, s: State)
    requires s.book.timers != map[] && Entries(s.book)
    ensures var b, t := s.book, s.(calls := s.calls + 1);
            var key := First(b.timers.Keys);
            match b.timers[key]
            case Once(task) => Fire(env, s) == DoAll(env, t.(book := ExpireOnce(b, key)), env.script(task, s.calls))
            case Again(rid) =>
              && rid in b.reps
              && Fire(env, s) == DoAll(env, Refresh(env, t.(book := ExpireRep(b, key, rid))), env.script(b.reps[rid].task, s.calls))
  {
  }

  lemma RoundsUnfold(env: Env, s: State, now: int, n: nat)
    ensures !Due(s.book, now) ==> Rounds(env, s, now, n) == s
    ensures Due(s.book, now) && n > 0 ==> Rounds(env, s, now, n) == Rounds(env, Fire(env, s), now, n - 1)
  {
  }

  // ---- The pass as a whole ----

  /** What the pass asks of its caller: due persistent timers have positive intervals and the callbacks still
      to come, if any is due, ask only for timers after the snapshot. */
  ghost predicate PassReady(env: Env, s: State) {
    var now := env.clock(s.ticks);
    Entries(s.book) && DuePositive(s.book, now) && (Due(s.book, now) ==> AllLater(env, s.calls, now))
  }

  /** The rounds of one pass, up to the one after which nothing is due. */
  ghost function PassRounds(env: Env, s: State): State {
    Rounds(env, s.(ticks := s.ticks + 1), env.clock(s.ticks), Work(s.book, env.clock(s.ticks)))
  }

  lemma PassRoundsEnd(env: Env, s: State)
    requires PassReady(env, s)
    ensures !Due(PassRounds(env, s).book, env.clock(s.ticks))
  {
    hide Entries, DuePositive, AllLater, Work, Rounds, Due;
    var t, now := s.(ticks := s.ticks + 1), env.clock(s.ticks);
    if Due(s.book, now) {
      PassEnds(env, t, now, Work(s.book, now));
    } else {
      RoundsUnfold(env, t, now, Work(s.book, now));
    }
  }

  lemma {:induction false} RoundsAreSteps(env: Env, s: State, now: int, n: nat) returns (steps: seq<Step>)
    ensures Run(env, Loop(s, Expiring(now)), steps) == Loop(Rounds(env, s, now, n), Expiring(now))
    decreases n
  {
    hide Fire, Due;
    RoundsUnfold(env, s, now, n);
    if n > 0 && Due(s.book, now) {
      PopUnfold(env, s, now);
      steps := RoundsAreSteps(env, Fire(env, s), now, n - 1);
      steps := [Pop] + steps;
    } else {
      steps := [];
    }
  }

  lemma PopUnfold(env: Env, s: State, now: int)
    requires Due(s.book, now)
    ensures s.book.timers != map[] && Next(env, Loop(s, Expiring(now)), Pop) == Loop(Fire(env, s), Expiring(now))
  {
  }

  lemma {:induction false} RunAppend(env: Env, l: Loop, xs: seq<Step>, ys: seq<Step>)
    ensures Run(env, l, xs + ys) == Run(env, Run(env, l, xs), ys)
    decreases |xs|
  {
    hide Next;
    if xs == [] {
      assert xs + ys == ys;
    } else {
      RunAppend(env, Next(env, l, xs[0]), xs[1..], ys);
      assert (xs + ys)[1..] == xs[1..] + ys;
    }
  }

  /** A whole pass and its refresh are steps of the event loop's machine, so what holds over its runs holds
      over passes. */
  lemma PassIsARun(env: Env, s: State) returns (steps: seq<Step>)
    requires PassReady(env, s)
    ensures Run(env, Loop(s, Idle), steps) == Loop(Refresh(env, PassRounds(env, s)), Idle)
  {
    hide Entries, DuePositive, AllLater, Work, Rounds, Due, Refresh, Fire;
    var t, now := s.(ticks := s.ticks + 1), env.clock(s.ticks);
    var pops := RoundsAreSteps(env, t, now, Work(s.book, now));
    PassRoundsEnd(env, s);
    var e := Loop(PassRounds(env, s), Expiring(now));
    RunAppend(env, Loop(s, Idle), [Begin] + pops, [End]);
    RunAppend(env, Loop(s, Idle), [Begin], pops);
    RunOne(env, Loop(s, Idle), Begin);
    RunOne(env, e, End);
    steps := [Begin] + pops + [End];
  }

  lemma RunOne(env: Env, l: Loop, step: Step)
    ensures Run(env, l, [step]) == Next(env, l, step)
  {
    hide Next;
    assert [step][1..] == [];
  }

  /** Once the loop has been left, callbacks register nothing any more. */
  lemma {:induction false} ExitedStaysEmpty(env: Env, s: State, acts: seq<Act>)
    requires s.exited && s.book.timers == map[] && s.book.reps == map[]
    ensures var t := DoAll(env, s, acts); t.exited && t.book.timers == map[] && t.book.reps == map[]
    decreases |acts|
  {
    if acts != [] {
      ExitedStaysEmpty(env, Do(env, s, acts[0]), acts[1..]);
    }
  }

  lemma NothingToExpire(env: Env, s: State)
    requires s.book.timers == map[] && s.book.reps == map[]
    ensures PassReady(env, s) && PassRounds(env, s) == s.(ticks := s.ticks + 1)
  {
  }

  /** Below 2^62 sequence numbers, "nothing due" means that every deadline lies after the snapshot. */
  lemma NothingDueMeansLater(b: Book, now: int)
    requires Entries(b) && b.timerSeq < LAST_NUM
    ensures !Due(b, now) <==> forall k | k in b.timers :: k.at > now
  {
    if b.timers != map[] {
      assert First(b.timers.Keys) in b.timers;
    }
  }

  // ---- Keys expire in strictly increasing order ----

  ghost predicate AllAbove(b: Book, last: Id) {
    last.num <= b.timerSeq && forall k | k in b.timers :: Less(last, k)
  }

  ghost predicate Ascending(last: Id, keys: seq<Id>)
    decreases |keys|
  {
    keys != [] ==> Less(last, keys[0]) && Ascending(keys[0], keys[1..])
  }

  lemma {:induction false} DoAllAbove(env: Env, s: State, acts: seq<Act>, last: Id, now: int)
    requires AllAbove(s.book, last) && Asks(acts, now) && last.at <= now
    ensures AllAbove(DoAll(env, s, acts).book, last) && DoAll(env, s, acts).book.log == s.book.log
    decreases |acts|
  {
    if acts != [] {
      DoAllAbove(env, Do(env, s, acts[0]), acts[1..], last, now);
    }
  }

  lemma FireAbove(env: Env, s: State, now: int)
    requires Entries(s.book) && DuePositive(s.book, now) && AllAsk(env, s.calls, now) && Due(s.book, now)
    ensures var key := First(s.book.timers.Keys);
            && AllAbove(Fire(env, s).book, key) && Fire(env, s).book.log == s.book.log + [key]
  {
    var key := First(s.book.timers.Keys);
    var t := CallbackStart(env, s);
    assert AllAbove(t.book, key);
    DoAllAbove(env, t, Script(env, s), key, now);
  }

  lemma {:induction false} DoAllDuePositive(env: Env, s: State, acts: seq<Act>, now: int)
    requires Entries(s.book) && DuePositive(s.book, now) && Asks(acts, now)
    ensures Entries(DoAll(env, s, acts).book) && DuePositive(DoAll(env, s, acts).book, now)
    decreases |acts|
  {
    hide Entries, DuePositive, Do;
    if acts != [] {
      DoEntries(env, s, acts[0]);
      DoDuePositive(env, s, acts[0], now);
      DoAllDuePositive(env, Do(env, s, acts[0]), acts[1..], now);
    }
  }

  lemma FireDuePositive(env: Env, s: State, now: int)
    requires Entries(s.book) && DuePositive(s.book, now) && AllAsk(env, s.calls, now) && Due(s.book, now)
    ensures Entries(Fire(env, s).book) && DuePositive(Fire(env, s).book, now)
  {
    CallbackWork(env, s, now);
    DoAllDuePositive(env, CallbackStart(env, s), Script(env, s), now);
  }

  lemma {:induction false} RoundsAscend(env: Env, s: State, now: int, n: nat, last: Id) returns (keys: seq<Id>)
    requires Entries(s.book) && DuePositive(s.book, now) && AllAsk(env, s.calls, now) && AllAbove(s.book, last)
    ensures Rounds(env, s, now, n).book.log == s.book.log + keys
    ensures Ascending(last, keys) && forall i | 0 <= i < |keys| :: Less(keys[i], Id(now, LAST_NUM))
    decreases n
  {
    hide Entries, DuePositive, AllAsk, Fire;
    if n == 0 || !Due(s.book, now) {
      keys := [];
    } else {
      var key := First(s.book.timers.Keys);
      FireAbove(env, s, now);
      FireDuePositive(env, s, now);
      FireCalls(env, s, now);
      keys := RoundsAscend(env, Fire(env, s), now, n - 1, key);
      assert s.book.log + [key] + keys == s.book.log + ([key] + keys);
      keys := [key] + keys;
    }
  }

  lemma {:induction false} AscendingPairs(last: Id, keys: seq<Id>, i: nat, j: nat)
    requires Ascending(last, keys) && i < j < |keys|
    ensures Less(keys[i], keys[j]) && Less(last, keys[j])
    decreases |keys|
  {
    if i > 0 {
      AscendingPairs(keys[0], keys[1..], i - 1, j - 1);
    } else if j > 1 {
      AscendingPairs(keys[0], keys[1..], 0, j - 1);
    }
  }

  lemma FirstAbove(b: Book)
    requires Entries(b) && b.timers != map[]
    ensures var first := First(b.timers.Keys); AllAbove(b, Id(first.at, first.num - 1))
  {
  }

  /** The keys that expire in one pass are strictly increasing in (deadline, sequence number) and none
      lies after the snapshot. */
  lemma PassFiresInOrder(env: Env, s: State, now: int, n: nat)
    requires Entries(s.book) && DuePositive(s.book, now) && AllAsk(env, s.calls, now) && Due(s.book, now)
    ensures var log := Rounds(env, s, now, n).book.log;
            && s.book.log <= log
            && (forall i, j | |s.book.log| <= i < j < |log| :: Less(log[i], log[j]))
            && (forall i | |s.book.log| <= i < |log| :: log[i].at <= now)
  {
    hide Entries, DuePositive, AllAsk, AllAbove, Rounds;
    var first := First(s.book.timers.Keys);
    var before := Id(first.at, first.num - 1);
    FirstAbove(s.book);
    var keys := RoundsAscend(env, s, now, n, before);
    var start := |s.book.log|;
    var log := Rounds(env, s, now, n).book.log;
    forall i, j | start <= i < j < |log|
      ensures Less(log[i], log[j])
    {
      AscendingPairs(before, keys, i - start, j - start);
    }
    forall i | start <= i < |log|
      ensures log[i].at <= now
    {
      assert Less(keys[i - start], Id(now, LAST_NUM));
    }
  }

  // ---- A persistent timer catches up exactly ----

  function Nth(a: int, interval: int, c: int): int { a + c * interval }

  lemma NthNext(a: int, interval: int, c: int)
    ensures Nth(a, interval, c + 1) == Nth(a, interval, c) + interval
  {
    assert (c + 1) * interval == c * interval + interval;
  }

  /** Since `a`, the timer has fired `c` times, each time when it was due, one interval apart. */
  ghost predicate CaughtUp(b: Book, rid: Id, a: int, interval: int, c: int, now: int) {
    && rid in b.reps && b.reps[rid].interval == interval && c >= 0
    && b.reps[rid].at == Nth(a, interval, c)
    && (c > 0 ==> b.reps[rid].at - interval <= now)
  }

  /** The parts of `Good` that say where a registered persistent timer stands. */
  lemma GoodParts(b: Book, rid: Id)
    requires Good(b)
    ensures Entries(b) && Numbers(b)
    ensures rid in b.reps ==> TakenFor(b, Persistent(rid))
    ensures rid in b.reps ==> b.reps[rid].timerId in b.timers && b.reps[rid].timerId.at == b.reps[rid].at
  {
  }

  lemma DoKeepsRep(env: Env, s: State, act: Act, rid: Id)
    requires Entries(s.book) && rid in s.book.reps && rid in Do(env, s, act).book.reps
    ensures Do(env, s, act).book.reps[rid] == s.book.reps[rid] && Do(env, s, act).book.fired == s.book.fired
  {
  }

  lemma DoKeepsTicket(env: Env, s: State, act: Act, t: Ticket)
    requires TakenFor(s.book, t)
    ensures TakenFor(Do(env, s, act).book, t)
  {
  }

  /** What is registered at the end of a script was registered all along. */
  lemma {:induction false} DoAllKeepsRep(env: Env, s: State, acts: seq<Act>, rid: Id)
    requires Good(s.book) && TakenFor(s.book, Persistent(rid))
    requires !DoAll(env, s, acts).misused && rid in DoAll(env, s, acts).book.reps
    ensures rid in s.book.reps && DoAll(env, s, acts).book.reps[rid] == s.book.reps[rid]
    ensures DoAll(env, s, acts).book.fired == s.book.fired && TakenFor(DoAll(env, s, acts).book, Persistent(rid))
    decreases |acts|
  {
    hide Good;
    if acts != [] {
      MisuseIsRemembered(env, Do(env, s, acts[0]), acts[1..]);
      DoGood(env, s, acts[0]);
      DoKeepsTicket(env, s, acts[0], Persistent(rid));
      GoodParts(s.book, rid);
      DoAllKeepsRep(env, Do(env, s, acts[0]), acts[1..], rid);
      if rid !in s.book.reps {
        DoStaysDead(env, s, acts[0], rid);
      } else {
        DoKeepsRep(env, s, acts[0], rid);
      }
    }
  }

  /** What the expiry of `key` does to the persistent timer `rid`. */
  lemma ExpiryOnRep(b: Book, key: Id, rid: Id)
    requires Entries(b) && Numbers(b) && rid in b.reps && key in b.timers
    ensures b.timers[key].Once? ==> ExpireOnce(b, key).fired[rid] == b.fired[rid]
    ensures b.timers[key].Again? ==>
              var c := ExpireRep(b, key, b.timers[key].rid);
              if b.timers[key].rid == rid
              then key.at == b.reps[rid].at && c.reps[rid].at == key.at + b.reps[rid].interval
                   && c.reps[rid].interval == b.reps[rid].interval && c.reps[rid].task == b.reps[rid].task
                   && c.fired[rid] == b.fired[rid] + 1
              else c.reps[rid] == b.reps[rid] && c.fired[rid] == b.fired[rid]
  {
    assert TakenFor(b, Persistent(rid));
    if b.timers[key].Once? {
      assert TakenFor(b, OneShot(key));
    }
  }

  lemma CallbackOnRep(env: Env, s: State, rid: Id)
    requires Entries(s.book) && Numbers(s.book) && rid in s.book.reps && s.book.timers != map[]
    ensures var b, c, r := s.book, CallbackStart(env, s).book, s.book.reps[rid];
            && rid in c.reps && c.reps[rid].interval == r.interval && c.reps[rid].task == r.task
            && (if b.timers[First(b.timers.Keys)] == Again(rid)
                then First(b.timers.Keys).at == r.at && c.reps[rid].at == r.at + r.interval && c.fired[rid] == b.fired[rid] + 1
                else c.reps[rid].at == r.at && c.fired[rid] == b.fired[rid])
  {
    hide Entries, Numbers;
    var key := First(s.book.timers.Keys);
    ExpiryOnRep(s.book, key, rid);
    EntryHasRecord(s.book, key);
    match s.book.timers[key]
    case Once(_) => assert CallbackStart(env, s).book == ExpireOnce(s.book, key);
    case Again(r) => assert CallbackStart(env, s).book == ExpireRep(s.book, key, r);
  }

  lemma CallbackCatchesUp(env: Env, s: State, now: int, rid: Id, a: int, interval: int, c: int)
    requires Good(s.book) && Due(s.book, now) && CaughtUp(s.book, rid, a, interval, c, now)
    ensures var t := CallbackStart(env, s);
            rid in t.book.reps && CaughtUp(t.book, rid, a, interval, c + t.book.fired[rid] - s.book.fired[rid], now)
  {
    hide Good, Entries, Numbers, CallbackStart, Nth;
    GoodParts(s.book, rid);
    CallbackOnRep(env, s, rid);
    NthNext(a, interval, c);
  }

  lemma FireCatchesUp(env: Env, s: State, now: int, rid: Id, a: int, interval: int, c: int)
    requires Good(s.book) && Due(s.book, now) && CaughtUp(s.book, rid, a, interval, c, now)
    requires !Fire(env, s).misused && rid in Fire(env, s).book.reps
    ensures var t := Fire(env, s);
            CaughtUp(t.book, rid, a, interval, c + t.book.fired[rid] - s.book.fired[rid], now)
  {
    hide Good, CallbackStart, CaughtUp, Script, DoAll;
    CallbackStartsGood(env, s);
    CallbackCatchesUp(env, s, now, rid, a, interval, c);
    var t := CallbackStart(env, s);
    GoodParts(t.book, rid);
    MisuseIsRemembered(env, t, Script(env, s));
    DoAllKeepsRep(env, t, Script(env, s), rid);
    CaughtUpSame(t.book, Fire(env, s).book, rid, a, interval, c + t.book.fired[rid] - s.book.fired[rid], now);
  }

  lemma CaughtUpSame(b: Book, d: Book, rid: Id, a: int, interval: int, c: int, now: int)
    requires CaughtUp(b, rid, a, interval, c, now) && rid in b.reps && rid in d.reps && d.reps[rid] == b.reps[rid]
    ensures CaughtUp(d, rid, a, interval, c, now)
  {
  }

  lemma FireMisuse(env: Env, s: State)
    requires s.book.timers != map[]
    ensures s.misused ==> Fire(env, s).misused
  {
    MisuseIsRemembered(env, CallbackStart(env, s), Script(env, s));
  }

  lemma {:induction false} RoundsMisuse(env: Env, s: State, now: int, n: nat)
    ensures s.misused ==> Rounds(env, s, now, n).misused
    decreases n
  {
    if n > 0 && Due(s.book, now) {
      FireMisuse(env, s);
      RoundsMisuse(env, Fire(env, s), now, n - 1);
    }
  }

  lemma {:induction false} RoundsStayDead(env: Env, s: State, now: int, n: nat, rid: Id)
    requires Good(s.book) && Dead(s.book, rid) && !Rounds(env, s, now, n).misused
    ensures rid !in Rounds(env, s, now, n).book.reps
    decreases n
  {
    hide Good;
    if n > 0 && Due(s.book, now) {
      RoundsMisuse(env, Fire(env, s), now, n - 1);
      FireGood(env, s);
      FireStaysDead(env, s, rid);
      RoundsStayDead(env, Fire(env, s), now, n - 1, rid);
    }
  }

  /** `n` rounds do not misuse cancel and leave the persistent timer registered. */
  ghost predicate Survives(env: Env, s: State, now: int, n: nat, rid: Id) {
    !Rounds(env, s, now, n).misused && rid in Rounds(env, s, now, n).book.reps
  }

  /** The same for a whole pass: after `n` rounds nothing is due any more. */
  ghost predicate SurvivesPass(env: Env, s: State, now: int, n: nat, rid: Id) {
    Survives(env, s, now, n, rid) && !Due(Rounds(env, s, now, n).book, now) && Rounds(env, s, now, n).book.timerSeq < LAST_NUM
  }

  /** What is registered after the last round was registered after the first. */
  lemma RegisteredAfterFirst(env: Env, s: State, now: int, n: nat, rid: Id)
    requires Good(s.book) && rid in s.book.reps && n > 0 && Due(s.book, now)
    requires Survives(env, s, now, n, rid)
    ensures !Fire(env, s).misused && rid in Fire(env, s).book.reps
  {
    hide Good, Fire;
    var t := Fire(env, s);
    RoundsMisuse(env, t, now, n - 1);
    if rid !in t.book.reps {
      FireGood(env, s);
      FireKeepsTicket(env, s, rid);
      RoundsStayDead(env, t, now, n - 1, rid);
    }
  }

  lemma {:induction false} RoundsCatchUp(env: Env, s: State, now: int, n: nat, rid: Id, a: int, interval: int, c: int)
    requires Good(s.book) && rid in s.book.reps && CaughtUp(s.book, rid, a, interval, c, now)
    requires Survives(env, s, now, n, rid)
    ensures var e := Rounds(env, s, now, n);
            && Good(e.book)
            && CaughtUp(e.book, rid, a, interval, c + e.book.fired[rid] - s.book.fired[rid], now)
    decreases n
  {
    hide Good, Fire, CaughtUp;
    if n > 0 && Due(s.book, now) {
      var t := Fire(env, s);
      RegisteredAfterFirst(env, s, now, n, rid);
      FireGood(env, s);
      FireCatchesUp(env, s, now, rid, a, interval, c);
      RoundsCatchUp(env, t, now, n - 1, rid, a, interval, c + t.book.fired[rid] - s.book.fired[rid]);
    }
  }

  lemma {:induction false} DoAllKeepsTickets(env: Env, s: State, acts: seq<Act>)
    ensures s.book.taken <= DoAll(env, s, acts).book.taken
    decreases |acts|
  {
    if acts != [] {
      DoAllKeepsTickets(env, Do(env, s, acts[0]), acts[1..]);
    }
  }

  lemma CallbackKeepsTickets(env: Env, s: State)
    requires s.book.timers != map[]
    ensures s.book.taken <= CallbackStart(env, s).book.taken
  {
  }

  lemma FireKeepsTicket(env: Env, s: State, rid: Id)
    requires Good(s.book) && rid in s.book.reps && s.book.timers != map[]
    ensures TakenFor(Fire(env, s).book, Persistent(rid))
  {
    hide Good, DoAll;
    GoodParts(s.book, rid);
    CallbackKeepsTickets(env, s);
    DoAllKeepsTickets(env, CallbackStart(env, s), Script(env, s));
  }

  lemma CountFromDeadline(d: int, interval: int, c: int)
    requires interval > 0 && c > 0 && (c - 1) * interval <= d < c * interval
    ensures c == d / interval + 1
  {
    DivideUnique(d, interval, c - 1, d - interval * (c - 1));
  }

  /** In a pass with snapshot `now`, a persistent timer with deadline a <= now and a positive interval
      that is still registered at the end has fired exactly (now - a) / interval + 1 times; its next
      deadline is the only a + k * interval in (now, now + interval]. */
  lemma CatchUpIsExact(env: Env, s: State, now: int, n: nat, rid: Id)
    requires Good(s.book) && rid in s.book.reps
    requires s.book.reps[rid].interval > 0 && s.book.reps[rid].at <= now
    requires SurvivesPass(env, s, now, n, rid)
    ensures var e, r := Rounds(env, s, now, n), s.book.reps[rid];
            && e.book.fired[rid] == s.book.fired[rid] + (now - r.at) / r.interval + 1
            && now < e.book.reps[rid].at <= now + r.interval
            && forall k: int :: now < r.at + k * r.interval <= now + r.interval ==> e.book.reps[rid].at == r.at + k * r.interval
  {
    hide Good, Due, Entries, Numbers, Rounds;
    var r, e := s.book.reps[rid], Rounds(env, s, now, n);
    RoundsCatchUp(env, s, now, n, rid, r.at, r.interval, 0);
    GoodParts(e.book, rid);
    NothingDueMeansLater(e.book, now);
    var c, next := e.book.fired[rid] - s.book.fired[rid], e.book.reps[rid].at;
    FirstAfter(r.at, r.interval, c, next, now);
  }

  lemma FirstAfter(a: int, interval: int, c: int, next: int, now: int)
    requires interval > 0 && a <= now < next && c >= 0 && next == Nth(a, interval, c) && (c > 0 ==> next - interval <= now)
    ensures c == (now - a) / interval + 1
    ensures forall k: int :: now < a + k * interval <= now + interval ==> next == a + k * interval
  {
    assert c > 0;
    assert (c - 1) * interval == c * interval - interval;
    CountFromDeadline(now - a, interval, c);
    forall k: int | now < a + k * interval <= now + interval
      ensures next == a + k * interval
    {
      assert (k - 1) * interval == k * interval - interval;
      assert interval * (1 - k) == interval - k * interval;
      if k <= 0 {
        TimesAtLeast(interval, 1 - k);
      }
      CountFromDeadline(now - a, interval, k);
    }
  }

  // ---- A persistent timer over whole runs ----

  /** From `b` to `c` the timer keeps its interval and its task, and its deadline has moved on by one interval for
      each time it has fired. */
  ghost predicate Advanced(b: Book, c: Book, rid: Id)
    requires rid in b.reps && rid in c.reps
  {
    var r, q, fired: int := b.reps[rid], c.reps[rid], c.fired[rid] as int - b.fired[rid] as int;
    q.interval == r.interval && q.task == r.task && fired >= 0 && q.at == Nth(r.at, r.interval, fired)
  }

  lemma AdvancedTwice(b: Book, c: Book, d: Book, rid: Id)
    requires rid in b.reps && rid in c.reps && rid in d.reps && Advanced(b, c, rid) && Advanced(c, d, rid)
    ensures Advanced(b, d, rid)
  {
    var m: int, n: int, interval := c.fired[rid] as int - b.fired[rid] as int, d.fired[rid] as int - c.fired[rid] as int, b.reps[rid].interval;
    assert (m + n) * interval == m * interval + n * interval;
  }

  lemma FireAdvances(env: Env, s: State, rid: Id)
    requires Good(s.book) && rid in s.book.reps && s.book.timers != map[]
    requires !Fire(env, s).misused && rid in Fire(env, s).book.reps
    ensures Advanced(s.book, Fire(env, s).book, rid)
  {
    hide Good, Entries, Numbers, CallbackStart, Script, DoAll;
    var t := CallbackStart(env, s);
    GoodParts(s.book, rid);
    CallbackStartsGood(env, s);
    CallbackOnRep(env, s, rid);
    CallbackKeepsTickets(env, s);
    MisuseIsRemembered(env, t, Script(env, s));
    DoAllKeepsRep(env, t, Script(env, s), rid);
  }

  lemma NextAdvances(env: Env, l: Loop, step: Step, rid: Id)
    requires Good(l.s.book) && rid in l.s.book.reps && !Next(env, l, step).s.misused && rid in Next(env, l, step).s.book.reps
    ensures Advanced(l.s.book, Next(env, l, step).s.book, rid)
  {
    hide Good, Entries, Numbers, Fire;
    GoodParts(l.s.book, rid);
    if Enabled(l, step) {
      match step
      case Api(act) => DoKeepsRep(env, l.s, act, rid);
      case Pop => FireAdvances(env, l.s, rid);
      case _ =>
    }
  }

  /** In every run, whatever else happens: as long as a persistent timer is registered, it keeps its interval and
      its task, and its deadline is the first one plus as many intervals as it has fired. */
  lemma {:induction false} RunAdvances(env: Env, l: Loop, steps: seq<Step>, rid: Id)
    requires Good(l.s.book) && rid in l.s.book.reps
    requires !Run(env, l, steps).s.misused && rid in Run(env, l, steps).s.book.reps
    ensures Advanced(l.s.book, Run(env, l, steps).s.book, rid)
    decreases |steps|
  {
    hide Good, Next, Advanced;
    if steps == [] {
      AdvancedNot(l.s.book, rid);
    } else {
      var m := Next(env, l, steps[0]);
      RunMisuse(env, m, steps[1..]);
      NextGood(env, l, steps[0]);
      NextKeepsTicket(env, l, steps[0], rid);
      if rid !in m.s.book.reps {
        NotRegisteredAgain(env, m, steps[1..], rid);
      }
      NextAdvances(env, l, steps[0], rid);
      RunAdvances(env, m, steps[1..], rid);
      AdvancedTwice(l.s.book, m.s.book, Run(env, l, steps).s.book, rid);
    }
  }

  lemma AdvancedNot(b: Book, rid: Id)
    requires rid in b.reps
    ensures Advanced(b, b, rid)
  {
  }

  lemma NextKeepsTicket(env: Env, l: Loop, step: Step, rid: Id)
    requires Good(l.s.book) && rid in l.s.book.reps
    ensures TakenFor(Next(env, l, step).s.book, Persistent(rid))
  {
    hide Good, Fire, Do;
    GoodParts(l.s.book, rid);
    if Enabled(l, step) {
      match step
      case Api(act) => DoKeepsTicket(env, l.s, act, Persistent(rid));
      case Pop => FireKeepsTicket(env, l.s, rid);
      case _ =>
    }
  }

  lemma NotRegisteredAgain(env: Env, l: Loop, steps: seq<Step>, rid: Id)
    requires Good(l.s.book) && TakenFor(l.s.book, Persistent(rid)) && rid !in l.s.book.reps
    requires !Run(env, l, steps).s.misused
    ensures rid !in Run(env, l, steps).s.book.reps
  {
    RunStaysDead(env, l, steps, rid);
  }

  /** When the entry of a persistent timer comes first in a pass, the next callback is the one it was registered with,
      and it starts with the timer back in the table and the timeout refreshed. */
  lemma PersistentRunsItsTask(env: Env, l: Loop, steps: seq<Step>, rid: Id)
    requires Good(l.s.book) && rid in l.s.book.reps
    requires !Run(env, l, steps).s.misused && rid in Run(env, l, steps).s.book.reps
    requires var m := Run(env, l, steps); m.pass.Expiring? && Due(m.s.book, m.pass.now)
    requires var b := Run(env, l, steps).s.book; First(b.timers.Keys) == b.reps[rid].timerId
    ensures var m := Run(env, l, steps);
            Next(env, m, Pop).s
            == DoAll(env, Refresh(env, m.s.(calls := m.s.calls + 1, book := ExpireRep(m.s.book, m.s.book.reps[rid].timerId, rid))),
                     env.script(l.s.book.reps[rid].task, m.s.calls))
  {
    hide Run, Next, Good, Due, Refresh, DoAll, Nth;
    RunAdvances(env, l, steps, rid);
    RunGood(env, l, steps);
    var m := Run(env, l, steps);
    PopRunsRep(env, m.s, m.pass.now, rid);
  }

  lemma PopRunsRep(env: Env, s: State, now: int, rid: Id)
    requires Good(s.book) && rid in s.book.reps && Due(s.book, now) && First(s.book.timers.Keys) == s.book.reps[rid].timerId
    ensures Next(env, Loop(s, Expiring(now)), Pop).s
            == DoAll(env, Refresh(env, s.(calls := s.calls + 1, book := ExpireRep(s.book, s.book.reps[rid].timerId, rid))),
                     env.script(s.book.reps[rid].task, s.calls))
  {
    hide Numbers, Fates, Unspent, Refresh, ExpireRep, DoAll;
    FireUnfold(env, s);
    PopUnfold(env, s, now);
  }
}
