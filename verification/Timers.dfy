/**
 The timer engine of net/tiny_eventbase.cxx: the ordered table `timers`, keyed by (deadline, sequence
 number), and the table `reps` of persistent timers, whose entries put themselves back into `timers`
 while the expiry loop is running.

 User callbacks are adversarial: if the n-th callback that runs is `task`, it performs the actions
 `env.script(task, n)`, whatever they are.  The n-th reading of the millisecond clock is `env.clock(n)`.
 */
module Timers {
  import opened Common

  datatype Id = Id(at: int, num: int)

  predicate Less(a: Id, b: Id) { a.at < b.at || (a.at == b.at && a.num < b.num) }

  type Task = nat

  /** What a table entry does when it expires: run a task once, or run the persistent timer `rid`. */
  datatype Entry = Once(task: Task) | Again(rid: Id)

  datatype Rep = Rep(at: int, interval: int, timerId: Id, task: Task)

  datatype Act = RunAt(at: int, interval: int, task: Task) | Cancel(id: Id) | Exit

  datatype Env = Env(clock: nat -> int, script: (Task, nat) -> seq<Act>)

  /** What a sequence number was taken for: a one-shot id, a persistent id, or the key of a persistent
      timer's entry. */
  datatype Ticket = OneShot(id: Id) | Persistent(id: Id) | Internal(id: Id)

  /**
   The two tables and the sequence counter, with their history: what each number was taken for (number
   n at index n - 1); the keys that expired, in order; how often each id has fired; the ids for which
   `cancel` removed something; the ids dropped when the loop ended.
   */
  datatype Book = Book(
    timers: map<Id, Entry>, reps: map<Id, Rep>, timerSeq: int,
    taken: seq<Ticket>, log: seq<Id>, fired: multiset<Id>, cancelled: multiset<Id>, cleared: set<Id>)

  /** The engine: `ticks` and `calls` count clock readings and callbacks; `refreshed` is the instant of
      the last refresh that saw a timer; `wraps` says that the last refresh saw a deadline so long past that
      its truncated distance is positive, and `misused` a use of `cancel` the engine gives no meaning to. */
  datatype State = State(
    book: Book, exited: bool, nextTimeout: int,
    ticks: nat, calls: nat, refreshed: int, wraps: bool, misused: bool)

  const FAR := 0x4000_0000
  const LAST_NUM := 0x4000_0000_0000_0000

  const NEW_BOOK := Book(map[], map[], 0, [], [], multiset{}, multiset{}, {})
  const START := State(NEW_BOOK, false, FAR, 0, 0, 0, false, false)

  // ---- The earliest key ----

  ghost predicate IsFirst(k: Id, keys: set<Id>) {
    k in keys && forall j | j in keys :: j == k || Less(k, j)
  }

  lemma {:induction false} FirstExists(keys: set<Id>)
    requires keys != {}
    ensures exists k :: IsFirst(k, keys)
    decreases |keys|
  {
    var j :| j in keys;
    if keys == {j} {
      assert IsFirst(j, keys);
    } else {
      FirstExists(keys - {j});
      var k :| IsFirst(k, keys - {j});
      var least := if Less(j, k) then j else k;
      assert forall i | i in keys :: i == j || i in keys - {j};
      assert IsFirst(least, keys);
    }
  }

  ghost function First(keys: set<Id>): (k: Id)
    requires keys != {}
    ensures IsFirst(k, keys)
  {
    FirstExists(keys);
    var k :| IsFirst(k, keys);
    k
  }

  lemma FirstIsUnique(k: Id, keys: set<Id>)
    requires IsFirst(k, keys)
    ensures keys != {} && First(keys) == k
  {
  }

  // ---- What the operations do to the tables ----

  /** A one-shot timer with the next sequence number; `insert` leaves an existing key alone. */
  function AddOnce(b: Book, at: int, task: Task): Book {
    var id := Id(at, b.timerSeq + 1);
    b.(timers := if id in b.timers then b.timers else b.timers[id := Once(task)],
       timerSeq := b.timerSeq + 1, taken := b.taken + [OneShot(id)])
  }

  /** A persistent timer takes two numbers: its id carries the negated deadline, its key the deadline. */
  function AddRep(b: Book, at: int, interval: int, task: Task): Book {
    var rid := Id(-at, b.timerSeq + 1);
    var key := Id(at, b.timerSeq + 2);
    b.(reps := b.reps[rid := Rep(at, interval, key, task)], timers := b.timers[key := Again(rid)],
       timerSeq := b.timerSeq + 2, taken := b.taken + [Persistent(rid), Internal(key)])
  }

  function DropOnce(b: Book, id: Id): Book {
    b.(timers := b.timers - {id}, cancelled := b.cancelled + multiset{id})
  }

  function DropRep(b: Book, rid: Id): Book
    requires rid in b.reps
  {
    b.(timers := b.timers - {b.reps[rid].timerId}, reps := b.reps - {rid}, cancelled := b.cancelled + multiset{rid})
  }

  function ExpireOnce(b: Book, key: Id): Book {
    b.(timers := b.timers - {key}, log := b.log + [key], fired := b.fired + multiset{key})
  }

  /** An expired persistent entry: the deadline moves on by one interval and the timer is put back. */
  function ExpireRep(b: Book, key: Id, rid: Id): Book
    requires rid in b.reps
  {
    var r := b.reps[rid];
    var next := Id(r.at + r.interval, b.timerSeq + 1);
    b.(timers := (b.timers - {key})[next := Again(rid)], reps := b.reps[rid := r.(at := next.at, timerId := next)],
       timerSeq := b.timerSeq + 1, taken := b.taken + [Internal(next)],
       log := b.log + [key], fired := b.fired + multiset{rid})
  }

  /** The loop has ended: both tables are emptied. */
  function ClearBook(b: Book): Book {
    b.(timers := map[], reps := map[],
       cleared := b.cleared + b.reps.Keys + (set k | k in b.timers && b.timers[k].Once?))
  }

  // ---- The operations ----

  /** The value an `int` field takes when it is assigned a 64-bit difference. */
  function ToInt32(d: int): int {
    (d + 0x8000_0000) % 0x1_0000_0000 - 0x8000_0000
  }

  /** Distances to a past deadline that become positive when they are truncated. */
  predicate Wraps(d: int) { d < -0x8000_0000 && (-d) % 0x1_0000_0000 > 0x8000_0000 }

  ghost function Refresh(env: Env, s: State): State {
    if s.book.timers == map[] then s.(nextTimeout := FAR, wraps := false)
    else
      var now := env.clock(s.ticks);
      var d := First(s.book.timers.Keys).at - now;
      s.(nextTimeout := if ToInt32(d) < 0 then 0 else ToInt32(d),
         ticks := s.ticks + 1, refreshed := now, wraps := Wraps(d))
  }

  ghost function DoRunAt(env: Env, s: State, at: int, interval: int, task: Task): (State, Id) {
    if s.exited then (s, Id(0, 0))
    else if interval != 0 then
      (Refresh(env, s.(book := AddRep(s.book, at, interval, task))), Id(-at, s.book.timerSeq + 1))
    else
      (Refresh(env, s.(book := AddOnce(s.book, at, task))), Id(at, s.book.timerSeq + 1))
  }

  /** The engine gives no meaning to cancelling a negative id that is not registered (the code
      dereferences the end of the map) or the internal key of a persistent timer, which `runAt` never
      hands out. */
  predicate Misuse(b: Book, id: Id) {
    if id.at < 0 then id !in b.reps else id in b.timers && b.timers[id].Again?
  }

  function DoCancel(s: State, id: Id): (State, bool) {
    var t := s.(misused := s.misused || Misuse(s.book, id));
    if id.at < 0 then
      (if id in s.book.reps then t.(book := DropRep(s.book, id)) else t, true)
    else if id in s.book.timers then
      (t.(book := DropOnce(s.book, id)), true)
    else (t, false)
  }

  ghost function Do(env: Env, s: State, act: Act): State {
    match act
    case RunAt(at, interval, task) => DoRunAt(env, s, at, interval, task).0
    case Cancel(id) => DoCancel(s, id).0
    case Exit => s.(exited := true)
  }

  ghost function DoAll(env: Env, s: State, acts: seq<Act>): State
    decreases |acts|
  {
    if acts == [] then s else DoAll(env, Do(env, s, acts[0]), acts[1..])
  }

  /** The state in which the user callback of the earliest entry starts; a persistent timer is back in
      the table by then.  An entry whose record is gone does not arise (`Entries`, `TimerRuns.DoEntries`). */
  ghost function CallbackStart(env: Env, s: State): State
    requires s.book.timers != map[]
  {
    var key := First(s.book.timers.Keys);
    var t := s.(calls := s.calls + 1);
    match s.book.timers[key]
    case Once(_) => t.(book := ExpireOnce(s.book, key))
    case Again(rid) =>
      if rid in s.book.reps then Refresh(env, t.(book := ExpireRep(s.book, key, rid)))
      else t.(book := s.book.(timers := s.book.timers - {key}))
  }

  /** The actions of that callback. */
  ghost function Script(env: Env, s: State): seq<Act>
    requires s.book.timers != map[]
  {
    match s.book.timers[First(s.book.timers.Keys)]
    case Once(task) => env.script(task, s.calls)
    case Again(rid) => if rid in s.book.reps then env.script(s.book.reps[rid].task, s.calls) else []
  }

  ghost function Fire(env: Env, s: State): State
    requires s.book.timers != map[]
  {
    DoAll(env, CallbackStart(env, s), Script(env, s))
  }

  ghost predicate Due(b: Book, now: int) {
    b.timers != map[] && Less(First(b.timers.Keys), Id(now, LAST_NUM))
  }

  /** The first `n` rounds of the expiry loop. */
  ghost function Rounds(env: Env, s: State, now: int, n: nat): State
    decreases n
  {
    if n == 0 || !Due(s.book, now) then s else Rounds(env, Fire(env, s), now, n - 1)
  }

  // ---- Invariants ----

  /** Every entry of a persistent timer has its record, with an interval other than 0; all numbers in use
      have been handed out. */
  ghost predicate Entries(b: Book) {
    && (forall k | k in b.timers :: k.num <= b.timerSeq)
    && (forall k | k in b.timers && b.timers[k].Again? :: b.timers[k].rid in b.reps && b.reps[b.timers[k].rid].timerId == k)
    && (forall r | r in b.reps :: r.num <= b.timerSeq && b.reps[r].interval != 0)
    && (forall r | r in b.reps :: b.reps[r].timerId.at == b.reps[r].at && b.reps[r].timerId.num <= b.timerSeq)
  }

  /** Every record has its entry.  With `Entries`: the records and the persistent entries are in
      bijection, each record naming its key. */
  ghost predicate Records(b: Book) {
    forall r | r in b.reps :: b.reps[r].timerId in b.timers && b.timers[b.reps[r].timerId] == Again(r)
  }

  predicate TakenFor(b: Book, t: Ticket) {
    1 <= t.id.num <= |b.taken| && b.taken[t.id.num - 1] == t
  }

  /** Every number has been taken once, and every id and key in the tables owns its number. */
  ghost predicate Numbers(b: Book) {
    && b.timerSeq == |b.taken|
    && (forall n | 0 <= n < |b.taken| :: b.taken[n].id.num == n + 1)
    && (forall k | k in b.timers && b.timers[k].Once? :: TakenFor(b, OneShot(k)))
    && (forall r | r in b.reps :: TakenFor(b, Persistent(r)) && TakenFor(b, Internal(b.reps[r].timerId)))
  }

  /** A one-shot is in exactly one of: pending, fired once, cancelled once, cleared; a persistent timer in
      exactly one of: registered, cancelled once, cleared. */
  ghost predicate Fate(b: Book, t: Ticket) {
    match t
    case OneShot(i) => Tally(i in b.timers) + b.fired[i] + b.cancelled[i] + Tally(i in b.cleared) == 1
    case Persistent(i) => Tally(i in b.reps) + b.cancelled[i] + Tally(i in b.cleared) == 1
    case Internal(_) => true
  }

  ghost predicate Fates(b: Book) {
    forall n | 0 <= n < |b.taken| :: Fate(b, b.taken[n])
  }

  /** Nothing has happened yet to the ids still to be handed out. */
  ghost predicate Unspent(b: Book) {
    forall i | i in b.fired || i in b.cancelled || i in b.cleared :: i.num <= b.timerSeq
  }

  ghost predicate Good(b: Book) { Entries(b) && Records(b) && Numbers(b) && Fates(b) && Unspent(b) }

  // ---- Entries never lose their records, whatever is cancelled ----

  lemma AddOnceEntries(b: Book, at: int, task: Task)
    requires Entries(b)
    ensures Entries(AddOnce(b, at, task))
  {
  }

  lemma AddRepEntries(b: Book, at: int, interval: int, task: Task)
    requires Entries(b) && interval != 0
    ensures Entries(AddRep(b, at, interval, task))
  {
  }

  lemma DropEntries(b: Book, id: Id)
    requires Entries(b)
    ensures Entries(DropOnce(b, id))
    ensures id in b.reps ==> Entries(DropRep(b, id))
  {
  }

  lemma ExpireEntries(b: Book, key: Id)
    requires Entries(b) && key in b.timers
    ensures b.timers[key].Once? ==> Entries(ExpireOnce(b, key))
    ensures b.timers[key].Again? ==> Entries(ExpireRep(b, key, b.timers[key].rid))
  {
  }

  // ---- Each invariant, move by move ----

  lemma AddRecords(b: Book, at: int, interval: int, task: Task)
    requires Entries(b) && Records(b)
    ensures Records(AddOnce(b, at, task))
    ensures Records(AddRep(b, at, interval, task))
  {
  }

  lemma DropRecords(b: Book, id: Id)
    requires Entries(b) && Records(b)
    ensures id in b.timers && b.timers[id].Once? ==> Records(DropOnce(b, id))
    ensures id in b.reps ==> Records(DropRep(b, id))
  {
  }

  lemma ExpireRecords(b: Book, key: Id)
    requires Entries(b) && Records(b) && key in b.timers
    ensures b.timers[key].Once? ==> Records(ExpireOnce(b, key))
    ensures b.timers[key].Again? ==> Records(ExpireRep(b, key, b.timers[key].rid))
  {
  }

  lemma MoreTaken(b: Book, c: Book)
    requires b.taken <= c.taken
    ensures forall t | TakenFor(b, t) :: TakenFor(c, t)
  {
  }

  lemma AddOnceNumbers(b: Book, at: int, task: Task)
    requires Numbers(b)
    ensures Numbers(AddOnce(b, at, task))
  {
    MoreTaken(b, AddOnce(b, at, task));
  }

  lemma AddRepNumbers(b: Book, at: int, interval: int, task: Task)
    requires Numbers(b)
    ensures Numbers(AddRep(b, at, interval, task))
  {
    MoreTaken(b, AddRep(b, at, interval, task));
  }

  lemma DropNumbers(b: Book, id: Id)
    requires Numbers(b)
    ensures Numbers(DropOnce(b, id))
    ensures id in b.reps ==> Numbers(DropRep(b, id))
  {
  }

  lemma ExpireOnceNumbers(b: Book, key: Id)
    requires Numbers(b) && key in b.timers
    ensures Numbers(ExpireOnce(b, key))
  {
  }

  lemma ExpireRepNumbers(b: Book, key: Id)
    requires Entries(b) && Numbers(b) && key in b.timers && b.timers[key].Again?
    ensures Numbers(ExpireRep(b, key, b.timers[key].rid))
  {
    MoreTaken(b, ExpireRep(b, key, b.timers[key].rid));
  }

  lemma AddUnspent(b: Book, at: int, interval: int, task: Task)
    requires Unspent(b)
    ensures Unspent(AddOnce(b, at, task)) && Unspent(AddRep(b, at, interval, task))
  {
  }

  lemma AddOnceFate(b: Book, at: int, task: Task, t: Ticket)
    requires Entries(b) && TakenFor(b, t) && Fate(b, t) && b.timerSeq == |b.taken|
    ensures Fate(AddOnce(b, at, task), t)
  {
  }

  lemma AddOnceFates(b: Book, at: int, task: Task)
    requires Entries(b) && Numbers(b) && Fates(b) && Unspent(b)
    ensures Fates(AddOnce(b, at, task))
  {
    forall n | 0 <= n < |b.taken|
      ensures Fate(AddOnce(b, at, task), b.taken[n])
    {
      AddOnceFate(b, at, task, b.taken[n]);
    }
  }

  lemma AddRepFate(b: Book, at: int, interval: int, task: Task, t: Ticket)
    requires Entries(b) && TakenFor(b, t) && Fate(b, t) && b.timerSeq == |b.taken|
    ensures Fate(AddRep(b, at, interval, task), t)
  {
  }

  lemma AddRepFates(b: Book, at: int, interval: int, task: Task)
    requires Entries(b) && Numbers(b) && Fates(b) && Unspent(b)
    ensures Fates(AddRep(b, at, interval, task))
  {
    hide Fate, Entries;
    var c := AddRep(b, at, interval, task);
    forall n | 0 <= n < |b.taken|
      ensures Fate(c, b.taken[n])
    {
      AddRepFate(b, at, interval, task, b.taken[n]);
    }
    assert c.taken == b.taken + [Persistent(Id(-at, b.timerSeq + 1)), Internal(Id(at, b.timerSeq + 2))];
    NewRepFate(b, at, interval, task);
  }

  lemma NewRepFate(b: Book, at: int, interval: int, task: Task)
    requires Entries(b) && Unspent(b)
    ensures Fate(AddRep(b, at, interval, task), Persistent(Id(-at, b.timerSeq + 1)))
    ensures Fate(AddRep(b, at, interval, task), Internal(Id(at, b.timerSeq + 2)))
  {
  }

  lemma DropOnceFate(b: Book, id: Id, t: Ticket)
    requires TakenFor(b, OneShot(id)) && id in b.timers && TakenFor(b, t) && Fate(b, t)
    ensures Fate(DropOnce(b, id), t)
  {
  }

  lemma DropOnceFates(b: Book, id: Id)
    requires Numbers(b) && Fates(b) && id in b.timers && b.timers[id].Once?
    ensures Fates(DropOnce(b, id))
  {
    forall n | 0 <= n < |b.taken|
      ensures Fate(DropOnce(b, id), b.taken[n])
    {
      DropOnceFate(b, id, b.taken[n]);
    }
  }

  lemma DropRepFate(b: Book, id: Id, t: Ticket)
    requires id in b.reps && TakenFor(b, Persistent(id)) && TakenFor(b, Internal(b.reps[id].timerId))
    requires TakenFor(b, t) && Fate(b, t)
    ensures Fate(DropRep(b, id), t)
  {
  }

  lemma DropRepFates(b: Book, id: Id)
    requires Numbers(b) && Fates(b) && id in b.reps
    ensures Fates(DropRep(b, id))
  {
    forall n | 0 <= n < |b.taken|
      ensures Fate(DropRep(b, id), b.taken[n])
    {
      DropRepFate(b, id, b.taken[n]);
    }
  }

  lemma ExpireOnceFate(b: Book, key: Id, t: Ticket)
    requires TakenFor(b, OneShot(key)) && key in b.timers && TakenFor(b, t) && Fate(b, t)
    ensures Fate(ExpireOnce(b, key), t)
  {
  }

  lemma ExpireOnceFates(b: Book, key: Id)
    requires Numbers(b) && Fates(b) && key in b.timers && b.timers[key].Once?
    ensures Fates(ExpireOnce(b, key))
  {
    forall n | 0 <= n < |b.taken|
      ensures Fate(ExpireOnce(b, key), b.taken[n])
    {
      ExpireOnceFate(b, key, b.taken[n]);
    }
  }

  lemma ExpireRepFate(b: Book, key: Id, t: Ticket)
    requires Entries(b) && Numbers(b) && key in b.timers && b.timers[key].Again? && TakenFor(b, t) && Fate(b, t)
    ensures Fate(ExpireRep(b, key, b.timers[key].rid), t)
  {
    var rid := b.timers[key].rid;
    assert TakenFor(b, Persistent(rid)) && TakenFor(b, Internal(b.reps[rid].timerId));
  }

  lemma ExpireRepFates(b: Book, key: Id)
    requires Entries(b) && Numbers(b) && Fates(b) && key in b.timers && b.timers[key].Again?
    ensures Fates(ExpireRep(b, key, b.timers[key].rid))
  {
    forall n | 0 <= n < |b.taken|
      ensures Fate(ExpireRep(b, key, b.timers[key].rid), b.taken[n])
    {
      ExpireRepFate(b, key, b.taken[n]);
    }
  }

  lemma ClearFate(b: Book, t: Ticket)
    requires Entries(b) && Numbers(b) && TakenFor(b, t) && Fate(b, t)
    ensures Fate(ClearBook(b), t)
  {
    var i := t.id;
    if i in b.reps { assert TakenFor(b, Persistent(i)); }
    if i in b.timers {
      match b.timers[i]
      case Once(_) => assert TakenFor(b, OneShot(i));
      case Again(rid) => assert TakenFor(b, Internal(b.reps[rid].timerId));
    }
  }

  lemma ClearGood(b: Book)
    requires Good(b)
    ensures Good(ClearBook(b))
  {
    forall n | 0 <= n < |b.taken|
      ensures Fate(ClearBook(b), b.taken[n])
    {
      ClearFate(b, b.taken[n]);
    }
    forall i | i in ClearBook(b).cleared
      ensures i.num <= b.timerSeq
    {
    }
  }

  // ---- All of them together ----

  lemma AddOnceGood(b: Book, at: int, task: Task)
    requires Good(b)
    ensures Good(AddOnce(b, at, task))
  {
    AddOnceEntries(b, at, task);
    AddRecords(b, at, 0, task);
    AddOnceNumbers(b, at, task);
    AddOnceFates(b, at, task);
    AddUnspent(b, at, 0, task);
  }

  lemma AddRepGood(b: Book, at: int, interval: int, task: Task)
    requires Good(b) && interval != 0
    ensures Good(AddRep(b, at, interval, task))
  {
    AddRepEntries(b, at, interval, task);
    AddRecords(b, at, interval, task);
    AddRepNumbers(b, at, interval, task);
    AddRepFates(b, at, interval, task);
    AddUnspent(b, at, interval, task);
  }

  lemma DropOnceGood(b: Book, id: Id)
    requires Good(b) && id in b.timers && b.timers[id].Once?
    ensures Good(DropOnce(b, id))
  {
    DropEntries(b, id);
    DropRecords(b, id);
    DropNumbers(b, id);
    DropOnceFates(b, id);
  }

  lemma DropRepGood(b: Book, id: Id)
    requires Good(b) && id in b.reps
    ensures Good(DropRep(b, id))
  {
    DropEntries(b, id);
    DropRecords(b, id);
    DropNumbers(b, id);
    DropRepFates(b, id);
  }

  lemma ExpireOnceGood(b: Book, key: Id)
    requires Good(b) && key in b.timers && b.timers[key].Once?
    ensures Good(ExpireOnce(b, key))
  {
    ExpireEntries(b, key);
    ExpireRecords(b, key);
    ExpireOnceNumbers(b, key);
    ExpireOnceFates(b, key);
  }

  lemma ExpireRepGood(b: Book, key: Id)
    requires Good(b) && key in b.timers && b.timers[key].Again?
    ensures Good(ExpireRep(b, key, b.timers[key].rid))
  {
    ExpireEntries(b, key);
    ExpireRecords(b, key);
    ExpireRepNumbers(b, key);
    ExpireRepFates(b, key);
  }
}
